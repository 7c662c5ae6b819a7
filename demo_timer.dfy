/** Demo: the presentation timer. A presentation stage of `totalTime`
    seconds is followed by a demo stage of half that; a warning bell rings
    when the time left equals `warningTime` and a final bell when it is 0. */
module Demo {
  import opened Countdown
  import opened JsText

  datatype Stage = Presentation | DemoStage

  /** Which bells the effect on `timeLeft` rings. */
  datatype Bells = Bells(warn: bool, final: bool)

  function BellsAt(timeLeft: int, warningTime: int): Bells
  {
    Bells(timeLeft == warningTime, timeLeft == 0)
  }

  class PresentationTimer {
    const totalTime: int
    const warningTime: int
    var timeLeft: int
    var isRunning: bool
    var stage: Stage

    /** The props default to 480 and 240 seconds; the timer starts paused
        in the presentation stage with the whole time left. */
    constructor (totalTime: int := 480, warningTime: int := 240)
      ensures this.totalTime == totalTime && this.warningTime == warningTime
      ensures timeLeft == totalTime && !isRunning && stage == Presentation
    {
      this.totalTime := totalTime;
      this.warningTime := warningTime;
      timeLeft := totalTime;
      isRunning := false;
      stage := Presentation;
    }

    /** `resetTimer`. */
    method ResetTimer()
      modifies this
      ensures !isRunning && stage == Presentation && timeLeft == totalTime
    {
      isRunning := false;
      stage := Presentation;
      timeLeft := totalTime;
    }

    /** The start/pause button: `setIsRunning(prev => !prev)`. */
    method Toggle()
      modifies this
      ensures isRunning == !old(isRunning)
      ensures stage == old(stage) && timeLeft == old(timeLeft)
    {
      isRunning := !isRunning;
    }

    /** The state changes made when a stage runs out: the timer stops, and
        if the presentation stage ended, the demo stage starts running with
        half the total time. */
    method StageOver()
      modifies this
      ensures old(stage) == Presentation ==>
        stage == DemoStage && timeLeft == totalTime / 2 && isRunning
      ensures old(stage) == DemoStage ==>
        stage == DemoStage && timeLeft == old(timeLeft) && !isRunning
    {
      isRunning := false;
      if stage == Presentation {
        stage := DemoStage;
        timeLeft := totalTime / 2;
        isRunning := true;
      }
    }

    /** The bells for the current time left. */
    function CurrentBells(): Bells
      reads this
    {
      BellsAt(timeLeft, warningTime)
    }
  }

  /** With the default props the demo stage starts at 240 seconds, which
      is the warning time, so the warning bell rings as the demo begins. */
  method DemoStartsOnWarning() returns (bells: Bells)
    ensures bells.warn && !bells.final
  {
    var timer := new PresentationTimer();
    timer.StageOver();
    bells := timer.CurrentBells();
  }

  /** For any props: when the presentation stage runs out, the demo stage
      starts on the warning bell exactly when half the total time (rounded
      down) is the warning time, and on the final bell exactly when that
      half is 0. */
  method DemoStartBells(totalTime: int, warningTime: int) returns (bells: Bells)
    ensures bells.warn <==> totalTime / 2 == warningTime
    ensures bells.final <==> totalTime / 2 == 0
  {
    var timer := new PresentationTimer(totalTime, warningTime);
    timer.StageOver();
    bells := timer.CurrentBells();
  }

  /** For any props: a timer stopped in the demo stage and then reset
      rings the warning bell exactly when the whole time is the warning time
      and the final bell exactly when it is 0; when its presentation stage
      runs out again, the demo stage starts on the same bells as the first
      time. */
  method RestartBells(totalTime: int, warningTime: int) returns (afterReset: Bells, demoAgain: Bells)
    ensures afterReset.warn <==> totalTime == warningTime
    ensures afterReset.final <==> totalTime == 0
    ensures demoAgain.warn <==> totalTime / 2 == warningTime
    ensures demoAgain.final <==> totalTime / 2 == 0
  {
    var timer := new PresentationTimer(totalTime, warningTime);
    timer.StageOver();
    timer.Toggle();
    timer.ResetTimer();
    afterReset := timer.CurrentBells();
    timer.StageOver();
    demoAgain := timer.CurrentBells();
  }

  /** `formatTime`: `Math.floor(seconds / 60)` minutes and the JavaScript
      remainder `seconds % 60`, with a `0` in front of a remainder below
      ten. */
  function FormatTime(seconds: int): string
  {
    var minutes := seconds / 60;
    var secs := seconds - 60 * TruncDiv(seconds, 60);
    IntText(minutes) + [':'] + (if secs < 10 then ['0'] else []) + IntText(secs)
  }

  lemma DecimalBelowHundred(n: nat)
    requires n < 100
    ensures |Decimal(n)| <= 2
  {
    if n >= 10 {
      assert |Decimal(n / 10)| == 1;
    }
  }

  /** For a time that is not negative the text is the minutes, a colon and
      exactly two digits of seconds, and reading it back gives the time. */
  lemma FormatTimeMeaning(seconds: int)
    requires seconds >= 0
    ensures var text := FormatTime(seconds);
      |text| >= 4 && text[|text| - 3] == ':' &&
      text[..|text| - 3] == Decimal(seconds / 60) &&
      text[|text| - 2..] == TwoDigits(seconds % 60) &&
      Parse(text[..|text| - 3]) * 60 + Parse(text[|text| - 2..]) == seconds
  {
    var secs := seconds % 60;
    assert seconds - 60 * TruncDiv(seconds, 60) == secs;
    TwoDigitsMeaning(secs);
    DecimalBelowHundred(secs);
    ParseDecimal(seconds / 60);
    var head := Decimal(seconds / 60);
    var tail := TwoDigits(secs);
    assert |tail| == 2;
    if secs < 10 {
      assert ['0'] + Decimal(secs) == tail;
    }
    var text := FormatTime(seconds);
    assert text == head + [':'] + tail;
    assert text[..|text| - 3] == head;
    assert text[|text| - 2..] == tail;
  }

  /** Past zero the JavaScript remainder is negative: one second below zero
      reads `-1:0-1`. */
  lemma FormatTimeBelowZero()
    ensures FormatTime(-1) == "-1:0-1"
  {
    assert TruncDiv(-1, 60) == 0;
    assert Decimal(1) == "1";
  }
}

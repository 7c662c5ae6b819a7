/** The registration countdowns. Final's and RegisterTimer's
    `calculateTimeLeft`, HackathonRegistration's interval tick and TImer's
    `calculateTimeLeft` all split the millisecond difference between the
    deadline and now with the same four `Math.floor` expressions; they differ
    in what they do once the difference is no longer positive. The
    difference is an integer (two `getTime()` values). */
module Countdown {
  import opened JsText

  datatype TimeLeft = TimeLeft(days: int, hours: int, minutes: int, seconds: int)

  const Zero := TimeLeft(0, 0, 0, 0)

  const MsPerSecond := 1000
  const MsPerMinute := 60000
  const MsPerHour := 3600000
  const MsPerDay := 86400000

  /** JavaScript's truncating quotient (`Math.trunc(x / n)`), for the `%`
      operator, whose result takes the sign of its left operand. Dafny's `/`
      on a positive divisor is the floor, which is `Math.floor(x / n)`. */
  function TruncDiv(x: int, n: int): int
    requires n > 0
  {
    if x >= 0 then x / n else -((-x) / n)
  }

  /** `Math.floor((d / unit) % m)`: with `q = d / unit` a real,
      `q % m == q - m * trunc(q / m)`, and `m * trunc(q / m)` is an integer. */
  function FloorRem(d: int, unit: int, m: int): int
    requires unit > 0 && m > 0
  {
    d / unit - m * TruncDiv(d, unit * m)
  }

  /** The four expressions every countdown evaluates. */
  function Split(d: int): TimeLeft
  {
    TimeLeft(d / MsPerDay, FloorRem(d, MsPerHour, 24), FloorRem(d, MsPerMinute, 60),
             FloorRem(d, MsPerSecond, 60))
  }

  /** The whole seconds a countdown shows. */
  function Seconds(t: TimeLeft): int
  {
    t.days * 86400 + t.hours * 3600 + t.minutes * 60 + t.seconds
  }

  /** Hours below 24, minutes and seconds below 60, nothing negative. */
  predicate Normal(t: TimeLeft)
  {
    t.days >= 0 && 0 <= t.hours < 24 && 0 <= t.minutes < 60 && 0 <= t.seconds < 60
  }

  /** For a difference that is not negative, the parts are the mixed-radix
      digits of the whole seconds left. */
  lemma SplitExact(d: int)
    requires d >= 0
    ensures var t := Split(d);
      Normal(t) && Seconds(t) == d / MsPerSecond &&
      t == TimeLeft(d / MsPerDay, (d / MsPerHour) % 24, (d / MsPerMinute) % 60, (d / MsPerSecond) % 60)
  {
    var s := d / 1000;
    var mi := s / 60;
    var h := mi / 60;
    var dy := h / 24;
    DivChain(d);
    assert d / MsPerMinute == mi;
    assert d / MsPerHour == h;
    assert d / MsPerDay == dy;
    assert TruncDiv(d, MsPerHour * 24) == dy;
    assert TruncDiv(d, MsPerMinute * 60) == h;
    assert TruncDiv(d, MsPerSecond * 60) == mi;
    assert s == 60 * mi + s % 60 && mi == 60 * h + mi % 60 && h == 24 * dy + h % 24;
  }

  /** The parts of `Split` are the only normal ones for those seconds: a
      normal countdown read back from its seconds and any extra milliseconds
      is itself. */
  lemma SplitRecovers(t: TimeLeft, ms: int)
    requires Normal(t) && 0 <= ms < 1000
    ensures Split(Seconds(t) * 1000 + ms) == t
  {
    var sec := Seconds(t);
    var d := sec * 1000 + ms;
    SplitExact(d);
    assert d / 1000 == sec;
    var mi := t.days * 1440 + t.hours * 60 + t.minutes;
    assert sec == 60 * mi + t.seconds;
    assert sec / 60 == mi && sec % 60 == t.seconds;
    var h := t.days * 24 + t.hours;
    assert mi == 60 * h + t.minutes;
    assert mi / 60 == h && mi % 60 == t.minutes;
    assert h == 24 * t.days + t.hours;
    assert h / 24 == t.days && h % 24 == t.hours;
    DivChain(d);
  }

  /** Dividing in steps is dividing by the product. */
  lemma DivChain(d: int)
    requires d >= 0
    ensures d / MsPerMinute == d / MsPerSecond / 60
    ensures d / MsPerHour == d / MsPerSecond / 60 / 60
    ensures d / MsPerDay == d / MsPerSecond / 60 / 60 / 24
  {
  }

  /** TImer computes `Split` with no guard: past the target every part is
      zero or negative and the days are negative. */
  lemma SplitPastDeadline(d: int)
    requires d < 0
    ensures var t := Split(d);
      t.days < 0 && -24 <= t.hours <= 0 && -60 <= t.minutes <= 0 && -60 <= t.seconds <= 0
  {
    var x := -d;
    assert TruncDiv(d, MsPerHour * 24) == -(x / MsPerDay);
    assert TruncDiv(d, MsPerMinute * 60) == -(x / MsPerHour);
    assert TruncDiv(d, MsPerSecond * 60) == -(x / MsPerMinute);
  }

  /** One millisecond after the target TImer shows `-1d -1h -1m -1s`. */
  lemma SplitJustPast()
    ensures Split(-1) == TimeLeft(-1, -1, -1, -1)
  {
  }

  /** Final's `CountdownTimer` state. */
  datatype FinalState = FinalState(timeLeft: TimeLeft, isExpired: bool, isUrgent: bool)

  /** One run of Final's `calculateTimeLeft` on difference `d`. The expired
      branch leaves `isUrgent` as it was. */
  function FinalTick(st: FinalState, d: int): FinalState
  {
    if d > 0 then
      var t := Split(d);
      FinalState(t, false, t.days * 24 + t.hours < 4)
    else
      FinalState(Zero, true, st.isUrgent)
  }

  /** Expired exactly when the difference is not positive; urgent exactly
      when less than four hours are left; otherwise the time shown is the
      difference in whole seconds. */
  lemma FinalTickMeaning(st: FinalState, d: int)
    ensures var r := FinalTick(st, d);
      (r.isExpired <==> d <= 0) &&
      (d > 0 ==> Normal(r.timeLeft) && Seconds(r.timeLeft) == d / MsPerSecond &&
                 (r.isUrgent <==> d < 4 * MsPerHour)) &&
      (d <= 0 ==> r.timeLeft == Zero && r.isUrgent == st.isUrgent)
  {
    if d > 0 {
      SplitExact(d);
      var t := Split(d);
      var h := d / MsPerHour;
      assert t.days == h / 24 && t.hours == h % 24;
      assert t.days * 24 + t.hours == h;
    }
  }

  /** `displayUnits`: the days box only while at least one day is left. */
  function DisplayUnits(t: TimeLeft): seq<string>
  {
    if t.days > 0 then ["days", "hours", "minutes", "seconds"] else ["hours", "minutes", "seconds"]
  }

  lemma DaysShownIff(st: FinalState, d: int)
    ensures var units := DisplayUnits(FinalTick(st, d).timeLeft);
      ("days" in units <==> d >= MsPerDay) && |units| == (if d >= MsPerDay then 4 else 3)
  {
    var units := DisplayUnits(FinalTick(st, d).timeLeft);
    if d > 0 {
      SplitExact(d);
    }
    assert "days" != "hours" && "days" != "minutes" && "days" != "seconds";
    if d < MsPerDay {
      assert units == ["hours", "minutes", "seconds"];
    }
  }

  /** RegisterTimer's `calculateTimeLeft`: the time left and `isExpired`. */
  function RegisterTick(d: int): (TimeLeft, bool)
  {
    if d > 0 then (Split(d), false) else (Zero, true)
  }

  /** RegisterTimer agrees with Final on everything but urgency. */
  lemma RegisterTickMatchesFinal(st: FinalState, d: int)
    ensures RegisterTick(d) == (FinalTick(st, d).timeLeft, FinalTick(st, d).isExpired)
    ensures RegisterTick(d).1 <==> d <= 0
    ensures d > 0 ==> Normal(RegisterTick(d).0) && Seconds(RegisterTick(d).0) == d / MsPerSecond
    ensures d <= 0 ==> RegisterTick(d).0 == Zero
  {
    FinalTickMeaning(st, d);
  }

  /** HackathonRegistration's interval callback: a positive difference
      replaces the time left, anything else keeps the last values. */
  function HackathonTick(prev: TimeLeft, d: int): TimeLeft
  {
    if d > 0 then Split(d) else prev
  }

  /** After the event the last shown values stay on screen; before it the
      values are those of the guarded timers. */
  lemma HackathonTickMeaning(prev: TimeLeft, d: int)
    ensures d <= 0 ==> HackathonTick(prev, d) == prev
    ensures d > 0 ==> (HackathonTick(prev, d) == RegisterTick(d).0 &&
      Normal(HackathonTick(prev, d)) && Seconds(HackathonTick(prev, d)) == d / MsPerSecond)
  {
    if d > 0 {
      SplitExact(d);
    }
  }

  /** Every box the guarded timers show holds a value that is not negative,
      so `padStart` sees plain digits. */
  lemma RegisterBoxesNotNegative(d: int)
    ensures Normal(RegisterTick(d).0)
  {
    if d > 0 {
      SplitExact(d);
    }
  }

  /** The field a HackathonRegistration input names. */
  datatype DetailField = TeamName | TeamLeader | TeamMembers | ProjectIdea

  /** HackathonRegistration's `teamDetails`. */
  class TeamDetails {
    var teamName: string
    var teamLeader: string
    var teamMembers: seq<string>
    var projectIdea: string

    constructor ()
      ensures teamName == "" && teamLeader == "" && projectIdea == ""
      ensures teamMembers == ["", "", ""]
    {
      teamName, teamLeader, projectIdea := "", "", "";
      teamMembers := ["", "", ""];
    }

    /** `handleInputChange(e, index = -1)`. A member input writes slot
        `index` of a copy of the list; the default `-1` sets a property of
        the array rather than an element, so the members are unchanged. Any
        other input sets the field it names. */
    method HandleInputChange(field: DetailField, value: string, index: int)
      requires field == TeamMembers ==> index < |teamMembers|
      modifies this
      ensures field == TeamMembers ==>
        teamMembers == (if index < 0 then old(teamMembers) else old(teamMembers)[index := value])
      ensures field != TeamMembers ==> teamMembers == old(teamMembers)
      ensures teamName == (if field == TeamName then value else old(teamName))
      ensures teamLeader == (if field == TeamLeader then value else old(teamLeader))
      ensures projectIdea == (if field == ProjectIdea then value else old(projectIdea))
    {
      match field
      case TeamMembers =>
        var newTeamMembers := teamMembers;
        if 0 <= index {
          newTeamMembers := newTeamMembers[index := value];
        }
        teamMembers := newTeamMembers;
      case TeamName => teamName := value;
      case TeamLeader => teamLeader := value;
      case ProjectIdea => projectIdea := value;
    }
  }
}

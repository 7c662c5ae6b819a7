/** How the components turn numbers into text and back: `${n}` and
    `toString()` for integers, and `padStart` with a fill character. */
module JsText {

  /** The decimal text of `value.toString()` for a value that is not
      negative. */
  function Decimal(n: nat): (s: string)
    ensures |s| >= 1 && (|s| == 1 <==> n < 10)
    decreases n
  {
    if n < 10 then [Digit(n)] else Decimal(n / 10) + [Digit(n % 10)]
  }

  function Digit(n: nat): char
    requires n < 10
  {
    '0' + n as char
  }

  /** The decimal text of an integer as `${n}` writes it. */
  function IntText(n: int): string
  {
    if n < 0 then ['-'] + Decimal(-n) else Decimal(n)
  }

  /** The number a decimal text denotes, read from the last digit. */
  function Parse(s: string): int
  {
    if s == [] then 0 else 10 * Parse(s[..|s| - 1]) + (s[|s| - 1] as int - '0' as int)
  }

  /** `padStart(width, fill)`: fill characters in front up to `width`. */
  function PadStart(s: string, width: nat, fill: char): string
  {
    if |s| >= width then s else seq(width - |s|, _ => fill) + s
  }

  /** `String(n).padStart(2, '0')`, the text of each countdown box. */
  function TwoDigits(n: nat): string
  {
    PadStart(Decimal(n), 2, '0')
  }

  lemma {:induction false} ParseDecimal(n: nat)
    ensures Parse(Decimal(n)) == n
    decreases n
  {
    if n >= 10 {
      ParseDecimal(n / 10);
      var s := Decimal(n);
      assert s[..|s| - 1] == Decimal(n / 10);
    }
  }

  lemma ParseLeadingZero(s: string)
    ensures Parse(['0'] + s) == Parse(s)
    decreases |s|
  {
    if s != [] {
      ParseLeadingZero(s[..|s| - 1]);
      assert (['0'] + s)[..|s|] == ['0'] + s[..|s| - 1];
    }
  }

  /** At least two characters, a `0` put in front exactly when the value is
      below ten, and the text still reads as the value. */
  lemma TwoDigitsMeaning(n: nat)
    ensures |TwoDigits(n)| >= 2
    ensures n < 10 ==> TwoDigits(n) == ['0'] + Decimal(n)
    ensures n >= 10 ==> TwoDigits(n) == Decimal(n)
    ensures Parse(TwoDigits(n)) == n
  {
    ParseDecimal(n);
    if n < 10 {
      assert seq(1, _ => '0') == ['0'];
      ParseLeadingZero(Decimal(n));
    }
  }
}

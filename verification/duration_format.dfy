/** The `mm:ss` text the contraction screen shows for an interval length
    in milliseconds, and a reader of that text used to state what the
    formatter keeps. */
module DurationFormat {
  import opened Optional
  import opened JsText
  import opened Millis

  /** The quotient rounded toward zero. */
  function TruncDiv(a: int, b: int): int
    requires b > 0
  {
    if a >= 0 then a / b else -((-a) / b)
  }

  /** JavaScript's `%`: what is left of the dividend after taking away the
      quotient rounded toward zero, so it takes the sign of the dividend. */
  function JsRemainder(a: int, b: int): (r: int)
    requires b > 0
    ensures a == b * TruncDiv(a, b) + r
    ensures a >= 0 ==> 0 <= r < b
    ensures a < 0 ==> -b < r <= 0
  {
    if a >= 0 then a % b
    else
      var n := -a;
      assert n == b * (n / b) + n % b;
      -(n % b)
  }

  /** `Math.floor(x / b)` for a positive divisor. Dafny's `/` on `int`
      already rounds toward minus infinity when `b > 0`. */
  function FloorDiv(a: int, b: int): int
    requires b > 0
  {
    a / b
  }

  function TwoDigits(n: int): string
  {
    PadStart(IntToString(n), 2, '0')
  }

  /** `formatDuration`: whole minutes, then the whole seconds left over,
      each left-padded with '0' to two characters. */
  function FormatDuration(duration: int): string
  {
    var minutes := FloorDiv(duration, Minute);
    var seconds := FloorDiv(JsRemainder(duration, Minute), Second);
    TwoDigits(minutes) + ":" + TwoDigits(seconds)
  }

  datatype Clock = Clock(minutes: nat, seconds: nat)

  /** Reads `m:s` where both sides are non-empty runs of decimal digits. */
  function ParseClock(s: string): Option<Clock>
  {
    match IndexOf(s, ':')
    case None => None
    case Some(i) =>
      var m := s[..i];
      var sec := s[i + 1..];
      if m == [] || sec == [] || !AllDigits(m) || !AllDigits(sec) then None
      else Some(Clock(DigitsValue(m), DigitsValue(sec)))
  }

  lemma DivBySecondUnique(a: int, q: int, r: int)
    requires 0 <= r < 1000 && a == 1000 * q + r
    ensures a / 1000 == q
  {
  }

  /** Minutes and seconds together are the whole seconds of the duration. */
  lemma MinutesSecondsSplit(d: nat)
    ensures (d % Minute) / Second < 60
    ensures (d / Minute) * 60 + (d % Minute) / Second == d / Second
  {
    var q := d / Minute;
    var r := d % Minute;
    var s := r / Second;
    var t := r % Second;
    assert r == 1000 * s + t;
    assert d == 60000 * q + r;
    assert d == 1000 * (60 * q + s) + t;
    DivBySecondUnique(d, 60 * q + s, t);
  }

  lemma TwoDigitsOfNat(n: nat)
    ensures AllDigits(TwoDigits(n)) && |TwoDigits(n)| >= 2
    ensures DigitsValue(TwoDigits(n)) == n
    ensures n < 100 ==> |TwoDigits(n)| == 2
  {
    PadStartZerosValue(NatToString(n), 2);
    DigitsValueOfNatToString(n);
    if n < 100 {
      assert n / 10 < 10;
    }
  }

  /** Two numerals joined by ':' read back as their two values. */
  lemma ParseClockOfJoined(left: string, right: string)
    requires |left| >= 1 && AllDigits(left)
    requires |right| >= 1 && AllDigits(right)
    ensures ParseClock(left + ":" + right) == Some(Clock(DigitsValue(left), DigitsValue(right)))
  {
    var text := left + ":" + right;
    assert forall i :: 0 <= i < |left| ==> left[i] != ':' by {
      forall i | 0 <= i < |left| ensures left[i] != ':' {
        assert IsDigit(left[i]);
      }
    }
    IndexOfAfterPrefix(left, right, ':');
    assert text[..|left|] == left;
    assert text[|left| + 1..] == right;
  }

  lemma FormatDurationOfNat(d: nat)
    ensures FormatDuration(d) == TwoDigits(d / Minute) + ":" + TwoDigits((d % Minute) / Second)
  {
    assert JsRemainder(d, Minute) == d % Minute;
  }

  /** For a non-negative duration the text reads back as
      `d div 60000` minutes and `(d mod 60000) div 1000` seconds: the
      minutes field is never cut short, the seconds field is exactly two
      digits, and together they are the duration's whole seconds. */
  lemma {:induction false} FormatDurationRoundTrip(d: nat)
    ensures ParseClock(FormatDuration(d)) == Some(Clock(d / 60_000, (d % 60_000) / 1000))
    ensures (d % 60_000) / 1000 < 60
    ensures (d / 60_000) * 60 + (d % 60_000) / 1000 == d / 1000
    ensures |FormatDuration(d)| >= 5 && FormatDuration(d)[|FormatDuration(d)| - 3] == ':'
  {
    var m: nat := d / Minute;
    var sec: nat := (d % Minute) / Second;
    MinutesSecondsSplit(d);
    FormatDurationOfNat(d);
    var left := TwoDigits(m);
    var right := TwoDigits(sec);
    TwoDigitsOfNat(m);
    TwoDigitsOfNat(sec);
    ParseClockOfJoined(left, right);
  }

  /** Negative lengths (a clock set back between taps) follow JavaScript's
      signed remainder: minus 1.5 seconds prints as minus one minute and
      minus two seconds. */
  lemma NegativeDurationText()
    ensures FormatDuration(-1500) == "-1:-2"
  {
    assert FloorDiv(-1500, Minute) == -1;
    assert JsRemainder(-1500, Minute) == -1500;
    assert FloorDiv(-1500, Second) == -2;
    assert IntToString(-1) == "-1";
    assert IntToString(-2) == "-2";
  }
}

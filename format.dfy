/**
 * Swift integer arithmetic and the string renderings the views use:
 * `Int / Int` and `Int % Int` (truncating toward zero), `"\(n)"`,
 * `String(format: "%02d", n)` and the `MM:SS` clock of `formattedTime`.
 */
module Format {
  import opened Wrappers

  /** Swift's `a / b` for `b > 0`: the quotient truncated toward zero. */
  function Quot(a: int, b: int): (q: int)
    requires b > 0
    ensures a >= 0 ==> 0 <= a - b * q < b
    ensures a < 0 ==> -b < a - b * q <= 0
  {
    if a >= 0 then a / b
    else
      var p := (-a) / b;
      assert 0 <= -a - b * p < b;
      -p
  }

  /** The quotient of a non-negative number is non-negative. */
  lemma QuotNonNegative(a: int, b: int)
    requires a >= 0 && b > 0
    ensures Quot(a, b) >= 0
  {
    var q := Quot(a, b);
    assert (q + 1) * b == q * b + b;
    assert (q + 1) * b > 0;
    MulSign(q + 1, b);
  }

  lemma MulSign(x: int, k: int)
    requires k > 0
    ensures x <= 0 ==> x * k <= 0
  {
  }

  /** Swift's `a % b` for `b > 0`: the remainder takes the sign of `a`. */
  function Rem(a: int, b: int): (r: int)
    requires b > 0
    ensures a == b * Quot(a, b) + r
    ensures a >= 0 ==> 0 <= r < b
    ensures a < 0 ==> -b < r <= 0
  {
    a - b * Quot(a, b)
  }

  /** The `(hours, minutes)` that `Int(t) / 3600` and `(Int(t) % 3600) / 60` compute. */
  function HoursMinutes(total: int): (int, int)
  {
    (Quot(total, 3600), Quot(Rem(total, 3600), 60))
  }

  /** For a non-negative total, the minutes are below 60 and the pair is the whole minutes of `total`. */
  lemma HoursMinutesBounds(total: int)
    requires total >= 0
    ensures var (h, m) := HoursMinutes(total);
      h >= 0 && 0 <= m < 60 &&
      3600 * h + 60 * m <= total < 3600 * h + 60 * m + 60
  {
    var h := Quot(total, 3600);
    var rest := Rem(total, 3600);
    var m := Quot(rest, 60);
    assert 0 <= rest < 3600;
    assert 0 <= rest - 60 * m < 60;
    assert m < 60;
  }

  /** Below one hour the hours are 0 and the minutes are the whole minutes of `total`. */
  lemma HoursMinutesBelowHour(total: int)
    requires 0 <= total < 3600
    ensures HoursMinutes(total) == (0, total / 60)
  {
    assert Quot(total, 3600) == 0;
    assert Rem(total, 3600) == total;
    var m := Quot(total, 60);
    assert 0 <= total - 60 * m < 60;
    assert m == total / 60;
  }

  /** From one hour on the hours are at least 1. */
  lemma HoursMinutesFromHour(total: int)
    requires total >= 3600
    ensures var (h, m) := HoursMinutes(total); h >= 1 && 0 <= m < 60
  {
    HoursMinutesBounds(total);
  }

  /** Below zero the hours are at most 0 and the minutes lie in (-60, 0]. */
  lemma HoursMinutesNegative(total: int)
    requires total < 0
    ensures var (h, m) := HoursMinutes(total); h <= 0 && -60 < m <= 0
  {
    var rest := Rem(total, 3600);
    assert -3600 < rest <= 0;
    var m := Quot(rest, 60);
    assert -60 < rest - 60 * m <= 0;
  }

  /** What `HoursMinutes` gives below zero, below one hour and from one hour on. */
  lemma HoursMinutesCases(total: int)
    ensures var (h, m) := HoursMinutes(total);
      && (0 <= total < 3600 ==> h == 0 && m == total / 60)
      && (total >= 3600 ==> h >= 1 && 0 <= m < 60 && 3600 * h + 60 * m <= total < 3600 * h + 60 * m + 60)
      && (total < 0 ==> h <= 0 && -60 < m <= 0)
  {
    if 0 <= total < 3600 {
      HoursMinutesBelowHour(total);
    } else if total >= 3600 {
      HoursMinutesBounds(total);
      HoursMinutesFromHour(total);
    } else {
      HoursMinutesNegative(total);
    }
  }

  /** `max(0, Int(x.rounded()))`: round half away from zero, then clamp at zero. */
  function RoundedSeconds(x: real): (s: nat)
    ensures x < 0.0 ==> s == 0
    ensures x >= 0.0 ==> s as real - 0.5 <= x < s as real + 0.5
  {
    if x < 0.0 then 0 else (x + 0.5).Floor
  }

  /** Whole seconds are left alone by the rounding. */
  lemma RoundedWholeSeconds(n: nat)
    ensures RoundedSeconds(n as real) == n
  {
  }

  predicate IsDigit(c: char) { '0' <= c <= '9' }

  predicate IsDigits(s: string) { forall i :: 0 <= i < |s| ==> IsDigit(s[i]) }

  function DigitChar(d: int): (c: char)
    requires 0 <= d < 10
    ensures IsDigit(c)
  {
    ('0' as int + d) as char
  }

  function DigitValue(c: char): (d: nat)
    requires IsDigit(c)
    ensures d < 10
  {
    c as int - '0' as int
  }

  /** The number a string of decimal digits denotes (most significant digit first). */
  function ValueOf(s: string): nat
    requires IsDigits(s)
    decreases |s|
  {
    if s == [] then 0 else 10 * ValueOf(s[..|s| - 1]) + DigitValue(s[|s| - 1])
  }

  /** The shortest decimal rendering of `n`, as `"\(n)"` prints it. */
  function Decimal(n: nat): (s: string)
    ensures IsDigits(s) && |s| >= 1
    ensures n < 10 <==> |s| == 1
    ensures ValueOf(s) == n
    decreases n
  {
    if n < 10 then [DigitChar(n)]
    else
      var prefix := Decimal(n / 10);
      var s := prefix + [DigitChar(n % 10)];
      assert s[..|s| - 1] == prefix;
      s
  }

  /** A leading zero does not change the value of a digit string. */
  lemma {:induction false} LeadingZero(s: string)
    requires IsDigits(s)
    ensures IsDigits("0" + s) && ValueOf("0" + s) == ValueOf(s)
    decreases |s|
  {
    var z := "0" + s;
    if s != [] {
      assert z[..|z| - 1] == "0" + s[..|s| - 1];
      LeadingZero(s[..|s| - 1]);
    }
  }

  /** Swift's `"\(n)"` for any `Int`: a minus sign before the digits of a negative value. */
  function IntString(n: int): (s: string)
    ensures n >= 0 ==> IsDigits(s) && ValueOf(s) == n
    ensures n < 0 ==> |s| >= 2 && s[0] == '-' && IsDigits(s[1..]) && ValueOf(s[1..]) == -n
  {
    if n >= 0 then Decimal(n)
    else
      var s := "-" + Decimal(-n);
      assert s[1..] == Decimal(-n);
      s
  }

  /** `String(format: "%02d", n)`: at least two characters, zero-padded on the left. */
  function Pad2(n: int): (s: string)
    ensures n >= 0 ==> IsDigits(s) && ValueOf(s) == n && |s| >= 2
    ensures 0 <= n < 100 ==> |s| == 2
    ensures n < 0 ==> s == IntString(n)
  {
    if 0 <= n < 10 then LeadingZero(Decimal(n)); "0" + Decimal(n)
    else IntString(n)
  }

  /** `formattedTime`: `"%02d:%02d"` of `Int(t) / 60` and `Int(t) % 60`. */
  function Clock(t: int): string
  {
    Pad2(Quot(t, 60)) + ":" + Pad2(Rem(t, 60))
  }

  /** One part of a negative clock: `"%02d"` of `-n`, so `"00"` for zero and `"-n"` otherwise. */
  function NegatedPart(n: nat): (s: string)
    ensures n == 0 <==> s == "00"
    ensures n > 0 ==> |s| >= 2 && s[0] == '-' && IsDigits(s[1..]) && ValueOf(s[1..]) == n
  {
    if n == 0 then "00"
    else
      var s := "-" + Decimal(n);
      assert s[1..] == Decimal(n);
      s
  }

  /**
   * A negative time (a duration set below zero) shows the whole minutes and the leftover
   * seconds of its magnitude, each with its own minus sign: -300 shows "-5:00" and -5 shows
   * "00:-5".
   */
  lemma ClockNegative(t: int)
    requires t < 0
    ensures Clock(t) == NegatedPart((-t) / 60) + ":" + NegatedPart((-t) % 60)
  {
    var mins, secs := (-t) / 60, (-t) % 60;
    NegativeParts(t);
    PadNegated(mins);
    PadNegated(secs);
  }

  /** Truncating division of a negative time: the negated parts of its magnitude. */
  lemma NegativeParts(t: int)
    requires t < 0
    ensures Quot(t, 60) == -((-t) / 60) && Rem(t, 60) == -((-t) % 60)
  {
    var u := -t;
    assert u == 60 * (u / 60) + u % 60;
  }

  lemma PadNegated(n: nat)
    ensures Pad2(-(n as int)) == NegatedPart(n)
  {
    if n == 0 {
      assert Pad2(0) == "0" + Decimal(0);
    } else {
      assert Pad2(-(n as int)) == IntString(-(n as int)) == "-" + Decimal(n);
    }
  }

  /** The two examples of `ClockNegative`. */
  lemma ClockNegativeExamples()
    ensures Clock(-300) == "-5:00"
    ensures Clock(-5) == "00:-5"
  {
    var five, zero := NegatedPart(5), NegatedPart(0);
    assert five == "-5" by {
      assert Decimal(5) == "5";
    }
    assert zero == "00";
    ClockNegative(-300);
    assert Clock(-300) == five + ":" + zero;
    ClockNegative(-5);
    assert Clock(-5) == zero + ":" + five;
  }

  /** Reads an `M…M:SS` clock back into seconds; the inverse of `Clock` on non-negative times. */
  function ParseClock(s: string): Option<int>
  {
    if |s| >= 3 && s[|s| - 3] == ':' && IsDigits(s[..|s| - 3]) && IsDigits(s[|s| - 2..])
    then Some(60 * ValueOf(s[..|s| - 3]) + ValueOf(s[|s| - 2..]))
    else None
  }

  /**
   * A non-negative remaining time is rendered as at least two minute digits, a colon and
   * exactly two second digits below 60, and reading the text back gives the time.
   */
  lemma ClockRoundTrip(t: int)
    requires t >= 0
    ensures |Clock(t)| >= 5
    ensures ParseClock(Clock(t)) == Some(t)
    ensures ValueOf(Clock(t)[|Clock(t)| - 2..]) < 60
  {
    var mm := Pad2(Quot(t, 60));
    var ss := Pad2(Rem(t, 60));
    var s := Clock(t);
    assert |ss| == 2;
    assert s[..|s| - 3] == mm;
    assert s[|s| - 2..] == ss;
  }
}

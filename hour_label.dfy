/**
 * The header labels of the hour columns: `formatHourLabel` turns a 24-hour
 * integer into a 12-hour "H:00 AM" / "H:00 PM" string. Its partner is
 * `ParseHourLabel`, which reads such a label back to the 24-hour value.
 */
module HourLabel {
  import opened Wrappers

  predicate IsDigit(c: char)
  {
    '0' <= c <= '9'
  }

  function DigitChar(d: int): (c: char)
    requires 0 <= d < 10
    ensures IsDigit(c) && c as int - '0' as int == d
  {
    ('0' as int + d) as char
  }

  /**
   * Decimal text of a natural number, as JavaScript prints an integer: no
   * padding, so the text starts with '0' only for zero itself.
   */
  function DecimalString(n: nat): (s: string)
    ensures 1 <= |s|
    ensures forall i :: 0 <= i < |s| ==> IsDigit(s[i])
    ensures s[0] == '0' <==> n == 0
    ensures n == 0 ==> s == "0"
  {
    if n < 10 then [DigitChar(n)] else DecimalString(n / 10) + [DigitChar(n % 10)]
  }

  /** Decimal text of any integer, with a leading minus sign when negative. */
  function IntString(i: int): (s: string)
    ensures i >= 0 ==> ParseDecimal(s) == Some(i)
    ensures i > 0 ==> s[0] != '0'
    ensures i == 0 ==> s == "0"
    ensures i < 0 ==> 2 <= |s| && s[0] == '-' && s[1] != '0' && ParseDecimal(s[1..]) == Some(-i)
  {
    ParseDecimalRoundTrip(if i < 0 then -i else i);
    if i < 0 then "-" + DecimalString(-i) else DecimalString(i)
  }

  /** Reads a non-empty string of decimal digits. */
  function ParseDecimal(s: string): (r: Option<nat>)
    ensures r.Some? ==> 1 <= |s| && forall i :: 0 <= i < |s| ==> IsDigit(s[i])
  {
    if |s| == 0 || !IsDigit(s[|s| - 1]) then None
    else
      var d := s[|s| - 1] as int - '0' as int;
      if |s| == 1 then Some(d)
      else match ParseDecimal(s[..|s| - 1])
        case None => None
        case Some(hi) => Some(hi * 10 + d)
  }

  lemma {:induction false} ParseDecimalRoundTrip(n: nat)
    ensures ParseDecimal(DecimalString(n)) == Some(n)
  {
    if n >= 10 {
      var s := DecimalString(n);
      ParseDecimalRoundTrip(n / 10);
      assert s[..|s| - 1] == DecimalString(n / 10);
    }
  }

  /**
   * The other direction: a digit string without a leading zero that reads as
   * `n` is exactly the printed form of `n`, so printing is the only text of
   * its kind for each number.
   */
  lemma {:induction false} DecimalStringCanonical(s: string, n: nat)
    requires ParseDecimal(s) == Some(n)
    requires |s| == 1 || s[0] != '0'
    ensures DecimalString(n) == s
  {
    if |s| > 1 {
      var init := s[..|s| - 1];
      var d := s[|s| - 1] as int - '0' as int;
      var hi :| ParseDecimal(init) == Some(hi) && n == hi * 10 + d;
      assert init[0] == s[0];
      DecimalStringCanonical(init, hi);
      assert hi != 0;
      assert n / 10 == hi && n % 10 == d;
      assert DecimalString(n) == DecimalString(hi) + [DigitChar(d)];
      assert s == init + [s[|s| - 1]];
    }
  }

  /**
   * JavaScript's `%`, which truncates toward zero: the result differs from
   * `a` by a multiple of `b`, is smaller than `b` in magnitude, and takes the
   * sign of `a`.
   */
  function JsRem(a: int, b: int): (r: int)
    requires b > 0
    ensures -b < r < b
    ensures (a - r) % b == 0
    ensures a >= 0 ==> 0 <= r
    ensures a <= 0 ==> r <= 0
  {
    if a >= 0 then
      assert a - a % b == (a / b) * b;
      MultipleRem(a / b, b);
      a % b
    else
      var n := -a;
      assert a + n % b == (-(n / b)) * b;
      MultipleRem(-(n / b), b);
      -(n % b)
  }

  /** Euclidean `%` leaves nothing of a multiple of the divisor. */
  lemma MultipleRem(k: int, b: int)
    requires b > 0
    ensures (k * b) % b == 0
  {
    var x := k * b;
    var q, m := x / b, x % b;
    assert x == q * b + m && 0 <= m < b;
    var d := q - k;
    assert d * b == -m by {
      assert d * b == q * b - k * b;
    }
    assert d == 0;
  }

  /**
   * `formatHourLabel(hour)`, over every integer the function accepts. The
   * label is a number, then ":00 ", then AM exactly before noon and PM from
   * noon on. For a non-negative hour the number is in 1..12 and agrees with
   * the hour modulo 12, so both 0 and 12 show as 12; a negative hour that is
   * not a multiple of 12 keeps JavaScript's negative remainder and its sign.
   */
  function FormatHourLabel(hour: int): (s: string)
    ensures |s| >= 6 && s[|s| - 6..|s| - 2] == ":00 "
    ensures s[|s| - 2..] == "AM" <==> hour < 12
    ensures s[|s| - 2..] == "PM" <==> hour >= 12
    ensures s[0] != '0'
    ensures hour >= 0 ==>
      ParseDecimal(s[..|s| - 6]) == Some(if hour % 12 == 0 then 12 else hour % 12)
    ensures hour < 0 && hour % 12 != 0 ==>
      s[0] == '-' && ParseDecimal(s[1..|s| - 6]) == Some(12 - hour % 12)
  {
    var ampm := if hour < 12 then "AM" else "PM";
    var hour12 := if JsRem(hour, 12) == 0 then 12 else JsRem(hour, 12);
    var digits := IntString(hour12);
    var text := digits + ":00 " + ampm;
    assert text[..|text| - 6] == digits;
    assert text[|text| - 6..|text| - 2] == ":00 ";
    assert text[|text| - 2..] == ampm;
    assert hour >= 0 ==> hour12 == (if hour % 12 == 0 then 12 else hour % 12);
    assert hour < 0 && hour % 12 != 0 ==> hour12 == hour % 12 - 12 && text[1..|text| - 6] == digits[1..];
    text
  }

  /** Reads a label "H:00 AM" / "H:00 PM" with H in 1..12 back to a 24-hour value. */
  function ParseHourLabel(s: string): (r: Option<int>)
    ensures r.Some? ==> 0 <= r.value < 24
  {
    if |s| < 6 || s[|s| - 6..|s| - 2] != ":00 " then None
    else
      var suffix := s[|s| - 2..];
      if suffix != "AM" && suffix != "PM" then None
      else match ParseDecimal(s[..|s| - 6])
        case None => None
        case Some(n) =>
          if 1 <= n <= 12 then Some(n % 12 + (if suffix == "PM" then 12 else 0)) else None
  }

  /** Every 24-hour value is recovered from its label. */
  lemma HourLabelRoundTrip(hour: int)
    requires 0 <= hour < 24
    ensures ParseHourLabel(FormatHourLabel(hour)) == Some(hour)
  {
  }

  /** Distinct hours of the day get distinct labels. */
  lemma HourLabelInjective(h1: int, h2: int)
    requires 0 <= h1 < 24 && 0 <= h2 < 24 && h1 != h2
    ensures FormatHourLabel(h1) != FormatHourLabel(h2)
  {
    HourLabelRoundTrip(h1);
    HourLabelRoundTrip(h2);
  }

  /** Midnight, noon and five in the afternoon, the three boundary cases of the 12-hour form. */
  lemma HourLabelExamples()
    ensures FormatHourLabel(0) == "12:00 AM"
    ensures FormatHourLabel(12) == "12:00 PM"
    ensures FormatHourLabel(17) == "5:00 PM"
  {
    assert DecimalString(12) == DecimalString(1) + ['2'];
  }

  /** Outside 0..23 the code still answers: 25 shows as 1 PM, -1 as "-1:00 AM". */
  lemma HourLabelOutOfRange()
    ensures FormatHourLabel(25) == "1:00 PM"
    ensures FormatHourLabel(-1) == "-1:00 AM"
  {
  }
}

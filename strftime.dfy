/**
  The `strftime('%Y%m%d%H%M')` rendering of a wall-clock reading: year,
  month, day, hour and minute, each as zero-padded decimal digits (four for
  the year, two for the others), with no separators.
*/
module Strftime {
  import opened Wrappers

  /** A calendar reading to the minute. */
  datatype DateTime = DateTime(year: nat, month: nat, day: nat, hour: nat, minute: nat)

  /** Field ranges of a reading taken from the wall clock (years before 10000). */
  predicate ValidDateTime(t: DateTime) {
    && t.year <= 9999
    && 1 <= t.month <= 12
    && 1 <= t.day <= 31
    && t.hour < 24
    && t.minute < 60
  }

  type Minute = t: DateTime | ValidDateTime(t) witness DateTime(1970, 1, 1, 0, 0)

  function Pow10(n: nat): (p: nat)
    ensures p >= 1
  {
    if n == 0 then 1 else 10 * Pow10(n - 1)
  }

  predicate IsDigit(c: char) {
    '0' <= c <= '9'
  }

  predicate AllDigits(s: string) {
    forall i :: 0 <= i < |s| ==> IsDigit(s[i])
  }

  /** The last `width` decimal digits of n, most significant first. */
  function FixedDigits(n: nat, width: nat): (s: string)
    ensures |s| == width
    ensures AllDigits(s)
  {
    if width == 0 then []
    else FixedDigits(n / 10, width - 1) + [('0' as int + n % 10) as char]
  }

  /** The number a string of decimal digits spells. */
  function DigitsValue(s: string): nat
    requires AllDigits(s)
  {
    if s == [] then 0
    else 10 * DigitsValue(s[..|s| - 1]) + (s[|s| - 1] as int - '0' as int)
  }

  /** Reading back the padded digits of a number that fits gives the number. */
  lemma {:induction false} FixedDigitsRoundTrip(n: nat, width: nat)
    requires n < Pow10(width)
    ensures DigitsValue(FixedDigits(n, width)) == n
  {
    if width > 0 {
      var s := FixedDigits(n, width);
      assert s[..|s| - 1] == FixedDigits(n / 10, width - 1);
      FixedDigitsRoundTrip(n / 10, width - 1);
    }
  }

  /** `t.strftime('%Y%m%d%H%M')`. */
  function FormatYmdHM(t: Minute): (s: string)
    ensures |s| == 12 && AllDigits(s)
  {
    FixedDigits(t.year, 4) + FixedDigits(t.month, 2) + FixedDigits(t.day, 2)
      + FixedDigits(t.hour, 2) + FixedDigits(t.minute, 2)
  }

  /** Reads a `%Y%m%d%H%M` stamp back into its fields; None when it is not twelve digits. */
  function ParseYmdHM(s: string): (r: Option<DateTime>)
    ensures r.Some? <==> |s| == 12 && AllDigits(s)
  {
    if |s| == 12 && AllDigits(s) then
      Some(DateTime(DigitsValue(s[0..4]), DigitsValue(s[4..6]), DigitsValue(s[6..8]),
                    DigitsValue(s[8..10]), DigitsValue(s[10..12])))
    else None
  }

  /** The stamp determines the reading it was made from. */
  lemma FormatParseRoundTrip(t: Minute)
    ensures ParseYmdHM(FormatYmdHM(t)) == Some(t)
  {
    var y, mo, d, h, mi :=
      FixedDigits(t.year, 4), FixedDigits(t.month, 2), FixedDigits(t.day, 2),
      FixedDigits(t.hour, 2), FixedDigits(t.minute, 2);
    var s := FormatYmdHM(t);
    assert s == y + mo + d + h + mi;
    assert s[0..4] == y && s[4..6] == mo && s[6..8] == d && s[8..10] == h && s[10..12] == mi;
    assert Pow10(2) == 100 && Pow10(4) == 10000;
    FixedDigitsRoundTrip(t.year, 4);
    FixedDigitsRoundTrip(t.month, 2);
    FixedDigitsRoundTrip(t.day, 2);
    FixedDigitsRoundTrip(t.hour, 2);
    FixedDigitsRoundTrip(t.minute, 2);
  }

  /** Two readings that differ give different stamps. */
  lemma FormatInjective(t: Minute, u: Minute)
    requires FormatYmdHM(t) == FormatYmdHM(u)
    ensures t == u
  {
    FormatParseRoundTrip(t);
    FormatParseRoundTrip(u);
  }
}

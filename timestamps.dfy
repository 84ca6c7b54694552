/**
 * Fixed-width date and time fields as QDate::fromString and QTime::fromString
 * read them from radar file names ("yyyyMMdd", "hhmmss", "hhmm"), and the
 * UTC date-time they make, counted in seconds.
 */
module Timestamps {
  import opened Wrappers

  predicate IsDigit(c: char)
  {
    '0' <= c <= '9'
  }

  predicate AllDigits(s: string)
  {
    forall i :: 0 <= i < |s| ==> IsDigit(s[i])
  }

  function Pow10(n: nat): (p: nat)
    ensures p >= 1
  {
    if n == 0 then 1 else 10 * Pow10(n - 1)
  }

  /** The value of a decimal digit string, most significant digit first. */
  function DigitsValue(s: string): (v: nat)
    requires AllDigits(s)
    ensures v < Pow10(|s|)
  {
    if s == [] then 0 else DigitsValue(s[..|s| - 1]) * 10 + (s[|s| - 1] as int - '0' as int)
  }

  /** `n` written with exactly `width` digits, zero-padded on the left. */
  function Digits(n: nat, width: nat): (s: string)
    ensures |s| == width && AllDigits(s)
  {
    if width == 0 then [] else Digits(n / 10, width - 1) + [('0' as int + n % 10) as char]
  }

  lemma {:induction false} DigitsRoundTrip(n: nat, width: nat)
    requires n < Pow10(width)
    ensures DigitsValue(Digits(n, width)) == n
  {
    if width > 0 {
      var s := Digits(n, width);
      assert s[..|s| - 1] == Digits(n / 10, width - 1);
      DigitsRoundTrip(n / 10, width - 1);
    }
  }

  /** A numeric field of exactly `width` digits; anything else does not parse. */
  function Field(s: string, width: nat): (r: Option<nat>)
    ensures r.Some? <==> |s| == width && AllDigits(s)
    ensures r.Some? ==> r.value < Pow10(width)
  {
    if |s| == width && AllDigits(s) then Some(DigitsValue(s)) else None
  }

  datatype Date = Date(year: nat, month: nat, day: nat)

  predicate IsLeapYear(y: nat)
  {
    (y % 4 == 0 && y % 100 != 0) || y % 400 == 0
  }

  function DaysInMonth(y: nat, m: nat): nat
    requires 1 <= m <= 12
  {
    if m == 2 then (if IsLeapYear(y) then 29 else 28)
    else if m == 4 || m == 6 || m == 9 || m == 11 then 30
    else 31
  }

  /** A calendar date QDate accepts: there is no year 0. */
  predicate ValidDate(d: Date)
  {
    d.year >= 1 && 1 <= d.month <= 12 && 1 <= d.day <= DaysInMonth(d.year, d.month)
  }

  /** "yyyyMMdd". */
  function ParseDate(s: string): (r: Option<Date>)
    ensures r.Some? ==> |s| == 8 && ValidDate(r.value)
  {
    if |s| != 8 then None
    else
      var y, m, d := Field(s[..4], 4), Field(s[4..6], 2), Field(s[6..], 2);
      if y.Some? && m.Some? && d.Some? && ValidDate(Date(y.value, m.value, d.value))
      then Some(Date(y.value, m.value, d.value))
      else None
  }

  function FormatDate(d: Date): string
  {
    Digits(d.year, 4) + Digits(d.month, 2) + Digits(d.day, 2)
  }

  lemma AllDigitsAppend(a: string, b: string)
    requires AllDigits(a) && AllDigits(b)
    ensures AllDigits(a + b)
  {
    forall i | 0 <= i < |a + b| ensures IsDigit((a + b)[i]) {
      if i < |a| { assert (a + b)[i] == a[i]; } else { assert (a + b)[i] == b[i - |a|]; }
    }
  }

  /** A formatted date is eight digits. */
  lemma FormatDateDigits(d: Date)
    ensures |FormatDate(d)| == 8 && AllDigits(FormatDate(d))
  {
    AllDigitsAppend(Digits(d.year, 4), Digits(d.month, 2));
    AllDigitsAppend(Digits(d.year, 4) + Digits(d.month, 2), Digits(d.day, 2));
  }

  /** Every valid four-digit-year date is read back from its own "yyyyMMdd" text. */
  lemma ParseFormatDate(d: Date)
    requires ValidDate(d) && d.year < 10000
    ensures ParseDate(FormatDate(d)) == Some(d)
  {
    var s := FormatDate(d);
    assert s[..4] == Digits(d.year, 4);
    assert s[4..6] == Digits(d.month, 2);
    assert s[6..] == Digits(d.day, 2);
    DigitsRoundTrip(d.year, 4);
    DigitsRoundTrip(d.month, 2);
    DigitsRoundTrip(d.day, 2);
  }

  /** "hhmmss", as seconds past midnight. */
  function ParseHms(s: string): (r: Option<nat>)
    ensures r.Some? ==> |s| == 6 && r.value < 86400
  {
    if |s| != 6 then None
    else
      var h, m, sec := Field(s[..2], 2), Field(s[2..4], 2), Field(s[4..], 2);
      if h.Some? && m.Some? && sec.Some? && h.value < 24 && m.value < 60 && sec.value < 60
      then Some(h.value * 3600 + m.value * 60 + sec.value)
      else None
  }

  /** "hhmm", as seconds past midnight (the seconds are zero). */
  function ParseHm(s: string): (r: Option<nat>)
    ensures r.Some? ==> |s| == 4 && r.value < 86400 && r.value % 60 == 0
  {
    if |s| != 4 then None
    else
      var h, m := Field(s[..2], 2), Field(s[2..], 2);
      if h.Some? && m.Some? && h.value < 24 && m.value < 60
      then Some(h.value * 3600 + m.value * 60)
      else None
  }

  lemma FieldOfDigits(n: nat, width: nat)
    requires n < Pow10(width)
    ensures Field(Digits(n, width), width) == Some(n)
  {
    DigitsRoundTrip(n, width);
  }

  lemma FieldOfTwoDigits(n: nat)
    requires n < 100
    ensures Field(Digits(n, 2), 2) == Some(n)
  {
    assert Pow10(2) == 100;
    FieldOfDigits(n, 2);
  }

  /** The three two-character pieces of a six-character text. */
  lemma SlicesOfPairs(a: string, b: string, c: string)
    requires |a| == 2 && |b| == 2 && |c| == 2
    ensures var s := a + b + c; s[..2] == a && s[2..4] == b && s[4..] == c
  {
  }

  /** A valid "hhmmss" text is read back as the seconds it names. */
  lemma ParseHmsDigits(h: nat, m: nat, sec: nat)
    requires h < 24 && m < 60 && sec < 60
    ensures ParseHms(Digits(h, 2) + Digits(m, 2) + Digits(sec, 2)) == Some(h * 3600 + m * 60 + sec)
  {
    FieldOfTwoDigits(h);
    FieldOfTwoDigits(m);
    FieldOfTwoDigits(sec);
    ParseHmsFields(Digits(h, 2), Digits(m, 2), Digits(sec, 2), h, m, sec);
  }

  /** Three two-digit fields in range make a valid "hhmmss" text. */
  lemma ParseHmsFields(a: string, b: string, c: string, h: nat, m: nat, sec: nat)
    requires Field(a, 2) == Some(h) && Field(b, 2) == Some(m) && Field(c, 2) == Some(sec)
    requires h < 24 && m < 60 && sec < 60
    ensures ParseHms(a + b + c) == Some(h * 3600 + m * 60 + sec)
  {
    SlicesOfPairs(a, b, c);
  }

  /** A valid "hhmm" text is read back as the seconds it names. */
  lemma ParseHmDigits(h: nat, m: nat)
    requires h < 24 && m < 60
    ensures ParseHm(Digits(h, 2) + Digits(m, 2)) == Some(h * 3600 + m * 60)
  {
    FieldOfTwoDigits(h);
    FieldOfTwoDigits(m);
    ParseHmFields(Digits(h, 2), Digits(m, 2), h, m);
  }

  /** Two two-digit fields in range make a valid "hhmm" text. */
  lemma ParseHmFields(a: string, b: string, h: nat, m: nat)
    requires Field(a, 2) == Some(h) && Field(b, 2) == Some(m)
    requires h < 24 && m < 60
    ensures ParseHm(a + b) == Some(h * 3600 + m * 60)
  {
    var s := a + b;
    assert s[..2] == a && s[2..] == b;
  }

  function YearLength(y: nat): nat
  {
    DaysBeforeMonth(y, 13)
  }

  /** Days from 1 January of year 1 to 1 January of year y. */
  function DaysBeforeYear(y: nat): nat
  {
    if y <= 1 then 0 else DaysBeforeYear(y - 1) + YearLength(y - 1)
  }

  /** Days from 1 January to the first of month m of year y. */
  function DaysBeforeMonth(y: nat, m: nat): nat
    requires 1 <= m <= 13
  {
    if m == 1 then 0 else DaysBeforeMonth(y, m - 1) + DaysInMonth(y, m - 1)
  }

  function DayNumber(d: Date): int
    requires ValidDate(d)
  {
    DaysBeforeYear(d.year) + DaysBeforeMonth(d.year, d.month) + d.day - 1
  }

  /** QDateTime(date, time, Qt::UTC) as seconds since 0001-01-01T00:00:00. */
  function DateTime(d: Date, secs: nat): int
    requires ValidDate(d) && secs < 86400
  {
    DayNumber(d) * 86400 + secs
  }

  /**
   * QDateTime(date, time, Qt::UTC): valid exactly when the date is. A time
   * that did not parse (or was never read) is taken as midnight.
   */
  function Combine(d: Option<Date>, t: Option<nat>): (r: Option<int>)
    requires d.Some? ==> ValidDate(d.value)
    requires t.Some? ==> t.value < 86400
    ensures r.Some? <==> d.Some?
    ensures r.Some? ==> DayNumber(d.value) * 86400 <= r.value < DayNumber(d.value) * 86400 + 86400
    ensures r.Some? && t.None? ==> r.value == DayNumber(d.value) * 86400
    ensures r.Some? && t.Some? ==> r.value - DayNumber(d.value) * 86400 == t.value
  {
    if d.Some? then Some(DateTime(d.value, if t.Some? then t.value else 0)) else None
  }

  lemma {:induction false} DaysBeforeMonthWithin(y: nat, m: nat)
    requires 1 <= m <= 12
    ensures DaysBeforeMonth(y, m) + DaysInMonth(y, m) <= DaysBeforeMonth(y, 13)
    decreases 13 - m
  {
    if m < 12 {
      DaysBeforeMonthWithin(y, m + 1);
    }
  }

  lemma {:induction false} DaysBeforeMonthIncreasing(y: nat, m1: nat, m2: nat)
    requires 1 <= m1 < m2 <= 13
    ensures DaysBeforeMonth(y, m1) + DaysInMonth(y, m1) <= DaysBeforeMonth(y, m2)
    decreases m2
  {
    if m1 + 1 < m2 {
      DaysBeforeMonthIncreasing(y, m1, m2 - 1);
    }
  }

  lemma {:induction false} DaysBeforeYearIncreasing(y1: nat, y2: nat)
    requires 1 <= y1 < y2
    ensures DaysBeforeYear(y1) + YearLength(y1) <= DaysBeforeYear(y2)
    decreases y2
  {
    if y1 + 1 < y2 {
      DaysBeforeYearIncreasing(y1, y2 - 1);
    }
  }

  /** Date-times compare as their calendar fields do: year, then month, day and time. */
  lemma DateTimeChronological(d1: Date, s1: nat, d2: Date, s2: nat)
    requires ValidDate(d1) && ValidDate(d2) && s1 < 86400 && s2 < 86400
    requires d1.year < d2.year
          || (d1.year == d2.year && d1.month < d2.month)
          || (d1.year == d2.year && d1.month == d2.month && d1.day < d2.day)
          || (d1 == d2 && s1 < s2)
    ensures DateTime(d1, s1) < DateTime(d2, s2)
  {
    if d1.year < d2.year {
      DaysBeforeMonthIncreasing(d1.year, d1.month, 13);
      DaysBeforeYearIncreasing(d1.year, d2.year);
      assert DayNumber(d1) < DayNumber(d2);
    } else if d1.year == d2.year && d1.month < d2.month {
      DaysBeforeMonthIncreasing(d1.year, d1.month, d2.month);
      assert DayNumber(d1) < DayNumber(d2);
    }
  }
}

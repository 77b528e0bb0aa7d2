/**
 * Calendar dates as (year, month, day) in the proleptic Gregorian calendar, the day
 * numbering of ECMAScript time values (day 0 is 1970-01-01, a Thursday), the date-only
 * forms of the ECMAScript date-time string format (YYYY, YYYY-MM, YYYY-MM-DD, read as
 * UTC), the `toISOString().split('T')[0]` rendering, and `Date.UTC`'s normalisation.
 */
module Dates {
  import opened Wrappers
  import opened Text

  /** A calendar day: month 1..12, day 1..31 when valid. */
  datatype Date = Date(year: int, month: int, day: int)

  predicate IsLeapYear(y: int) {
    y % 4 == 0 && (y % 100 != 0 || y % 400 == 0)
  }

  function DaysInYear(y: int): int {
    if IsLeapYear(y) then 366 else 365
  }

  function DaysInMonth(y: int, m: int): (n: int)
    requires 1 <= m <= 12
    ensures 28 <= n <= 31
  {
    if m == 2 then (if IsLeapYear(y) then 29 else 28)
    else if m == 4 || m == 6 || m == 9 || m == 11 then 30
    else 31
  }

  /** A real calendar day. */
  predicate Valid(d: Date) {
    1 <= d.month <= 12 && 1 <= d.day <= DaysInMonth(d.year, d.month)
  }

  /** Chronological order, as `<` on the two dates' time values: lexicographic on (year, month, day). */
  predicate Before(a: Date, b: Date) {
    a.year < b.year
    || (a.year == b.year && (a.month < b.month || (a.month == b.month && a.day < b.day)))
  }

  // ---------------------------------------------------------------------------
  // Day numbers
  // ---------------------------------------------------------------------------

  /** ECMAScript's DayFromYear: the day number of January 1 of year `y`. */
  function DayFromYear(y: int): int {
    365 * (y - 1970) + (y - 1969) / 4 - (y - 1901) / 100 + (y - 1601) / 400
  }

  /** Days of year `y` before the first of month `m`. */
  function MonthStart(y: int, m: int): (n: int)
    requires 1 <= m <= 12
    ensures 0 <= n <= 335
  {
    var base :=
      if m == 1 then 0 else if m == 2 then 31 else if m == 3 then 59 else if m == 4 then 90
      else if m == 5 then 120 else if m == 6 then 151 else if m == 7 then 181
      else if m == 8 then 212 else if m == 9 then 243 else if m == 10 then 273
      else if m == 11 then 304 else 334;
    if m > 2 && IsLeapYear(y) then base + 1 else base
  }

  /** The day number of a date (ECMAScript's Day of its UTC midnight). */
  function DayNumber(d: Date): int
    requires 1 <= d.month <= 12
  {
    DayFromYear(d.year) + MonthStart(d.year, d.month) + d.day - 1
  }

  /** ECMAScript's WeekDay: 0 is Sunday, and day 0 is a Thursday. */
  function WeekDay(dayNumber: int): (w: int)
    ensures 0 <= w < 7
  {
    (dayNumber + 4) % 7
  }

  lemma LeapStep4(y: int)
    ensures (y - 1968) / 4 - (y - 1969) / 4 == if y % 4 == 0 then 1 else 0
  {
    var q := (y - 1969) / 4;
    assert y - 1969 == 4 * q + (y - 1969) % 4;
  }

  lemma LeapStep100(y: int)
    ensures (y - 1900) / 100 - (y - 1901) / 100 == if y % 100 == 0 then 1 else 0
  {
    var q := (y - 1901) / 100;
    assert y - 1901 == 100 * q + (y - 1901) % 100;
  }

  lemma LeapStep400(y: int)
    ensures (y - 1600) / 400 - (y - 1601) / 400 == if y % 400 == 0 then 1 else 0
  {
    var q := (y - 1601) / 400;
    assert y - 1601 == 400 * q + (y - 1601) % 400;
  }

  lemma DivisorsNest(y: int)
    ensures y % 400 == 0 ==> y % 100 == 0
    ensures y % 100 == 0 ==> y % 4 == 0
  {
    if y % 400 == 0 {
      var q := y / 400;
      assert y == 100 * (4 * q);
    }
    if y % 100 == 0 {
      var q := y / 100;
      assert y == 4 * (25 * q);
    }
  }

  /** Consecutive years start DaysInYear apart. */
  lemma DayFromYearStep(y: int)
    ensures DayFromYear(y + 1) == DayFromYear(y) + DaysInYear(y)
  {
    LeapStep4(y);
    LeapStep100(y);
    LeapStep400(y);
    DivisorsNest(y);
    var d4, d100, d400 := y % 4 == 0, y % 100 == 0, y % 400 == 0;
    assert DayFromYear(y + 1) - DayFromYear(y)
      == 365 + (if d4 then 1 else 0) - (if d100 then 1 else 0) + (if d400 then 1 else 0);
  }

  /** Later years start later. */
  lemma {:induction false} DayFromYearMonotone(y: int, z: int)
    requires y <= z
    ensures DayFromYear(y) + (z - y) * 365 <= DayFromYear(z)
    decreases z - y
  {
    if y < z {
      DayFromYearStep(y);
      DayFromYearMonotone(y + 1, z);
    }
  }

  lemma MonthStartStep(y: int, m: int)
    requires 1 <= m <= 12
    ensures m < 12 ==> MonthStart(y, m + 1) == MonthStart(y, m) + DaysInMonth(y, m)
    ensures m == 12 ==> MonthStart(y, m) + DaysInMonth(y, m) == DaysInYear(y)
  {
  }

  lemma MonthStartMonotone(y: int, m: int, n: int)
    requires 1 <= m < n <= 12
    ensures MonthStart(y, m) + DaysInMonth(y, m) <= MonthStart(y, n)
  {
  }

  /** 1970-01-01 is day 0, a Thursday. */
  lemma EpochIsThursday()
    ensures DayNumber(Date(1970, 1, 1)) == 0
    ensures WeekDay(0) == 4
  {
    assert (1970 - 1969) / 4 == 0 && (1970 - 1901) / 100 == 0 && (1970 - 1601) / 400 == 0;
    assert DayFromYear(1970) == 0;
    assert MonthStart(1970, 1) == 0;
  }

  /** The calendar day after `d`. */
  function NextDay(d: Date): (n: Date)
    requires Valid(d)
    ensures Valid(n) && Before(d, n)
  {
    if d.day < DaysInMonth(d.year, d.month) then Date(d.year, d.month, d.day + 1)
    else if d.month < 12 then Date(d.year, d.month + 1, 1)
    else Date(d.year + 1, 1, 1)
  }

  /** Day numbers count calendar days: the next day is the next day number, one weekday later. */
  lemma NextDayNumber(d: Date)
    requires Valid(d)
    ensures DayNumber(NextDay(d)) == DayNumber(d) + 1
    ensures WeekDay(DayNumber(NextDay(d))) == (WeekDay(DayNumber(d)) + 1) % 7
  {
    var n := NextDay(d);
    if d.day < DaysInMonth(d.year, d.month) {
      assert n == Date(d.year, d.month, d.day + 1);
    } else if d.month < 12 {
      assert n == Date(d.year, d.month + 1, 1);
      MonthStartStep(d.year, d.month);
    } else {
      assert n == Date(d.year + 1, 1, 1);
      MonthStartStep(d.year, 12);
      DayFromYearStep(d.year);
    }
    WeekDayStep(DayNumber(d));
  }

  lemma WeekDayStep(k: int)
    ensures WeekDay(k + 1) == (WeekDay(k) + 1) % 7
  {
    var q := (k + 4) / 7;
    assert k + 4 == 7 * q + (k + 4) % 7;
  }

  /** Chronological order of valid dates is the order of their day numbers. */
  lemma BeforeIffEarlier(a: Date, b: Date)
    requires Valid(a) && Valid(b)
    ensures Before(a, b) <==> DayNumber(a) < DayNumber(b)
    ensures a == b <==> DayNumber(a) == DayNumber(b)
  {
    if Before(a, b) {
      EarlierIfBefore(a, b);
    } else if Before(b, a) {
      EarlierIfBefore(b, a);
    }
  }

  lemma EarlierIfBefore(a: Date, b: Date)
    requires Valid(a) && Valid(b) && Before(a, b)
    ensures DayNumber(a) < DayNumber(b)
  {
    if a.year < b.year {
      MonthStartStep(a.year, 12);
      if a.month < 12 {
        MonthStartMonotone(a.year, a.month, 12);
      }
      DayFromYearStep(a.year);
      DayFromYearMonotone(a.year + 1, b.year);
    } else if a.month < b.month {
      MonthStartMonotone(a.year, a.month, b.month);
    }
  }

  // ---------------------------------------------------------------------------
  // Fixed-width decimal fields
  // ---------------------------------------------------------------------------

  function Pow10(w: nat): (p: nat)
    ensures p >= 1
  {
    if w == 0 then 1 else 10 * Pow10(w - 1)
  }

  /** The last `w` decimal digits of `n`, most significant first, zero-padded. */
  function FixedDigits(n: nat, w: nat): (s: string)
    ensures |s| == w && AllDigits(s)
  {
    if w == 0 then "" else FixedDigits(n / 10, w - 1) + [DigitChar(n % 10)]
  }

  lemma {:induction false} FixedDigitsValue(n: nat, w: nat)
    requires n < Pow10(w)
    ensures DigitsValue(FixedDigits(n, w)) == n
  {
    if w > 0 {
      var s := FixedDigits(n, w);
      assert s[..|s| - 1] == FixedDigits(n / 10, w - 1);
      FixedDigitsValue(n / 10, w - 1);
    }
  }

  lemma {:induction false} FixedDigitsOfValue(s: string)
    requires AllDigits(s)
    ensures DigitsValue(s) < Pow10(|s|)
    ensures FixedDigits(DigitsValue(s), |s|) == s
  {
    if s != [] {
      var p := s[..|s| - 1];
      FixedDigitsOfValue(p);
      var v := DigitsValue(s);
      assert v / 10 == DigitsValue(p) && v % 10 == DigitValue(s[|s| - 1]);
      assert DigitChar(DigitValue(s[|s| - 1])) == s[|s| - 1];
      assert p + [s[|s| - 1]] == s;
    }
  }

  /** `padStart(2, '0')` of a number below 100 is its two-digit field. */
  lemma PadTwoIsFixed(n: nat)
    requires n < 100
    ensures PadTwo(n) == FixedDigits(n, 2)
  {
    var p := PadTwo(n);
    FixedDigitsOfValue(p);
  }

  // ---------------------------------------------------------------------------
  // Strings
  // ---------------------------------------------------------------------------

  predicate DigitsAt(s: string, i: nat, n: nat) {
    i + n <= |s| && AllDigits(s[i..i + n])
  }

  /** `/^\d{4}-\d{2}-\d{2}$/.test(s)`. */
  predicate MatchesDatePattern(s: string) {
    |s| == 10 && DigitsAt(s, 0, 4) && s[4] == '-' && DigitsAt(s, 5, 2) && s[7] == '-' && DigitsAt(s, 8, 2)
  }

  /**
   * `new Date(s)` for the date-only forms YYYY, YYYY-MM and YYYY-MM-DD, read as UTC
   * midnight; `None` is an invalid date (NaN time value).
   */
  function ParseIsoDate(s: string): (r: Option<Date>)
    ensures r.Some? ==> Valid(r.value) && 0 <= r.value.year <= 9999
  {
    if !(|s| == 4 || |s| == 7 || |s| == 10) || !DigitsAt(s, 0, 4) then None
    else
      FixedDigitsOfValue(s[..4]);
      var y := DigitsValue(s[..4]);
      if |s| == 4 then Some(Date(y, 1, 1))
      else if s[4] != '-' || !DigitsAt(s, 5, 2) then None
      else
        var m := DigitsValue(s[5..7]);
        if !(1 <= m <= 12) then None
        else if |s| == 7 then Some(Date(y, m, 1))
        else if s[7] != '-' || !DigitsAt(s, 8, 2) then None
        else
          var d := DigitsValue(s[8..10]);
          if 1 <= d <= DaysInMonth(y, m) then Some(Date(y, m, d)) else None
  }

  /** `date.toISOString().split('T')[0]` for a year in 0..9999. */
  function FormatIsoDate(d: Date): (s: string)
    requires Valid(d) && 0 <= d.year <= 9999
    ensures MatchesDatePattern(s)
  {
    FixedDigits(d.year, 4) + "-" + FixedDigits(d.month, 2) + "-" + FixedDigits(d.day, 2)
  }

  /** The date part of an ISO string parses back to the date it renders. */
  lemma ParseFormatIso(d: Date)
    requires Valid(d) && 0 <= d.year <= 9999
    ensures ParseIsoDate(FormatIsoDate(d)) == Some(d)
  {
    var s := FormatIsoDate(d);
    assert s[..4] == FixedDigits(d.year, 4);
    assert s[5..7] == FixedDigits(d.month, 2);
    assert s[8..10] == FixedDigits(d.day, 2);
    FixedDigitsValue(d.year, 4);
    FixedDigitsValue(d.month, 2);
    FixedDigitsValue(d.day, 2);
  }

  /** A YYYY-MM-DD string that parses renders back to itself. */
  lemma FormatParseIso(s: string)
    requires |s| == 10 && ParseIsoDate(s).Some?
    ensures FormatIsoDate(ParseIsoDate(s).value) == s
  {
    FixedDigitsOfValue(s[..4]);
    FixedDigitsOfValue(s[5..7]);
    FixedDigitsOfValue(s[8..10]);
    assert s == s[..4] + "-" + s[5..7] + "-" + s[8..10];
  }

  /** A string that parses as a date has the YYYY-MM-DD shape exactly when it has ten characters. */
  lemma ParsedPatternIffFull(s: string)
    requires ParseIsoDate(s).Some?
    ensures MatchesDatePattern(s) <==> |s| == 10
  {
  }

  /**
   * `${d.getUTCFullYear()}-MM-DD` with the month and day padded to two digits; the year is
   * written as JavaScript writes a number, unpadded and with a leading '-' when negative.
   */
  function FormatUtcDate(d: Date): (s: string)
    requires Valid(d)
  {
    var y := if d.year < 0 then "-" + NatToString(-d.year) else NatToString(d.year);
    y + "-" + PadTwo(d.month) + "-" + PadTwo(d.day)
  }

  /** From year 1000 on, the unpadded rendering is the ISO one. */
  lemma FormatUtcIsIso(d: Date)
    requires Valid(d) && 1000 <= d.year <= 9999
    ensures FormatUtcDate(d) == FormatIsoDate(d)
  {
    var y := NatToString(d.year);
    assert |y| <= 4 by {
      if |y| > 4 {
        LongDecimalIsLarge(y);
      }
    }
    assert |y| >= 4 by {
      if |y| < 4 {
        FixedDigitsOfValue(y);
        PowMonotone(|y|, 3);
      }
    }
    FixedDigitsOfValue(y);
    PadTwoIsFixed(d.month);
    PadTwoIsFixed(d.day);
  }

  lemma {:induction false} PowMonotone(a: nat, b: nat)
    requires a <= b
    ensures Pow10(a) <= Pow10(b)
    decreases b - a
  {
    if a < b {
      PowMonotone(a + 1, b);
    }
  }

  /** A digit string without a leading zero and with more than four digits is at least 10000. */
  lemma {:induction false} LongDecimalIsLarge(s: string)
    requires AllDigits(s) && |s| > 4 && s[0] != '0'
    ensures DigitsValue(s) >= 10000
  {
    LeadingDigitBound(s);
    PowMonotone(4, |s| - 1);
  }

  lemma {:induction false} LeadingDigitBound(s: string)
    requires AllDigits(s) && |s| >= 1 && s[0] != '0'
    ensures DigitsValue(s) >= Pow10(|s| - 1)
  {
    if |s| > 1 {
      LeadingDigitBound(s[..|s| - 1]);
    }
  }

  // ---------------------------------------------------------------------------
  // Date.UTC
  // ---------------------------------------------------------------------------

  /**
   * `Date.UTC(year, monthIndex, day)` for integer arguments, as a day number: years 0..99
   * mean 1900..1999, a month index outside 0..11 carries into the year, and a day count
   * beyond the month carries forward. `None` is NaN: a time value more than 10^8 days
   * from the epoch.
   */
  function DateUtc(year: int, monthIndex: int, day: int): (r: Option<int>)
    ensures r.Some? ==> -100000000 <= r.value <= 100000000
  {
    var y := if 0 <= year <= 99 then 1900 + year else year;
    var ym := y + monthIndex / 12;
    var mn := monthIndex % 12;
    var days := DayFromYear(ym) + MonthStart(ym, mn + 1) + day - 1;
    if -100000000 <= days <= 100000000 then Some(days) else None
  }

  /** For a calendar date from year 100 on, `Date.UTC(y, m - 1, d)` is its day number. */
  lemma DateUtcOfDate(d: Date)
    requires Valid(d) && 100 <= d.year <= 9999
    ensures DateUtc(d.year, d.month - 1, d.day) == Some(DayNumber(d))
  {
    assert (d.month - 1) / 12 == 0 && (d.month - 1) % 12 == d.month - 1;
    DayFromYearMonotone(0, d.year);
    DayFromYearMonotone(d.year, 10000);
    assert DayFromYear(0) >= -1000000 && DayFromYear(10000) <= 3000000;
  }
}

/** ISO local dates ("YYYY-MM-DD", proleptic Gregorian, strict) and the
    whole-second day windows the route queries use. A Time counts seconds
    from 0000-01-01T00:00:00, so a date's day number times 86400 is the
    start of that day. */
module Calendar {
  import opened Wrappers
  import opened Entities

  datatype Date = Date(year: int, month: int, day: int)

  predicate IsLeapYear(y: int) {
    y % 4 == 0 && (y % 100 != 0 || y % 400 == 0)
  }

  function YearLength(y: int): int {
    if IsLeapYear(y) then 366 else 365
  }

  function DaysInMonth(y: int, m: int): int
    requires 1 <= m <= 12
  {
    if m == 2 then (if IsLeapYear(y) then 29 else 28)
    else if m == 4 || m == 6 || m == 9 || m == 11 then 30
    else 31
  }

  /** Four-digit years only: the unsigned form of the ISO local date. */
  predicate ValidDate(d: Date) {
    && 0 <= d.year <= 9999
    && 1 <= d.month <= 12
    && 1 <= d.day <= DaysInMonth(d.year, d.month)
  }

  /** Days from 0000-01-01 to the first day of year `y`. */
  function DaysBeforeYear(y: nat): nat {
    if y == 0 then 0 else DaysBeforeYear(y - 1) + YearLength(y - 1)
  }

  /** Days from the first of the year to the first of month `m`. */
  function DaysBeforeMonth(y: int, m: int): int
    requires 1 <= m <= 12
  {
    var common :=
      if m == 1 then 0 else if m == 2 then 31 else if m == 3 then 59
      else if m == 4 then 90 else if m == 5 then 120 else if m == 6 then 151
      else if m == 7 then 181 else if m == 8 then 212 else if m == 9 then 243
      else if m == 10 then 273 else if m == 11 then 304 else 334;
    common + (if m > 2 && IsLeapYear(y) then 1 else 0)
  }

  /** Days since 0000-01-01. */
  function DayNumber(d: Date): nat
    requires ValidDate(d)
  {
    DaysBeforeYear(d.year) + DaysBeforeMonth(d.year, d.month) + d.day - 1
  }

  /** The query window of a date: from 00:00:00 to 23:59:59 inclusive. */
  function StartOfDay(d: Date): Time
    requires ValidDate(d)
  {
    DayNumber(d) * SecondsPerDay
  }

  function EndOfDay(d: Date): Time
    requires ValidDate(d)
  {
    StartOfDay(d) + SecondsPerDay - 1
  }

  /** The midnight that starts the day containing `t`. */
  function MidnightOf(t: Time): Time {
    (t / SecondsPerDay) * SecondsPerDay
  }

  // ---------------------------------------------------------------------------
  // Text form

  predicate IsDigit(c: char) {
    '0' <= c <= '9'
  }

  function DigitValue(c: char): int
    requires IsDigit(c)
  {
    c as int - '0' as int
  }

  function DigitChar(n: int): char
    requires 0 <= n <= 9
  {
    ('0' as int + n) as char
  }

  /** Ten characters: four digits, a dash, two digits, a dash, two digits. */
  predicate WellShaped(s: string) {
    && |s| == 10
    && s[4] == '-' && s[7] == '-'
    && IsDigit(s[0]) && IsDigit(s[1]) && IsDigit(s[2]) && IsDigit(s[3])
    && IsDigit(s[5]) && IsDigit(s[6]) && IsDigit(s[8]) && IsDigit(s[9])
  }

  function FieldsOf(s: string): Date
    requires WellShaped(s)
  {
    Date(
      1000 * DigitValue(s[0]) + 100 * DigitValue(s[1]) + 10 * DigitValue(s[2]) + DigitValue(s[3]),
      10 * DigitValue(s[5]) + DigitValue(s[6]),
      10 * DigitValue(s[8]) + DigitValue(s[9]))
  }

  /** `LocalDate.parse(s, ISO_LOCAL_DATE)`: the shape must match and the date
      must exist (no February 30, no February 29 outside leap years). */
  function ParseIsoLocalDate(s: string): (r: Option<Date>)
    ensures r.Some? ==> ValidDate(r.value) && |s| == 10
  {
    if WellShaped(s) && ValidDate(FieldsOf(s)) then Some(FieldsOf(s)) else None
  }

  /** The ISO text of a valid date, zero-padded. */
  function FormatIsoLocalDate(d: Date): (s: string)
    requires ValidDate(d)
    ensures |s| == 10
  {
    var y := d.year;
    [ DigitChar(y / 1000), DigitChar(y / 100 % 10), DigitChar(y / 10 % 10), DigitChar(y % 10), '-',
      DigitChar(d.month / 10), DigitChar(d.month % 10), '-',
      DigitChar(d.day / 10), DigitChar(d.day % 10)]
  }

  lemma FourDigits(y: int)
    requires 0 <= y <= 9999
    ensures 1000 * (y / 1000) + 100 * (y / 100 % 10) + 10 * (y / 10 % 10) + y % 10 == y
  {
    var q1, d0 := y / 10, y % 10;
    var q2, d1 := q1 / 10, q1 % 10;
    var q3, d2 := q2 / 10, q2 % 10;
    DivMod100(y, q2, 10 * d1 + d0);
    DivMod1000(y, q3, 100 * d2 + 10 * d1 + d0);
  }

  lemma DigitsBack(a: int, b: int, c: int, d: int)
    requires 0 <= a <= 9 && 0 <= b <= 9 && 0 <= c <= 9 && 0 <= d <= 9
    ensures var y := 1000 * a + 100 * b + 10 * c + d;
      y / 1000 == a && y / 100 % 10 == b && y / 10 % 10 == c && y % 10 == d
  {
    var y := 1000 * a + 100 * b + 10 * c + d;
    DivMod10(y, 100 * a + 10 * b + c, d);
    DivMod100(y, 10 * a + b, 10 * c + d);
    DivMod1000(y, a, 100 * b + 10 * c + d);
    DivMod10(10 * a + b, a, b);
    DivMod10(100 * a + 10 * b + c, 10 * a + b, c);
  }

  /** Quotient and remainder by 10, 100 and 1000 are fixed by any
      decomposition whose remainder is in range. */
  lemma DivMod10(y: int, q: int, r: int)
    requires y == 10 * q + r && 0 <= r < 10
    ensures y / 10 == q && y % 10 == r
  {
  }

  lemma DivMod100(y: int, q: int, r: int)
    requires y == 100 * q + r && 0 <= r < 100
    ensures y / 100 == q && y % 100 == r
  {
  }

  lemma DivMod1000(y: int, q: int, r: int)
    requires y == 1000 * q + r && 0 <= r < 1000
    ensures y / 1000 == q && y % 1000 == r
  {
  }

  lemma DigitCharValue(c: char)
    requires IsDigit(c)
    ensures DigitChar(DigitValue(c)) == c
  {
  }

  /** Parsing undoes formatting: every valid date is read back from its text. */
  lemma ParseFormatRoundTrip(d: Date)
    requires ValidDate(d)
    ensures ParseIsoLocalDate(FormatIsoLocalDate(d)) == Some(d)
  {
    var s := FormatIsoLocalDate(d);
    FourDigits(d.year);
    assert WellShaped(s);
    assert FieldsOf(s) == d;
  }

  /** Formatting undoes parsing: the accepted strings are exactly the texts of
      valid dates, so no two strings parse to the same date. */
  lemma FormatParseRoundTrip(s: string)
    requires ParseIsoLocalDate(s).Some?
    ensures FormatIsoLocalDate(ParseIsoLocalDate(s).value) == s
  {
    var d := ParseIsoLocalDate(s).value;
    DigitsBack(DigitValue(s[0]), DigitValue(s[1]), DigitValue(s[2]), DigitValue(s[3]));
    DigitsBack(0, 0, DigitValue(s[5]), DigitValue(s[6]));
    DigitsBack(0, 0, DigitValue(s[8]), DigitValue(s[9]));
    forall i | 0 <= i < 10 && i != 4 && i != 7
      ensures IsDigit(s[i])
    {
    }
    DigitCharValue(s[0]); DigitCharValue(s[1]); DigitCharValue(s[2]); DigitCharValue(s[3]);
    DigitCharValue(s[5]); DigitCharValue(s[6]); DigitCharValue(s[8]); DigitCharValue(s[9]);
    var t := FormatIsoLocalDate(d);
    assert t[0] == s[0] && t[1] == s[1] && t[2] == s[2] && t[3] == s[3];
    assert t[5] == s[5] && t[6] == s[6] && t[8] == s[8] && t[9] == s[9];
    assert forall i :: 0 <= i < 10 ==> t[i] == s[i];
  }

  // ---------------------------------------------------------------------------
  // Day numbers and windows

  lemma MonthStep(y: int, m: int)
    requires 1 <= m <= 12
    ensures DaysBeforeMonth(y, m) + DaysInMonth(y, m) == if m == 12 then YearLength(y) else DaysBeforeMonth(y, m + 1)
  {
  }

  lemma {:induction false} MonthsIncrease(y: int, m1: int, m2: int)
    requires 1 <= m1 < m2 <= 12
    ensures DaysBeforeMonth(y, m1) + DaysInMonth(y, m1) <= DaysBeforeMonth(y, m2)
    decreases m2 - m1
  {
    MonthStep(y, m1);
    if m1 + 1 < m2 {
      MonthsIncrease(y, m1 + 1, m2);
      MonthStep(y, m1 + 1);
    }
  }

  lemma {:induction false} YearsIncrease(y1: nat, y2: nat)
    requires y1 < y2
    ensures DaysBeforeYear(y1) + YearLength(y1) <= DaysBeforeYear(y2)
  {
    if y1 + 1 < y2 {
      YearsIncrease(y1, y2 - 1);
    }
  }

  /** A date's day number stays inside its own year. */
  lemma DayNumberWithinYear(d: Date)
    requires ValidDate(d)
    ensures DaysBeforeYear(d.year) <= DayNumber(d) < DaysBeforeYear(d.year) + YearLength(d.year)
  {
    MonthStep(d.year, d.month);
    if d.month < 12 {
      MonthsIncrease(d.year, d.month, 12);
      MonthStep(d.year, 12);
    }
  }

  predicate Before(a: Date, b: Date) {
    a.year < b.year
    || (a.year == b.year && a.month < b.month)
    || (a.year == b.year && a.month == b.month && a.day < b.day)
  }

  /** Day numbers follow calendar order. */
  lemma DayNumberIncreasing(a: Date, b: Date)
    requires ValidDate(a) && ValidDate(b) && Before(a, b)
    ensures DayNumber(a) < DayNumber(b)
  {
    if a.year < b.year {
      DayNumberWithinYear(a);
      DayNumberWithinYear(b);
      YearsIncrease(a.year, b.year);
    } else if a.month < b.month {
      MonthsIncrease(a.year, a.month, b.month);
    }
  }

  /** The calendar day after `d`; the last four-digit date has none. */
  function NextDate(d: Date): (r: Date)
    requires ValidDate(d) && d != Date(9999, 12, 31)
    ensures ValidDate(r) && Before(d, r)
  {
    if d.day < DaysInMonth(d.year, d.month) then Date(d.year, d.month, d.day + 1)
    else if d.month < 12 then Date(d.year, d.month + 1, 1)
    else Date(d.year + 1, 1, 1)
  }

  /** Consecutive dates have consecutive day numbers, across month ends,
      year ends and leap days alike. */
  lemma NextDayNumber(d: Date)
    requires ValidDate(d) && d != Date(9999, 12, 31)
    ensures DayNumber(NextDate(d)) == DayNumber(d) + 1
  {
    var y, m := d.year, d.month;
    if d.day == DaysInMonth(y, m) {
      MonthStep(y, m);
      if m == 12 {
        assert DaysBeforeYear(y + 1) == DaysBeforeYear(y) + YearLength(y);
      }
    }
  }

  /** A time falls in a date's window exactly when it lies on that day. */
  lemma WindowIsDay(d: Date, t: Time)
    requires ValidDate(d)
    ensures StartOfDay(d) <= t <= EndOfDay(d) <==> t / SecondsPerDay == DayNumber(d)
  {
  }

  /** Different dates have disjoint windows. */
  lemma DistinctDatesDisjointWindows(a: Date, b: Date, t: Time)
    requires ValidDate(a) && ValidDate(b) && a != b
    ensures !(StartOfDay(a) <= t <= EndOfDay(a) && StartOfDay(b) <= t <= EndOfDay(b))
  {
    if Before(a, b) {
      DayNumberIncreasing(a, b);
    } else {
      DayNumberIncreasing(b, a);
    }
    WindowIsDay(a, t);
    WindowIsDay(b, t);
  }

  /** The midnight of any time starts a window that contains that time. */
  lemma MidnightWindow(t: Time)
    ensures MidnightOf(t) <= t <= MidnightOf(t) + SecondsPerDay - 1
    ensures MidnightOf(t) % SecondsPerDay == 0
  {
  }
}

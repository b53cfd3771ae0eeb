/**
 * Proleptic Gregorian calendar dates and their day numbers. The expiry check
 * compares two local-midnight `Date` values by their time stamps; for
 * calendar dates that is the comparison of their day numbers, which this
 * module shows to coincide with the order of (year, month, day) triples.
 */
module Calendar {

  /** A (year, month 1-12, day 1-31) triple as read from text. */
  datatype Date = Date(year: int, month: int, day: int)

  predicate IsLeapYear(y: int) {
    (y % 4 == 0 && y % 100 != 0) || y % 400 == 0
  }

  function DaysInMonth(y: int, m: int): (n: nat)
    ensures 28 <= n <= 31
  {
    if m == 2 then (if IsLeapYear(y) then 29 else 28)
    else if m == 4 || m == 6 || m == 9 || m == 11 then 30
    else 31
  }

  function DaysInYear(y: int): nat {
    if IsLeapYear(y) then 366 else 365
  }

  /** A real calendar day, no month or day overflow, year 0 or later. */
  predicate IsCalendarDate(d: Date) {
    d.year >= 0 && 1 <= d.month <= 12 && 1 <= d.day <= DaysInMonth(d.year, d.month)
  }

  /** Strictly later, comparing year, then month, then day. */
  predicate IsAfter(a: Date, b: Date) {
    a.year > b.year
    || (a.year == b.year && a.month > b.month)
    || (a.year == b.year && a.month == b.month && a.day > b.day)
  }

  /** Days in the years 0 .. y-1. */
  function DaysBeforeYear(y: nat): nat {
    if y == 0 then 0 else DaysBeforeYear(y - 1) + DaysInYear(y - 1)
  }

  /** Days in the months 1 .. m-1 of year y. */
  function DaysBeforeMonth(y: int, m: int): nat {
    if m <= 1 then 0 else DaysBeforeMonth(y, m - 1) + DaysInMonth(y, m - 1)
  }

  /** Days elapsed since 0000-01-01: what a local-midnight time stamp counts. */
  function DayNumber(d: Date): int
    requires d.year >= 0
  {
    DaysBeforeYear(d.year) + DaysBeforeMonth(d.year, d.month) + d.day - 1
  }

  lemma {:induction false} DaysBeforeYearMonotone(a: nat, b: nat)
    requires a <= b
    ensures DaysBeforeYear(a) + (if a < b then DaysInYear(a) else 0) <= DaysBeforeYear(b)
  {
    if a < b {
      DaysBeforeYearMonotone(a, b - 1);
    }
  }

  lemma {:induction false} DaysBeforeMonthMonotone(y: int, a: int, b: int)
    requires 1 <= a <= b
    ensures DaysBeforeMonth(y, a) + (if a < b then DaysInMonth(y, a) else 0) <= DaysBeforeMonth(y, b)
  {
    if a < b {
      DaysBeforeMonthMonotone(y, a, b - 1);
    }
  }

  lemma {:induction false} DaysBeforeDecember(y: int)
    ensures DaysBeforeMonth(y, 12) + DaysInMonth(y, 12) == DaysInYear(y)
  {
    assert DaysBeforeMonth(y, 1) == 0;
    assert DaysBeforeMonth(y, 2) == 31;
    assert DaysBeforeMonth(y, 3) == 31 + DaysInMonth(y, 2);
    assert DaysBeforeMonth(y, 4) == 62 + DaysInMonth(y, 2);
    assert DaysBeforeMonth(y, 5) == 92 + DaysInMonth(y, 2);
    assert DaysBeforeMonth(y, 6) == 123 + DaysInMonth(y, 2);
    assert DaysBeforeMonth(y, 7) == 153 + DaysInMonth(y, 2);
    assert DaysBeforeMonth(y, 8) == 184 + DaysInMonth(y, 2);
    assert DaysBeforeMonth(y, 9) == 215 + DaysInMonth(y, 2);
    assert DaysBeforeMonth(y, 10) == 245 + DaysInMonth(y, 2);
    assert DaysBeforeMonth(y, 11) == 276 + DaysInMonth(y, 2);
    assert DaysBeforeMonth(y, 12) == 306 + DaysInMonth(y, 2);
  }

  /** A calendar date's offset in its year is smaller than the year's length. */
  lemma DayOfYearBound(d: Date)
    requires IsCalendarDate(d)
    ensures DaysBeforeMonth(d.year, d.month) + d.day - 1 < DaysInYear(d.year)
  {
    DaysBeforeMonthMonotone(d.year, d.month, 12);
    DaysBeforeDecember(d.year);
  }

  /**
   * For calendar dates, "later by year, month, day" is exactly "later day
   * number", that is, a later local-midnight time stamp.
   */
  lemma IsAfterIffLaterDay(a: Date, b: Date)
    requires IsCalendarDate(a) && IsCalendarDate(b)
    ensures IsAfter(a, b) <==> DayNumber(a) > DayNumber(b)
  {
    DayOfYearBound(a);
    DayOfYearBound(b);
    if a.year != b.year {
      var lo, hi := if a.year < b.year then a.year else b.year, if a.year < b.year then b.year else a.year;
      DaysBeforeYearMonotone(lo, hi);
    } else if a.month != b.month {
      var lo, hi := if a.month < b.month then a.month else b.month, if a.month < b.month then b.month else a.month;
      DaysBeforeMonthMonotone(a.year, lo, hi);
    }
  }

  /** The Date constructor's reading of a year: 0 .. 99 stand for 1900 .. 1999. */
  function FullYear(year: int): int {
    if 0 <= year <= 99 then 1900 + year else year
  }

  /**
   * The day number of local midnight of `new Date(year, monthIndex, day)`:
   * the month index counts from 0 = January, and a month index or day out of
   * range carries into the year and the month, as the constructor does.
   */
  function MakeDay(year: int, monthIndex: int, day: int): int
    requires year + monthIndex / 12 >= 0
  {
    var y := year + monthIndex / 12;
    DaysBeforeYear(y) + DaysBeforeMonth(y, monthIndex % 12 + 1) + day - 1
  }

  /** Without overflow the constructor names the calendar date itself. */
  lemma MakeDayOfCalendarDate(d: Date)
    requires IsCalendarDate(d)
    ensures MakeDay(d.year, d.month - 1, d.day) == DayNumber(d)
  {
    assert (d.month - 1) / 12 == 0 && (d.month - 1) % 12 == d.month - 1;
  }

  /** A day past the end of a month is that many days into the next month. */
  lemma DayOverflow(y: nat, monthIndex: int, k: int)
    requires 0 <= monthIndex <= 10
    ensures MakeDay(y, monthIndex, DaysInMonth(y, monthIndex + 1) + k) == MakeDay(y, monthIndex + 1, k)
  {
    assert monthIndex / 12 == 0 && monthIndex % 12 == monthIndex;
    assert (monthIndex + 1) / 12 == 0 && (monthIndex + 1) % 12 == monthIndex + 1;
  }

  /** Day 0 is the last day of the month before. */
  lemma DayZero(y: nat, monthIndex: int)
    requires 1 <= monthIndex <= 11
    ensures MakeDay(y, monthIndex, 0) == MakeDay(y, monthIndex - 1, DaysInMonth(y, monthIndex))
  {
    DayOverflow(y, monthIndex - 1, 0);
  }

  /** Month index 12 + k is month k of the following year. */
  lemma MonthOverflow(y: nat, k: int, day: int)
    requires 0 <= k <= 11
    ensures MakeDay(y, 12 + k, day) == MakeDay(y + 1, k, day)
  {
    assert (12 + k) / 12 == 1 && (12 + k) % 12 == k;
    assert k / 12 == 0 && k % 12 == k;
  }

  /** Month index -1 is December of the year before. */
  lemma MonthUnderflow(y: nat, day: int)
    requires y >= 1
    ensures MakeDay(y, -1, day) == MakeDay(y - 1, 11, day)
  {
    assert -1 / 12 == -1 && -1 % 12 == 11;
    assert 11 / 12 == 0 && 11 % 12 == 11;
  }
}

/**
 The proleptic Gregorian calendar that `Calendar.current` is assumed to be.
 Every date the dashboard parses is a local midnight, so a date is its
 (day, month, year) triple and "n days earlier" is a difference of day ordinals.
 */
module Calendar {

  datatype Date = Date(day: int, month: int, year: int)

  predicate IsLeapYear(year: int) {
    year % 4 == 0 && (year % 100 != 0 || year % 400 == 0)
  }

  function DaysInMonth(month: int, year: int): (n: int)
    requires 1 <= month <= 12
    ensures 28 <= n <= 31
  {
    if month == 2 then (if IsLeapYear(year) then 29 else 28)
    else if month == 4 || month == 6 || month == 9 || month == 11 then 30
    else 31
  }

  function DaysInYear(year: int): int {
    if IsLeapYear(year) then 366 else 365
  }

  /** A real calendar date of the Christian era (there is no year 0). */
  predicate IsValid(d: Date) {
    && d.year >= 1
    && 1 <= d.month <= 12
    && 1 <= d.day <= DaysInMonth(d.month, d.year)
  }

  /** Days in the years 1 .. year-1. */
  function DaysBeforeYear(year: int): nat {
    if year <= 1 then 0 else DaysBeforeYear(year - 1) + DaysInYear(year - 1)
  }

  /** Days in the months 1 .. month-1 of `year`. */
  function DaysBeforeMonth(month: int, year: int): (n: nat)
    requires 1 <= month <= 12
    ensures month == 1 ==> n == 0
    ensures n + DaysInMonth(month, year) <= DaysInYear(year)
    ensures month == 12 ==> n + DaysInMonth(month, year) == DaysInYear(year)
  {
    var leap := if IsLeapYear(year) then 1 else 0;
    if month == 1 then 0
    else if month == 2 then 31
    else [0, 0, 0, 59, 90, 120, 151, 181, 212, 243, 273, 304, 334][month] + leap
  }

  /** The table agrees with adding up the month lengths one by one. */
  lemma DaysBeforeMonthStep(month: int, year: int)
    requires 1 < month <= 12
    ensures DaysBeforeMonth(month, year) == DaysBeforeMonth(month - 1, year) + DaysInMonth(month - 1, year)
  {
    if month <= 4 {
    } else if month <= 8 {
    } else {
    }
  }

  /** The number of days from 1 January of year 1 to `d`. */
  function DayNumber(d: Date): int
    requires IsValid(d)
  {
    DaysBeforeYear(d.year) + DaysBeforeMonth(d.month, d.year) + d.day - 1
  }

  /** Chronological order: by year, then month, then day. */
  predicate Before(a: Date, b: Date) {
    || a.year < b.year
    || (a.year == b.year && a.month < b.month)
    || (a.year == b.year && a.month == b.month && a.day < b.day)
  }

  lemma {:induction false} DaysBeforeYearGrows(y1: int, y2: int)
    requires 1 <= y1 < y2
    ensures DaysBeforeYear(y1) + DaysInYear(y1) <= DaysBeforeYear(y2)
    decreases y2
  {
    if y1 + 1 < y2 {
      DaysBeforeYearGrows(y1, y2 - 1);
    }
  }

  lemma {:induction false} DaysBeforeMonthGrows(m1: int, m2: int, year: int)
    requires 1 <= m1 < m2 <= 12
    ensures DaysBeforeMonth(m1, year) + DaysInMonth(m1, year) <= DaysBeforeMonth(m2, year)
    decreases m2
  {
    DaysBeforeMonthStep(m2, year);
    if m1 + 1 < m2 {
      DaysBeforeMonthGrows(m1, m2 - 1, year);
    }
  }

  /** Day ordinals order valid dates exactly as the calendar does, and tell them apart. */
  lemma DayNumberOrder(a: Date, b: Date)
    requires IsValid(a) && IsValid(b)
    ensures Before(a, b) <==> DayNumber(a) < DayNumber(b)
    ensures a == b <==> DayNumber(a) == DayNumber(b)
  {
    if a.year < b.year {
      DaysBeforeYearGrows(a.year, b.year);
    } else if b.year < a.year {
      DaysBeforeYearGrows(b.year, a.year);
    } else if a.month < b.month {
      DaysBeforeMonthGrows(a.month, b.month, a.year);
    } else if b.month < a.month {
      DaysBeforeMonthGrows(b.month, a.month, a.year);
    }
  }

  /** The calendar day after `d`. */
  function NextDay(d: Date): Date
    requires IsValid(d)
  {
    if d.day < DaysInMonth(d.month, d.year) then Date(d.day + 1, d.month, d.year)
    else if d.month < 12 then Date(1, d.month + 1, d.year)
    else Date(1, 1, d.year + 1)
  }

  /** Consecutive calendar days have consecutive ordinals, so ordinal differences count days. */
  lemma NextDayNumber(d: Date)
    requires IsValid(d)
    ensures IsValid(NextDay(d))
    ensures Before(d, NextDay(d))
    ensures DayNumber(NextDay(d)) == DayNumber(d) + 1
  {
    if d.day < DaysInMonth(d.month, d.year) {
      assert NextDay(d) == Date(d.day + 1, d.month, d.year);
    } else if d.month < 12 {
      assert NextDay(d) == Date(1, d.month + 1, d.year);
      DaysBeforeMonthStep(d.month + 1, d.year);
    } else {
      assert NextDay(d) == Date(1, 1, d.year + 1);
      assert DaysBeforeYear(d.year + 1) == DaysBeforeYear(d.year) + DaysInYear(d.year);
    }
  }

  /** The date `n` days after `d`, reached by `n` steps of `NextDay`. */
  function Advance(d: Date, n: nat): (r: Date)
    requires IsValid(d)
    ensures IsValid(r) && DayNumber(r) == DayNumber(d) + n
    decreases n
  {
    if n == 0 then d
    else
      NextDayNumber(d);
      Advance(NextDay(d), n - 1)
  }

  /** `e` lies at most `n` days before `d`: advancing `e` by 0 to `n` days reaches `d`. */
  ghost predicate WithinDaysBefore(e: Date, n: nat, d: Date)
    requires IsValid(e)
  {
    exists k: nat :: k <= n && Advance(e, k) == d
  }

  /** "At most `n` days before" is a difference of day ordinals between 0 and `n`. */
  lemma WithinDaysBeforeOrdinal(e: Date, n: nat, d: Date)
    requires IsValid(e) && IsValid(d)
    ensures WithinDaysBefore(e, n, d) <==> DayNumber(d) - n <= DayNumber(e) <= DayNumber(d)
  {
    if DayNumber(d) - n <= DayNumber(e) <= DayNumber(d) {
      var k: nat := DayNumber(d) - DayNumber(e);
      DayNumberOrder(Advance(e, k), d);
      assert Advance(e, k) == d;
    }
  }
}

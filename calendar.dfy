/** Proleptic Gregorian calendar dates, as the JavaScript `Date` object sees
    them when its local time zone is UTC: a day is a (year, month, day) triple,
    months are numbered 1..12, and time values are counted in whole days. */
module Calendar {

  datatype Date = Date(year: int, month: int, day: int)

  predicate IsLeapYear(y: int) {
    y % 4 == 0 && (y % 100 != 0 || y % 400 == 0)
  }

  function DaysInMonth(y: int, m: int): int
    requires 1 <= m <= 12
  {
    if m == 2 then (if IsLeapYear(y) then 29 else 28)
    else if m == 4 || m == 6 || m == 9 || m == 11 then 30
    else 31
  }

  function DaysInYear(y: int): int {
    if IsLeapYear(y) then 366 else 365
  }

  /** A real calendar day: the month exists and the day exists in it. */
  predicate ValidDate(d: Date) {
    1 <= d.month <= 12 && 1 <= d.day <= DaysInMonth(d.year, d.month)
  }

  /** Days of year `y` that come before the first of month `m`
      (`m == 13` gives the length of the year). */
  function DaysBeforeMonth(y: int, m: int): (n: int)
    requires 1 <= m <= 13
  {
    var leap := if m > 2 && IsLeapYear(y) then 1 else 0;
    leap + (if m == 1 then 0 else if m == 2 then 31 else if m == 3 then 59
            else if m == 4 then 90 else if m == 5 then 120 else if m == 6 then 151
            else if m == 7 then 181 else if m == 8 then 212 else if m == 9 then 243
            else if m == 10 then 273 else if m == 11 then 304 else if m == 12 then 334
            else 365)
  }

  /** Days from 0001-01-01 to the first of January of year `y`; Dafny's
      division rounds down for a positive divisor, so this holds for every
      year, including those before year 1. */
  function DaysBeforeYear(y: int): int {
    var p := y - 1;
    365 * p + p / 4 - p / 100 + p / 400
  }

  /** The number of days from 0001-01-01 to `d`: the time value of `d`'s
      midnight, in days. */
  function DayNumber(d: Date): int
    requires 1 <= d.month <= 12
  {
    DaysBeforeYear(d.year) + DaysBeforeMonth(d.year, d.month) + d.day - 1
  }

  /** `Date.prototype.getDay`: 0 is Sunday, 6 is Saturday.  0001-01-01 was a Monday. */
  function Weekday(d: Date): (w: int)
    requires 1 <= d.month <= 12
    ensures 0 <= w < 7
  {
    (DayNumber(d) + 1) % 7
  }

  predicate IsWeekend(d: Date)
    requires 1 <= d.month <= 12
  {
    Weekday(d) == 0 || Weekday(d) == 6
  }

  /** Strict lexicographic order on (year, month, day). */
  predicate Before(a: Date, b: Date) {
    a.year < b.year
    || (a.year == b.year && a.month < b.month)
    || (a.year == b.year && a.month == b.month && a.day < b.day)
  }

  lemma MonthStep(y: int, m: int)
    requires 1 <= m <= 12
    ensures DaysBeforeMonth(y, m + 1) == DaysBeforeMonth(y, m) + DaysInMonth(y, m)
  {
  }

  lemma YearStep(y: int)
    ensures DaysBeforeYear(y + 1) == DaysBeforeYear(y) + DaysInYear(y)
  {
    var p := y - 1;
    assert p / 4 + 1 == (p + 1) / 4 || (p + 1) / 4 == p / 4;
    assert (p + 1) / 4 == p / 4 + 1 <==> y % 4 == 0;
    assert (p + 1) / 100 == p / 100 + 1 <==> y % 100 == 0;
    assert (p + 1) / 400 == p / 400 + 1 <==> y % 400 == 0;
  }

  /** `setDate(getDate() + 1)`: the following calendar day. */
  function Next(d: Date): (n: Date)
    requires ValidDate(d)
    ensures ValidDate(n)
    ensures DayNumber(n) == DayNumber(d) + 1
    ensures Before(d, n)
  {
    if d.day < DaysInMonth(d.year, d.month) then
      Date(d.year, d.month, d.day + 1)
    else if d.month < 12 then
      MonthStep(d.year, d.month);
      Date(d.year, d.month + 1, 1)
    else
      YearStep(d.year);
      Date(d.year + 1, 1, 1)
  }

  /** Within a year, a valid date's day number lies in [start of year, start of next year). */
  lemma WithinYear(d: Date)
    requires ValidDate(d)
    ensures DaysBeforeYear(d.year) <= DayNumber(d) < DaysBeforeYear(d.year + 1)
  {
    MonthStep(d.year, d.month);
    YearStep(d.year);
    assert DaysBeforeMonth(d.year, d.month + 1) <= DaysBeforeMonth(d.year, 13);
  }

  lemma {:induction false} YearsIncrease(y1: int, y2: int)
    requires y1 < y2
    ensures DaysBeforeYear(y1 + 1) <= DaysBeforeYear(y2)
    decreases y2 - y1
  {
    if y1 + 1 < y2 {
      YearsIncrease(y1 + 1, y2);
      YearStep(y1 + 1);
    }
  }

  /** The day number is strictly monotone in calendar order. */
  lemma DayNumberMonotone(a: Date, b: Date)
    requires ValidDate(a) && ValidDate(b) && Before(a, b)
    ensures DayNumber(a) < DayNumber(b)
  {
    if a.year < b.year {
      WithinYear(a);
      WithinYear(b);
      YearsIncrease(a.year, b.year);
    } else if a.month < b.month {
      MonthStep(a.year, a.month);
      assert DaysBeforeMonth(a.year, a.month + 1) <= DaysBeforeMonth(a.year, b.month);
    }
  }

  /** Two valid dates with the same day number are the same date. */
  lemma DayNumberInjective(a: Date, b: Date)
    requires ValidDate(a) && ValidDate(b) && DayNumber(a) == DayNumber(b)
    ensures a == b
  {
    if Before(a, b) {
      DayNumberMonotone(a, b);
    } else if Before(b, a) {
      DayNumberMonotone(b, a);
    }
  }

  /** The weekday advances by one, modulo 7, from one day to the next. */
  lemma WeekdayOffset(a: Date, d: Date)
    requires 1 <= a.month <= 12 && 1 <= d.month <= 12
    requires DayNumber(d) >= DayNumber(a)
    ensures Weekday(d) == (Weekday(a) + (DayNumber(d) - DayNumber(a))) % 7
  {
  }
}

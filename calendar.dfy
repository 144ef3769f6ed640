/**
 * Dates as JavaScript's `Date` holds them, reduced to whole days: a local
 * calendar date maps to a day number on the proleptic Gregorian calendar, a
 * moment is a date plus the milliseconds elapsed since its midnight.
 */
module Calendar {

  /** A date as `new Date(year, month - 1, day)` receives it; `month` is 1-based. */
  datatype CalendarDate = CalendarDate(year: int, month: int, day: int)

  /** Milliseconds since local midnight, within one day of 24 hours. */
  type MillisOfDay = m: int | 0 <= m < 86_400_000

  /** A moment: local midnight of `date` plus `millisOfDay` milliseconds. */
  datatype Timestamp = Timestamp(date: CalendarDate, millisOfDay: MillisOfDay)

  /** Month 1..12 and day 1..31, the ranges `parseDateString` admits. */
  predicate InYearRange(d: CalendarDate) {
    1 <= d.month <= 12 && 1 <= d.day <= 31
  }

  predicate IsLeapYear(y: int) {
    y % 4 == 0 && (y % 100 != 0 || y % 400 == 0)
  }

  /** Days from 1 January of year 0 to 1 January of year `y`. */
  function DaysBeforeYear(y: int): int {
    365 * y + (y + 3) / 4 - (y + 99) / 100 + (y + 399) / 400
  }

  /** Days from 1 January to the first of month `m` of a (leap or common) year. */
  function DaysBeforeMonth(m: int, leap: bool): int
    requires 1 <= m <= 12
  {
    [0, 31, 59, 90, 120, 151, 181, 212, 243, 273, 304, 334][m - 1]
    + (if leap && m > 2 then 1 else 0)
  }

  /** Number of days in month `m` of year `y`. */
  function DaysInMonth(y: int, m: int): (n: int)
    requires 1 <= m <= 12
    ensures 28 <= n <= 31
    ensures n == 31 <==> m in {1, 3, 5, 7, 8, 10, 12}
  {
    if m == 2 then (if IsLeapYear(y) then 29 else 28)
    else if m == 4 || m == 6 || m == 9 || m == 11 then 30
    else 31
  }

  /** A date that exists on the calendar. */
  predicate IsCalendarDate(d: CalendarDate) {
    1 <= d.month <= 12 && 1 <= d.day <= DaysInMonth(d.year, d.month)
  }

  /**
   * The day number of a date. Like `new Date(y, m, d)` it carries a month
   * outside 1..12 into the year and a day past the month's end into the
   * following months; a date with month 1..12 and day 1..31 stays inside
   * its own year.
   */
  function DayNumber(d: CalendarDate): (n: int)
    ensures InYearRange(d) ==> DaysBeforeYear(d.year) <= n < DaysBeforeYear(d.year + 1)
  {
    if 1 <= d.month <= 12 then
      YearLength(d.year);
      DaysBeforeYear(d.year) + DaysBeforeMonth(d.month, IsLeapYear(d.year)) + d.day - 1
    else
      var y := d.year + (d.month - 1) / 12;
      var m := (d.month - 1) % 12 + 1;
      DaysBeforeYear(y) + DaysBeforeMonth(m, IsLeapYear(y)) + d.day - 1
  }

  /** The first of the next month is the first of this month plus this month's length. */
  lemma MonthStep(y: int, m: int)
    requires 1 <= m < 12
    ensures DaysBeforeMonth(m + 1, IsLeapYear(y)) == DaysBeforeMonth(m, IsLeapYear(y)) + DaysInMonth(y, m)
  {
  }

  /**
   * The calendar date `new Date(y, m - 1, d)` holds for a month 1..12 and a
   * day 1..31: a day past the end of its month is carried into the next
   * month (30 February is 1 or 2 March). December has 31 days, so the year
   * never changes.
   */
  function Carried(d: CalendarDate): (r: CalendarDate)
    requires InYearRange(d)
    ensures IsCalendarDate(r) && InYearRange(r) && r.year == d.year
    ensures DayNumber(r) == DayNumber(d)
    ensures IsCalendarDate(d) ==> r == d
  {
    var n := DaysInMonth(d.year, d.month);
    if d.day <= n then d
    else
      var r := CalendarDate(d.year, d.month + 1, d.day - n);
      MonthStep(d.year, d.month);
      DayNumberOfMonth(d);
      DayNumberOfMonth(r);
      r
  }

  /**
   * `setFullYear(y)` on a stored date: the same month and day in year `y`.
   * A 29 February moved to a common year is carried to 1 March.
   */
  function MovedToYear(d: CalendarDate, y: int): (r: CalendarDate)
    ensures DayNumber(r) == DayNumber(d.(year := y))
    ensures InYearRange(d) ==> IsCalendarDate(r) && InYearRange(r) && r.year == y
    ensures IsCalendarDate(d.(year := y)) ==> r == d.(year := y)
  {
    if InYearRange(d) then Carried(d.(year := y)) else d.(year := y)
  }

  /** For a month 1..12 the day number counts years, then months, then days. */
  lemma DayNumberOfMonth(d: CalendarDate)
    requires 1 <= d.month <= 12
    ensures DayNumber(d) == DaysBeforeYear(d.year) + DaysBeforeMonth(d.month, IsLeapYear(d.year)) + d.day - 1
  {
  }

  lemma CeilingStep4(y: int)
    ensures (y + 4) / 4 - (y + 3) / 4 == if y % 4 == 0 then 1 else 0
  {
  }

  lemma CeilingStep100(y: int)
    ensures (y + 100) / 100 - (y + 99) / 100 == if y % 100 == 0 then 1 else 0
  {
  }

  lemma CeilingStep400(y: int)
    ensures (y + 400) / 400 - (y + 399) / 400 == if y % 400 == 0 then 1 else 0
  {
  }

  /** A year has 366 days when it is a leap year and 365 otherwise. */
  lemma YearLength(y: int)
    ensures DaysBeforeYear(y + 1) - DaysBeforeYear(y) == if IsLeapYear(y) then 366 else 365
  {
    CeilingStep4(y);
    CeilingStep100(y);
    CeilingStep400(y);
    if y % 400 == 0 {
      MultipleOf400(y);
    }
    if y % 100 == 0 {
      MultipleOf100(y);
    }
  }

  lemma MultipleOf400(y: int)
    requires y % 400 == 0
    ensures y % 100 == 0 && y % 4 == 0
  {
    var k := y / 400;
    assert y == 100 * (4 * k);
    assert y == 4 * (100 * k);
  }

  lemma MultipleOf100(y: int)
    requires y % 100 == 0
    ensures y % 4 == 0
  {
    var k := y / 100;
    assert y == 4 * (25 * k);
  }

  /** No two consecutive years are both leap years. */
  lemma NoConsecutiveLeapYears(y: int)
    ensures !(IsLeapYear(y) && IsLeapYear(y + 1))
  {
  }

  /** Moving a date to the following year moves it forward by 365 or 366 days. */
  lemma NextYearSameDate(d: CalendarDate)
    requires InYearRange(d)
    ensures 365 <= DayNumber(d.(year := d.year + 1)) - DayNumber(d) <= 366
  {
    var y := d.year;
    DayNumberOfMonth(d);
    DayNumberOfMonth(d.(year := y + 1));
    YearLength(y);
    NoConsecutiveLeapYears(y);
    LeapDayShift(d.month, IsLeapYear(y), IsLeapYear(y + 1));
    YearStep(DaysBeforeYear(y), DaysBeforeYear(y + 1), DaysBeforeMonth(d.month, IsLeapYear(y)),
             DaysBeforeMonth(d.month, IsLeapYear(y + 1)), IsLeapYear(y), IsLeapYear(y + 1), d.month);
  }

  /** The arithmetic of `NextYearSameDate`, over the year and month offsets it adds up. */
  lemma YearStep(year0: int, year1: int, month0: int, month1: int, leap0: bool, leap1: bool, m: int)
    requires year1 - year0 == if leap0 then 366 else 365
    requires month1 - month0 == (if leap1 && m > 2 then 1 else 0) - (if leap0 && m > 2 then 1 else 0)
    requires !(leap0 && leap1)
    ensures 365 <= year1 + month1 - (year0 + month0) <= 366
  {
  }

  /** Leap and common years agree on the start of each month but for the leap day after February. */
  lemma LeapDayShift(m: int, a: bool, b: bool)
    requires 1 <= m <= 12
    ensures DaysBeforeMonth(m, b) - DaysBeforeMonth(m, a)
            == (if b && m > 2 then 1 else 0) - (if a && m > 2 then 1 else 0)
  {
  }
}

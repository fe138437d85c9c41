/**
 * A proleptic Gregorian civil calendar in one fixed zone: dates, wall-clock
 * instants with whole seconds, day numbers counted from 0001-01-01, weekdays
 * with Sunday = 0, and the day-by-day and month-by-month steps that Go's
 * `time.Date` normalisation and `AddDate(0, 0, n)` perform.
 */
module Calendar {

  /** Leap years: divisible by 4, and not by 100 unless by 400. */
  predicate IsLeapYear(y: int)
  {
    y % 4 == 0 && (y % 100 != 0 || y % 400 == 0)
  }

  function DaysInMonth(y: int, m: int): (n: int)
    requires 1 <= m <= 12
    ensures 28 <= n <= 31
    ensures m == 2 ==> (n == 29 <==> IsLeapYear(y)) && n <= 29
    ensures m != 2 ==> n >= 30
  {
    if m == 2 then (if IsLeapYear(y) then 29 else 28)
    else if m == 4 || m == 6 || m == 9 || m == 11 then 30
    else 31
  }

  function DaysInYear(y: int): int
  {
    if IsLeapYear(y) then 366 else 365
  }

  datatype Date = Date(year: int, month: int, day: int)

  predicate ValidDate(d: Date)
  {
    1 <= d.month <= 12 && 1 <= d.day <= DaysInMonth(d.year, d.month)
  }

  /** Days in the months of year `y` before month `m` (`m == 13` counts the whole year). */
  function DaysBeforeMonth(y: int, m: int): nat
    requires 1 <= m <= 13
    decreases m
  {
    if m == 1 then 0 else DaysBeforeMonth(y, m - 1) + DaysInMonth(y, m - 1)
  }

  lemma DaysBeforeMonthWholeYear(y: int)
    ensures DaysBeforeMonth(y, 13) == DaysInYear(y)
  {
    assert DaysBeforeMonth(y, 13) == 337 + DaysInMonth(y, 2);
  }

  lemma {:induction false} DaysBeforeMonthMonotone(y: int, m1: int, m2: int)
    requires 1 <= m1 < m2 <= 13
    ensures DaysBeforeMonth(y, m1) + DaysInMonth(y, m1) <= DaysBeforeMonth(y, m2)
    decreases m2 - m1
  {
    if m1 + 1 < m2 {
      DaysBeforeMonthMonotone(y, m1 + 1, m2);
    }
  }

  /**
   * Days from 0001-01-01 to January 1 of year `y`, one year at a time (negative
   * for years before 1).
   */
  function DaysBeforeYear(y: int): int
    decreases if y >= 1 then y - 1 else 1 - y
  {
    if y == 1 then 0
    else if y > 1 then DaysBeforeYear(y - 1) + DaysInYear(y - 1)
    else DaysBeforeYear(y + 1) - DaysInYear(y)
  }

  lemma DaysBeforeYearStep(y: int)
    ensures DaysBeforeYear(y + 1) == DaysBeforeYear(y) + DaysInYear(y)
  {
  }

  /** The usual closed form of the Gregorian day count: 365 a year plus the leap days. */
  function GregorianDaysBefore(y: int): int
  {
    365 * (y - 1) + (y - 1) / 4 - (y - 1) / 100 + (y - 1) / 400
  }

  /** One more day moves a floor quotient by `k` exactly when the new count is a multiple of `k`. */
  lemma DivStep4(a: int)
    ensures (a + 1) / 4 - a / 4 == if (a + 1) % 4 == 0 then 1 else 0
  {
  }

  lemma DivStep100(a: int)
    ensures (a + 1) / 100 - a / 100 == if (a + 1) % 100 == 0 then 1 else 0
  {
  }

  lemma DivStep400(a: int)
    ensures (a + 1) / 400 - a / 400 == if (a + 1) % 400 == 0 then 1 else 0
  {
  }

  lemma MultipleOf400(y: int)
    requires y % 400 == 0
    ensures y % 100 == 0
  {
    var q := y / 400;
    assert y == 100 * (4 * q);
  }

  lemma MultipleOf100(y: int)
    requires y % 100 == 0
    ensures y % 4 == 0
  {
    var q := y / 100;
    assert y == 4 * (25 * q);
  }

  lemma GregorianStep(y: int)
    ensures GregorianDaysBefore(y + 1) == GregorianDaysBefore(y) + DaysInYear(y)
  {
    var a := y - 1;
    DivStep4(a);
    DivStep100(a);
    DivStep400(a);
    var d4 := if y % 4 == 0 then 1 else 0;
    var d100 := if y % 100 == 0 then 1 else 0;
    var d400 := if y % 400 == 0 then 1 else 0;
    assert GregorianDaysBefore(y + 1) == GregorianDaysBefore(y) + 365 + d4 - d100 + d400;
    if y % 400 == 0 {
      MultipleOf400(y);
      MultipleOf100(y);
    } else if y % 100 == 0 {
      MultipleOf100(y);
    }
  }

  /** The year-by-year count agrees with the closed form for every year. */
  lemma {:induction false} DaysBeforeYearClosedForm(y: int)
    ensures DaysBeforeYear(y) == GregorianDaysBefore(y)
    decreases if y >= 1 then y - 1 else 1 - y
  {
    if y > 1 {
      DaysBeforeYearClosedForm(y - 1);
      GregorianStep(y - 1);
    } else if y < 1 {
      DaysBeforeYearClosedForm(y + 1);
      GregorianStep(y);
    }
  }

  lemma {:induction false} DaysBeforeYearMonotone(y1: int, y2: int)
    requires y1 < y2
    ensures DaysBeforeYear(y1) + DaysInYear(y1) <= DaysBeforeYear(y2)
    decreases y2 - y1
  {
    DaysBeforeYearStep(y1);
    if y1 + 1 < y2 {
      DaysBeforeYearMonotone(y1 + 1, y2);
    }
  }

  /** Position of `d` within its year, January 1 being 1. */
  function DayOfYear(d: Date): int
    requires 1 <= d.month <= 12
  {
    DaysBeforeMonth(d.year, d.month) + d.day
  }

  /** Days since 0001-01-01 (day 0). */
  function DayNumber(d: Date): int
    requires 1 <= d.month <= 12
  {
    DaysBeforeYear(d.year) + DayOfYear(d) - 1
  }

  /** A valid date lies within its year. */
  lemma DayOfYearBounds(d: Date)
    requires ValidDate(d)
    ensures 1 <= DayOfYear(d) <= DaysInYear(d.year)
  {
    DaysBeforeMonthWholeYear(d.year);
    DaysBeforeMonthMonotone(d.year, d.month, 13);
  }

  /** Day of the week with Sunday = 0; 0001-01-01 was a Monday. */
  function Weekday(d: Date): (w: int)
    requires 1 <= d.month <= 12
    ensures 0 <= w < 7
  {
    (DayNumber(d) + 1) % 7
  }

  /** The weekday count is anchored correctly: 5 February 2025 was a Wednesday. */
  lemma KnownWednesday()
    ensures Weekday(Date(2025, 2, 5)) == 3
  {
    DaysBeforeYearClosedForm(2025);
    assert DaysBeforeYear(2025) == GregorianDaysBefore(2025) == 739251;
    assert DaysBeforeMonth(2025, 2) == 31;
    assert DayNumber(Date(2025, 2, 5)) == 739286;
  }

  /** The calendar day after `d` (Go's `AddDate(0, 0, 1)`). */
  function NextDay(d: Date): (r: Date)
    requires ValidDate(d)
    ensures ValidDate(r)
    ensures DayNumber(r) == DayNumber(d) + 1
  {
    if d.day < DaysInMonth(d.year, d.month) then Date(d.year, d.month, d.day + 1)
    else if d.month < 12 then
      FirstOfNextMonth(d);
      Date(d.year, d.month + 1, 1)
    else
      FirstOfNextYear(d);
      Date(d.year + 1, 1, 1)
  }

  /** The first of the next month follows the last day of a month other than December. */
  lemma FirstOfNextMonth(d: Date)
    requires ValidDate(d) && d.month < 12 && d.day == DaysInMonth(d.year, d.month)
    ensures ValidDate(Date(d.year, d.month + 1, 1))
    ensures DayNumber(Date(d.year, d.month + 1, 1)) == DayNumber(d) + 1
  {
    assert DaysBeforeMonth(d.year, d.month + 1) == DaysBeforeMonth(d.year, d.month) + DaysInMonth(d.year, d.month);
  }

  /** January 1 of the next year follows December 31. */
  lemma FirstOfNextYear(d: Date)
    requires d.month == 12 && d.day == 31
    ensures DayNumber(Date(d.year + 1, 1, 1)) == DayNumber(d) + 1
  {
    var y := d.year;
    DaysBeforeYearStep(y);
    DaysBeforeMonthWholeYear(y);
    assert DaysBeforeMonth(y, 13) == DaysBeforeMonth(y, 12) + 31;
  }

  /** The next day is in the same year, except after December 31. */
  lemma NextDayYear(d: Date)
    requires ValidDate(d)
    ensures NextDay(d).year == d.year || (d.month == 12 && d.day == 31 && NextDay(d) == Date(d.year + 1, 1, 1))
  {
  }

  /** `d` moved `n` days forward (Go's `AddDate(0, 0, n)`). */
  function AddDays(d: Date, n: nat): (r: Date)
    requires ValidDate(d)
    ensures ValidDate(r)
    ensures DayNumber(r) == DayNumber(d) + n
    decreases n
  {
    if n == 0 then d else NextDay(AddDays(d, n - 1))
  }

  /** Moving a day number `n` days forward moves its residue modulo 7 by `n`. */
  lemma ShiftModSeven(x: int, y: int, n: int)
    requires y == x + n
    ensures y % 7 == (x % 7 + n) % 7
  {
    var q := x / 7;
    assert x == 7 * q + x % 7;
    assert y == 7 * q + (x % 7 + n);
  }

  /** Two dates `n` day numbers apart are `n` weekdays apart. */
  lemma WeekdayShift(d: Date, e: Date, n: int)
    requires 1 <= d.month <= 12 && 1 <= e.month <= 12 && DayNumber(e) == DayNumber(d) + n
    ensures Weekday(e) == (Weekday(d) + n) % 7
  {
    ShiftModSeven(DayNumber(d) + 1, DayNumber(e) + 1, n);
  }

  lemma WeekdayAddDays(d: Date, n: nat)
    requires ValidDate(d)
    ensures Weekday(AddDays(d, n)) == (Weekday(d) + n) % 7
  {
    WeekdayShift(d, AddDays(d, n), n);
  }

  predicate DateBefore(a: Date, b: Date)
  {
    || a.year < b.year
    || (a.year == b.year && a.month < b.month)
    || (a.year == b.year && a.month == b.month && a.day < b.day)
  }

  /** Day numbers follow calendar order. */
  lemma DayNumberOrder(a: Date, b: Date)
    requires ValidDate(a) && ValidDate(b) && DateBefore(a, b)
    ensures DayNumber(a) < DayNumber(b)
  {
    DayOfYearBounds(a);
    DayOfYearBounds(b);
    if a.year < b.year {
      DaysBeforeYearMonotone(a.year, b.year);
    } else if a.month < b.month {
      DaysBeforeMonthMonotone(a.year, a.month, b.month);
    }
  }

  /** Valid dates with the same day number are the same date. */
  lemma DayNumberInjective(a: Date, b: Date)
    requires ValidDate(a) && ValidDate(b) && DayNumber(a) == DayNumber(b)
    ensures a == b
  {
    if DateBefore(a, b) {
      DayNumberOrder(a, b);
    } else if DateBefore(b, a) {
      DayNumberOrder(b, a);
    }
  }

  /** Civil wall-clock time in the fixed zone, to the second. */
  datatype DateTime = DateTime(date: Date, hour: int, minute: int, second: int)

  predicate ValidDateTime(t: DateTime)
  {
    ValidDate(t.date) && 0 <= t.hour < 24 && 0 <= t.minute < 60 && 0 <= t.second < 60
  }

  /** Seconds since 0001-01-01 00:00:00 (the instant's position on the time line). */
  function Seconds(t: DateTime): int
    requires 1 <= t.date.month <= 12
  {
    DayNumber(t.date) * 86400 + t.hour * 3600 + t.minute * 60 + t.second
  }

  /** Go's `a.Before(b)`. */
  predicate Before(a: DateTime, b: DateTime)
    requires 1 <= a.date.month <= 12 && 1 <= b.date.month <= 12
  {
    Seconds(a) < Seconds(b)
  }

  /** Lexicographic order of the civil fields. */
  predicate CivilBefore(a: DateTime, b: DateTime)
  {
    || DateBefore(a.date, b.date)
    || (a.date == b.date && a.hour < b.hour)
    || (a.date == b.date && a.hour == b.hour && a.minute < b.minute)
    || (a.date == b.date && a.hour == b.hour && a.minute == b.minute && a.second < b.second)
  }

  /** On valid instants, `Before` is the lexicographic order of the civil fields. */
  lemma BeforeIsCivilOrder(a: DateTime, b: DateTime)
    requires ValidDateTime(a) && ValidDateTime(b)
    ensures Before(a, b) <==> CivilBefore(a, b)
  {
    if DateBefore(a.date, b.date) {
      DayNumberOrder(a.date, b.date);
    } else if DateBefore(b.date, a.date) {
      DayNumberOrder(b.date, a.date);
    }
  }

  /** Number of month `m` of year `y` counted from January of year 0. */
  function MonthIndex(y: int, m: int): int
  {
    y * 12 + m - 1
  }

  function YearOfIndex(k: int): int
  {
    k / 12
  }

  function MonthOfIndex(k: int): (m: int)
    ensures 1 <= m <= 12
  {
    k % 12 + 1
  }

  lemma MonthIndexRoundTrip(y: int, m: int)
    requires 1 <= m <= 12
    ensures YearOfIndex(MonthIndex(y, m)) == y && MonthOfIndex(MonthIndex(y, m)) == m
  {
    var k := MonthIndex(y, m);
    assert k == 12 * y + (m - 1) && 0 <= m - 1 < 12;
  }

  lemma IndexMonthRoundTrip(k: int)
    ensures MonthIndex(YearOfIndex(k), MonthOfIndex(k)) == k
  {
  }

  /** The month after `(y, m)`, as Go normalises `time.Date(y, m + 1, ...)`. */
  function NextMonth(y: int, m: int): (r: (int, int))
    requires 1 <= m <= 12
    ensures 1 <= r.1 <= 12
    ensures MonthIndex(r.0, r.1) == MonthIndex(y, m) + 1
  {
    if m == 12 then (y + 1, 1) else (y, m + 1)
  }

  /**
   * Go's `time.Date(y, m + 1, 0, ...)` is the day before the first of the next
   * month; that day is day `DaysInMonth(y, m)` of month `m`.
   */
  lemma LastDayPrecedesNextMonth(y: int, m: int)
    requires 1 <= m <= 12
    ensures var (ny, nm) := NextMonth(y, m);
            NextDay(Date(y, m, DaysInMonth(y, m))) == Date(ny, nm, 1)
  {
  }

  /** Day `n` in 1..31 exists in at least one of any two consecutive months. */
  lemma ConsecutiveMonthsHaveDay(y: int, m: int, n: int)
    requires 1 <= m <= 12 && 1 <= n <= 31
    ensures var (ny, nm) := NextMonth(y, m);
            n <= DaysInMonth(y, m) || n <= DaysInMonth(ny, nm)
  {
  }
}

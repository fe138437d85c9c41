/**
 * Worked instances of `nextRun`, derived from its contract alone: a Daily
 * configuration whose time is exactly `now` fires at `now` itself, and a
 * Monthly month that lacks the configured day is skipped, the next month that
 * has it being taken, and a Weekly configuration asked after its time of
 * day on a Monday fires on the next matching weekday.
 */
module Scenarios {
  import opened Calendar
  import opened Scheduler

  /** The month lengths the scenarios rely on: February 2025 is not a leap February. */
  lemma ShortMonths()
    ensures DaysInMonth(2025, 2) == 28 && DaysInMonth(2025, 4) == 30
  {
  }

  /** From 5 February 2025 at midnight, the Monthly pick for day 30 is 30 March: February has no 30th. */
  lemma ThirtiethFromFebruary(b: DateTime, now: DateTime, next: DateTime)
    requires now == DateTime(Date(2025, 2, 5), 0, 0, 0)
    requires b.date == now.date && 0 <= b.hour <= 23 && 0 <= b.minute <= 59
    requires MonthlyPick(b, now, 30, next)
    ensures next == At(Date(2025, 3, 30), b.hour, b.minute)
  {
    var march := At(Date(2025, 3, 30), b.hour, b.minute);
    MonthIndexRoundTrip(2025, 2);
    MonthIndexRoundTrip(2025, 3);
    ShortMonths();
    LaterMonthNotBefore(march, now);
    assert !MonthSkipped(MonthIndex(2025, 3), 30, b.hour, b.minute, now);
    assert MonthSkipped(MonthIndex(2025, 2), 30, b.hour, b.minute, now);
    assert MonthlyPick(b, now, 30, march);
    MonthlyPickUnique(b, now, 30, next, march);
  }

  /** From 15 April 2025 at midnight, the Monthly pick for day 31 is 31 May: April has only 30 days. */
  lemma ThirtyFirstFromApril(b: DateTime, now: DateTime, next: DateTime)
    requires now == DateTime(Date(2025, 4, 15), 0, 0, 0)
    requires b.date == now.date && 0 <= b.hour <= 23 && 0 <= b.minute <= 59
    requires MonthlyPick(b, now, 31, next)
    ensures next == At(Date(2025, 5, 31), b.hour, b.minute)
  {
    var may := At(Date(2025, 5, 31), b.hour, b.minute);
    MonthIndexRoundTrip(2025, 4);
    MonthIndexRoundTrip(2025, 5);
    ShortMonths();
    LaterMonthNotBefore(may, now);
    assert !MonthSkipped(MonthIndex(2025, 5), 31, b.hour, b.minute, now);
    assert MonthSkipped(MonthIndex(2025, 4), 31, b.hour, b.minute, now);
    assert MonthlyPick(b, now, 31, may);
    MonthlyPickUnique(b, now, 31, next, may);
  }

  /** `nextRun` for day 30 on 5 February 2025 at midnight. */
  method MonthlyThirtiethFromFebruary(config: Config) returns (next: DateTime)
    requires ValidConfig(config) && config.frequency == Monthly && config.dayOfMonth == 30
    ensures next == At(Date(2025, 3, 30), FireTime(config).0, FireTime(config).1)
  {
    var now := DateTime(Date(2025, 2, 5), 0, 0, 0);
    next := NextRun(config, now);
    var b := BaselineOf(config, now);
    assert b.date == now.date;
    assert RuleOf(config) == MonthlyRule(30);
    ThirtiethFromFebruary(b, now, next);
  }

  /** `nextRun` for day 31 on 15 April 2025 at midnight. */
  method MonthlyThirtyFirstFromApril(config: Config) returns (next: DateTime)
    requires ValidConfig(config) && config.frequency == Monthly && config.dayOfMonth == 31
    ensures next == At(Date(2025, 5, 31), FireTime(config).0, FireTime(config).1)
  {
    var now := DateTime(Date(2025, 4, 15), 0, 0, 0);
    next := NextRun(config, now);
    var b := BaselineOf(config, now);
    assert b.date == now.date;
    assert RuleOf(config) == MonthlyRule(31);
    ThirtyFirstFromApril(b, now, next);
  }

  /**
   * The baseline is moved forward only when strictly before `now`, so a Daily
   * configuration asked at its own time of day, on the minute, fires at `now`.
   */
  method DailyFiresAtNow(config: Config, now: DateTime) returns (next: DateTime)
    requires ValidConfig(config) && config.frequency == Daily && ValidDateTime(now)
    requires (now.hour, now.minute) == FireTime(config) && now.second == 0
    ensures next == now
  {
    next := NextRun(config, now);
    assert RuleOf(config) == DailyRule;
    assert BaselineOf(config, now) == now;
  }

  /** On Monday 3 February 2025 at 10:00, the 02:00 baseline has passed and moves to Tuesday. */
  lemma MondayBaseline(now: DateTime)
    requires now == DateTime(Date(2025, 2, 3), 10, 0, 0)
    ensures Baseline(now, 2, 0) == At(Date(2025, 2, 4), 2, 0)
  {
    assert Before(At(now.date, 2, 0), now);
    assert NextDay(now.date) == Date(2025, 2, 4);
  }

  /** Tuesday 4 February 2025 is the day before 5 February and has weekday 2. */
  lemma KnownTuesday()
    ensures AddDays(Date(2025, 2, 4), 1) == Date(2025, 2, 5)
    ensures Weekday(Date(2025, 2, 4)) == 2
  {
    var tuesday := Date(2025, 2, 4);
    var wednesday := Date(2025, 2, 5);
    assert NextDay(tuesday) == wednesday;
    assert AddDays(tuesday, 1) == NextDay(AddDays(tuesday, 0));
    KnownWednesday();
    WeekdayShift(tuesday, wednesday, 1);
  }

  /** The first Wednesday from Tuesday 4 February 2025 is the next day. */
  lemma WednesdayAfterTuesday(d: Date)
    requires ValidDate(d) && WeeklyPick(Date(2025, 2, 4), 3, d)
    ensures d == Date(2025, 2, 5)
  {
    KnownTuesday();
    assert WeekdayGap(Date(2025, 2, 4), 3) == 1;
    WeeklyPickIsGap(Date(2025, 2, 4), 3, d);
  }

  /**
   * Monday 3 February 2025 at 10:00, Weekly on day 3 at 02:00: today's 02:00
   * has passed, so the baseline is Tuesday 02:00, and the first Wednesday
   * from there is 5 February.
   */
  method WeeklyWednesdayFromMonday(config: Config) returns (next: DateTime)
    requires ValidConfig(config) && config.frequency == Weekly && config.dayOfWeek == 3
    requires FireTime(config) == (2, 0)
    ensures next == At(Date(2025, 2, 5), 2, 0)
  {
    var now := DateTime(Date(2025, 2, 3), 10, 0, 0);
    next := NextRun(config, now);
    MondayBaseline(now);
    assert RuleOf(config) == WeeklyRule(3);
    WednesdayAfterTuesday(next.date);
  }
}

/**
 * The recurrence engine and the scheduler lifecycle (internal/scheduler):
 * `parseTime`, `isValidDayOfMonth`, the construction-time checks of `New`,
 * the next-fire computation `nextRun`, and the `Start`/`Stop` state machine
 * together with the run loop's in-flight job counter, abstracted as the two
 * steps `Fire` (timer expiry: count the job, then dispatch it) and `Complete`
 * (a dispatched job returns).
 *
 * Civil time is `Calendar.DateTime` in one fixed zone; the clock is the `now`
 * parameter; `time.Now().Year()` in `New` is the `year` parameter.
 */
module Scheduler {
  import opened Wrappers
  import opened Strings
  import opened Strconv
  import opened Calendar
  import opened Storage
  import opened Provider

  /** `Frequency` is a Go string type; these are its four named values. */
  const Daily: string := "daily"
  const Weekly: string := "weekly"
  const Monthly: string := "monthly"
  const Yearly: string := "yearly"

  /** A loaded `*time.Location`, carried by name only: zone rules are not modelled. */
  datatype Zone = Zone(name: string)

  /** `time.Local`, used when the configuration names no zone. */
  const LocalZone: Zone := Zone("Local")

  /** The scheduled job (`task func()`), an opaque callback. */
  datatype Job = Job(id: nat)

  datatype Config = Config(
    enabled: bool,
    frequency: string,
    time: string,
    dayOfWeek: int,
    dayOfMonth: int,
    dayOfYear: int,
    timeZone: Option<Zone>,
    provider: string,
    location: string,
    locationPath: string,
    storageConfig: Option<StorageConfig>,
    providerConfig: Option<ProviderConfig>)

  datatype TimeError =
    | InvalidTimeFormat(text: string)
    | InvalidHour(text: string)
    | InvalidMinute(text: string)

  datatype SchedulerError =
    | NilTask
    | BadTime(cause: TimeError)
    | DayOfWeekOutOfRange
    | DayOfMonthNotValid(day: int)
    | DayOfYearOutOfRange
    | InvalidFrequency(frequency: string)
    | AlreadyRunning

  // ---------------------------------------------------------------------------
  // parseTime

  /** `parseTime`: `HH:MM` split on every `:`, each part read by Atoi and range-checked. */
  function ParseTime(timeStr: string): (r: Result<(int, int), TimeError>)
    ensures r.Ok? ==> 0 <= r.value.0 <= 23 && 0 <= r.value.1 <= 59
    ensures r.Ok? ==> Count(timeStr, ':') == 1
    ensures Count(timeStr, ':') != 1 ==> r == Err(InvalidTimeFormat(timeStr))
  {
    var parts := Split(timeStr, ':');
    SplitCount(timeStr, ':');
    if |parts| != 2 then Err(InvalidTimeFormat(timeStr))
    else
      var hour := Atoi(parts[0]);
      if hour.Err? || hour.value < 0 || hour.value > 23 then Err(InvalidHour(parts[0]))
      else
        var minute := Atoi(parts[1]);
        if minute.Err? || minute.value < 0 || minute.value > 59 then Err(InvalidMinute(parts[1]))
        else Ok((hour.value, minute.value))
  }

  /** `a` reads as an hour of the day. */
  predicate HourText(a: string)
  {
    Atoi(a).Ok? && 0 <= Atoi(a).value <= 23
  }

  /** `b` reads as a minute of the hour. */
  predicate MinuteText(b: string)
  {
    Atoi(b).Ok? && 0 <= Atoi(b).value <= 59
  }

  /**
   * On a string with exactly one colon, `a:b`, parsing succeeds iff `a` reads
   * as an hour in 0..23 and `b` as a minute in 0..59; the hour is checked first.
   */
  lemma ParseTimeOfParts(a: string, b: string)
    requires ':' !in a && ':' !in b
    ensures ParseTime(a + ":" + b).Ok? <==> HourText(a) && MinuteText(b)
    ensures ParseTime(a + ":" + b).Ok? ==> ParseTime(a + ":" + b).value == (Atoi(a).value, Atoi(b).value)
    ensures !HourText(a) ==> ParseTime(a + ":" + b) == Err(InvalidHour(a))
    ensures HourText(a) && !MinuteText(b) ==> ParseTime(a + ":" + b) == Err(InvalidMinute(b))
  {
    assert a + ":" + b == a + [':'] + b;
    SplitAround(a, b, ':');
    assert Split(a + ":" + b, ':') == [a, b];
  }

  /** Two decimal digits with a leading zero, as in `07`. */
  function TwoDigits(n: int): (s: string)
    requires 0 <= n < 100
    ensures |s| == 2 && AllDigits(s) && ':' !in s
  {
    [DigitChar(n / 10), DigitChar(n % 10)]
  }

  /** The canonical `HH:MM` text of a time of day. */
  function FormatTime(hour: int, minute: int): string
    requires 0 <= hour <= 23 && 0 <= minute <= 59
  {
    TwoDigits(hour) + ":" + TwoDigits(minute)
  }

  lemma AtoiTwoDigits(n: int)
    requires 0 <= n < 100
    ensures Atoi(TwoDigits(n)) == Ok(n)
  {
    var s := TwoDigits(n);
    assert !HasSign(s) && Magnitude(s) == s;
    assert s[..1] == [DigitChar(n / 10)];
    assert s[..1][..0] == [];
    assert DigitsValue(s[..1]) == n / 10;
    assert DigitsValue(s) == (n / 10) * 10 + n % 10 == n;
  }

  /** Every time of day written as `HH:MM` parses back to itself. */
  lemma ParseFormatTime(hour: int, minute: int)
    requires 0 <= hour <= 23 && 0 <= minute <= 59
    ensures ParseTime(FormatTime(hour, minute)) == Ok((hour, minute))
  {
    AtoiTwoDigits(hour);
    AtoiTwoDigits(minute);
    ParseTimeOfParts(TwoDigits(hour), TwoDigits(minute));
  }

  /** Too many parts and the empty string are format errors. */
  lemma ParseTimeRejectsWrongShape()
    ensures ParseTime("1:2:3") == Err(InvalidTimeFormat("1:2:3"))
    ensures ParseTime("") == Err(InvalidTimeFormat(""))
  {
    assert Count("1:2:3", ':') == 2;
  }

  /** A valid hour followed by a colon and nothing else is a minute error on the empty minute. */
  lemma ParseTimeRejectsEmptyMinute(hour: int)
    requires 0 <= hour <= 23
    ensures ParseTime(TwoDigits(hour) + ":") == Err(InvalidMinute(""))
  {
    ParseTimeOfParts(TwoDigits(hour), "");
    AtoiTwoDigits(hour);
    assert TwoDigits(hour) + ":" + "" == TwoDigits(hour) + ":";
  }

  /** Two-digit hours from 24 up are out of range, whatever the minute. */
  lemma ParseTimeRejectsHourFrom24(hour: int, minute: int)
    requires 24 <= hour <= 99 && 0 <= minute <= 99
    ensures ParseTime(TwoDigits(hour) + ":" + TwoDigits(minute)) == Err(InvalidHour(TwoDigits(hour)))
  {
    ParseTimeOfParts(TwoDigits(hour), TwoDigits(minute));
    AtoiTwoDigits(hour);
  }

  // ---------------------------------------------------------------------------
  // isValidDayOfMonth and the checks of New

  /**
   * `isValidDayOfMonth`: day `d` exists in month `m` of year `y`. (The source
   * finds the month's last day as `time.Date(y, m + 1, 0)`, see
   * `Calendar.LastDayPrecedesNextMonth`.)
   */
  function IsValidDayOfMonth(y: int, m: int, d: int): (ok: bool)
    requires 1 <= m <= 12
    ensures ok <==> ValidDate(Date(y, m, d))
    ensures ok ==> 1 <= d <= 31
    ensures m == 2 && d == 29 ==> (ok <==> IsLeapYear(y))
  {
    if d < 1 then false else d <= DaysInMonth(y, m)
  }

  /**
   * The Monthly check of `New`: scan January to December of `year` for a month
   * that has day `d`. Because January always has 31 days, the answer does not
   * depend on the year: exactly the days 1..31 are accepted.
   */
  method AnyMonthHasDay(year: int, d: int) returns (found: bool)
    ensures found <==> exists m :: 1 <= m <= 12 && IsValidDayOfMonth(year, m, d)
    ensures found <==> 1 <= d <= 31
  {
    found := false;
    var month := 1;
    while month <= 12
      invariant 1 <= month <= 13
      invariant !found
      invariant forall m :: 1 <= m < month ==> !IsValidDayOfMonth(year, m, d)
    {
      if IsValidDayOfMonth(year, month, d) {
        found := true;
        assert IsValidDayOfMonth(year, 1, d);
        return;
      }
      month := month + 1;
    }
    assert !IsValidDayOfMonth(year, 1, d) && DaysInMonth(year, 1) == 31;
  }

  /** The frequency-specific rule of `New`, once the time has parsed. */
  function FrequencyCheck(c: Config): (r: Outcome<SchedulerError>)
    ensures r.Pass? <==>
              || c.frequency == Daily
              || (c.frequency == Weekly && 0 <= c.dayOfWeek <= 6)
              || (c.frequency == Monthly && (c.dayOfMonth == -1 || 1 <= c.dayOfMonth <= 31))
              || (c.frequency == Yearly && (c.dayOfYear == -1 || 1 <= c.dayOfYear <= 366))
    ensures c.frequency !in {Daily, Weekly, Monthly, Yearly} ==> r == Fail(InvalidFrequency(c.frequency))
  {
    if c.frequency == Daily then Pass
    else if c.frequency == Weekly then
      (if c.dayOfWeek < 0 || c.dayOfWeek > 6 then Fail(DayOfWeekOutOfRange) else Pass)
    else if c.frequency == Monthly then
      (if c.dayOfMonth == -1 || 1 <= c.dayOfMonth <= 31 then Pass else Fail(DayOfMonthNotValid(c.dayOfMonth)))
    else if c.frequency == Yearly then
      (if c.dayOfYear < -1 || c.dayOfYear == 0 || c.dayOfYear > 366 then Fail(DayOfYearOutOfRange) else Pass)
    else Fail(InvalidFrequency(c.frequency))
  }

  /** A configuration `New` accepts (with a non-nil task). */
  predicate ValidConfig(c: Config)
  {
    ParseTime(c.time).Ok? && FrequencyCheck(c).Pass?
  }

  /**
   * The checks of `New`, in the source's order: nil task, then the time
   * string, then the frequency rule; `year` is `time.Now().Year()`.
   */
  method Validate(config: Config, task: Option<Job>, year: int) returns (r: Outcome<SchedulerError>)
    ensures task.None? ==> r == Fail(NilTask)
    ensures task.Some? && ParseTime(config.time).Err? ==> r == Fail(BadTime(ParseTime(config.time).error))
    ensures task.Some? && ParseTime(config.time).Ok? ==> r == FrequencyCheck(config)
    ensures r.Pass? <==> task.Some? && ValidConfig(config)
  {
    if task.None? {
      return Fail(NilTask);
    }
    var parsed := ParseTime(config.time);
    if parsed.Err? {
      return Fail(BadTime(parsed.error));
    }
    if config.frequency == Daily {
      r := Pass;
    } else if config.frequency == Weekly {
      if config.dayOfWeek < 0 || config.dayOfWeek > 6 {
        return Fail(DayOfWeekOutOfRange);
      }
      r := Pass;
    } else if config.frequency == Monthly {
      if config.dayOfMonth == -1 {
        return Pass;
      }
      var validForAnyMonth := AnyMonthHasDay(year, config.dayOfMonth);
      if !validForAnyMonth {
        return Fail(DayOfMonthNotValid(config.dayOfMonth));
      }
      r := Pass;
    } else if config.frequency == Yearly {
      if config.dayOfYear < -1 || config.dayOfYear == 0 || config.dayOfYear > 366 {
        return Fail(DayOfYearOutOfRange);
      }
      r := Pass;
    } else {
      r := Fail(InvalidFrequency(config.frequency));
    }
  }

  /** `New`: validate, then build a scheduler that is not running and has no job in flight. */
  method New(config: Config, task: Option<Job>, year: int) returns (r: Result<Scheduler, SchedulerError>)
    ensures r.Err? <==> !(task.Some? && ValidConfig(config))
    ensures task.None? ==> r == Err(NilTask)
    ensures task.Some? && ParseTime(config.time).Err? ==> r == Err(BadTime(ParseTime(config.time).error))
    ensures task.Some? && ParseTime(config.time).Ok? && FrequencyCheck(config).Fail? ==> r == Err(FrequencyCheck(config).error)
    ensures r.Ok? ==> fresh(r.value) && r.value.config == config && r.value.task == task.value
    ensures r.Ok? ==> ValidConfig(r.value.config) && !r.value.running && r.value.inFlight == 0
    ensures r.Ok? ==> r.value.location == (if config.timeZone.Some? then config.timeZone.value else LocalZone)
  {
    var check := Validate(config, task, year);
    if check.Fail? {
      return Err(check.error);
    }
    var s := new Scheduler(config, task.value);
    return Ok(s);
  }

  // ---------------------------------------------------------------------------
  // nextRun

  /** Day `d` at `hour:minute:00`. */
  function At(d: Date, hour: int, minute: int): DateTime
  {
    DateTime(d, hour, minute, 0)
  }

  /**
   * The baseline of `nextRun`: today at `hour:minute`, moved one day forward
   * only when that is strictly before `now`.
   */
  function Baseline(now: DateTime, hour: int, minute: int): (b: DateTime)
    requires ValidDateTime(now) && 0 <= hour <= 23 && 0 <= minute <= 59
    ensures ValidDateTime(b) && b.hour == hour && b.minute == minute && b.second == 0
    ensures b.date == now.date || b.date == NextDay(now.date)
    ensures !Before(b, now)
    ensures Seconds(b) - Seconds(now) < 86400
  {
    var today := At(now.date, hour, minute);
    if Before(today, now) then At(NextDay(now.date), hour, minute) else today
  }

  /** The baseline is the earliest instant at `hour:minute:00` that is not before `now`. */
  lemma BaselineIsEarliest(now: DateTime, hour: int, minute: int, d: Date)
    requires ValidDateTime(now) && 0 <= hour <= 23 && 0 <= minute <= 59
    requires ValidDate(d) && !Before(At(d, hour, minute), now)
    ensures !Before(At(d, hour, minute), Baseline(now, hour, minute))
  {
    var b := Baseline(now, hour, minute);
    var t := At(d, hour, minute);
    BeforeIsCivilOrder(t, now);
    BeforeIsCivilOrder(t, b);
    if b.date != now.date && DateBefore(d, b.date) {
      // then d is today (or earlier), and today's instant is before now
      DayNumberOrder(d, b.date);
      if DateBefore(d, now.date) {
        DayNumberOrder(d, now.date);
      } else if d != now.date {
        DayNumberOrder(now.date, d);
      }
    }
  }

  /** Whether month number `k` yields no Monthly candidate: it lacks day `n`, or the candidate is before `now`. */
  predicate MonthSkipped(k: int, n: int, hour: int, minute: int, now: DateTime)
    requires 1 <= now.date.month <= 12
  {
    var y, m := YearOfIndex(k), MonthOfIndex(k);
    !IsValidDayOfMonth(y, m, n) || Before(At(Date(y, m, n), hour, minute), now)
  }

  /**
   * `next` is the Monthly pick for day `n` from `b`: day `n`, at `b`'s time, of
   * the first month from `b`'s month on that has day `n` and whose candidate is
   * not before `now`.
   */
  ghost predicate MonthlyPick(b: DateTime, now: DateTime, n: int, next: DateTime)
    requires 1 <= now.date.month <= 12
  {
    var first := MonthIndex(b.date.year, b.date.month);
    exists k :: && first <= k
                && !MonthSkipped(k, n, b.hour, b.minute, now)
                && next == At(Date(YearOfIndex(k), MonthOfIndex(k), n), b.hour, b.minute)
                && forall j :: first <= j < k ==> MonthSkipped(j, n, b.hour, b.minute, now)
  }

  /** There is at most one Monthly pick: the rule determines the next run. */
  lemma MonthlyPickUnique(b: DateTime, now: DateTime, n: int, p: DateTime, q: DateTime)
    requires 1 <= now.date.month <= 12
    requires MonthlyPick(b, now, n, p) && MonthlyPick(b, now, n, q)
    ensures p == q
  {
    var first := MonthIndex(b.date.year, b.date.month);
    var kp :| && first <= kp
              && !MonthSkipped(kp, n, b.hour, b.minute, now)
              && p == At(Date(YearOfIndex(kp), MonthOfIndex(kp), n), b.hour, b.minute)
              && forall j :: first <= j < kp ==> MonthSkipped(j, n, b.hour, b.minute, now);
    var kq :| && first <= kq
              && !MonthSkipped(kq, n, b.hour, b.minute, now)
              && q == At(Date(YearOfIndex(kq), MonthOfIndex(kq), n), b.hour, b.minute)
              && forall j :: first <= j < kq ==> MonthSkipped(j, n, b.hour, b.minute, now);
    assert kp == kq;
  }

  /** An instant on a later day is never before one on an earlier day. */
  lemma LaterDayNotBefore(a: DateTime, b: DateTime)
    requires ValidDateTime(a) && ValidDateTime(b) && DayNumber(a.date) > DayNumber(b.date)
    ensures Before(b, a) && !Before(a, b)
  {
  }

  /** Moving an instant that is not before `now` forward by whole days keeps it not before `now`. */
  lemma LaterOrSameDayNotBefore(b: DateTime, t: DateTime, now: DateTime)
    requires ValidDateTime(b) && ValidDateTime(t) && ValidDateTime(now) && !Before(b, now)
    requires t.hour == b.hour && t.minute == b.minute && t.second == b.second
    requires DayNumber(t.date) >= DayNumber(b.date)
    ensures !Before(t, now)
  {
  }

  /** An instant in a later month than `now` is after `now`. */
  lemma LaterMonthNotBefore(a: DateTime, now: DateTime)
    requires ValidDateTime(a) && ValidDateTime(now)
    requires MonthIndex(a.date.year, a.date.month) > MonthIndex(now.date.year, now.date.month)
    ensures !Before(a, now)
  {
    assert DateBefore(now.date, a.date);
    DayNumberOrder(now.date, a.date);
  }

  /**
   * `d` is the first day on or after `start` (at most six days on) whose
   * weekday is `dow`.
   */
  predicate WeeklyPick(start: Date, dow: int, d: Date)
    requires ValidDate(start) && ValidDate(d)
  {
    && Weekday(d) == dow
    && exists j: nat :: && j <= 6
                        && d == AddDays(start, j)
                        && forall k :: 0 <= k < j ==> Weekday(AddDays(start, k)) != dow
  }

  /**
   * The Weekly loop: step forward one day at a time from `start` until the
   * weekday is `dow`. The result is the first such day, at most six days on.
   */
  method AdvanceToWeekday(start: DateTime, dow: int) returns (next: DateTime)
    requires ValidDateTime(start) && 0 <= dow <= 6
    ensures ValidDateTime(next) && next.hour == start.hour && next.minute == start.minute && next.second == start.second
    ensures WeeklyPick(start.date, dow, next.date)
  {
    ghost var j: nat := 0;
    next := start;
    while Weekday(next.date) != dow
      invariant j <= WeekdayGap(start.date, dow)
      invariant next == DateTime(AddDays(start.date, j), start.hour, start.minute, start.second)
      decreases WeekdayGap(start.date, dow) - j
    {
      GapNotReached(start.date, dow, j);
      next := DateTime(NextDay(next.date), next.hour, next.minute, next.second);
      j := j + 1;
    }
    WeeklyPickOfSearch(start.date, dow, j);
  }

  /** Days from `start` forward to the next day (or `start` itself) with weekday `dow`. */
  function WeekdayGap(start: Date, dow: int): (g: int)
    requires ValidDate(start) && 0 <= dow <= 6
    ensures 0 <= g <= 6
  {
    (dow - Weekday(start)) % 7
  }

  lemma WeekdayResidue(w: int, dow: int, j: int)
    requires 0 <= w < 7 && 0 <= dow < 7 && 0 <= j < 7
    ensures (w + j) % 7 == dow <==> j == (dow - w) % 7
  {
    if w + j >= 7 {
      assert (w + j) % 7 == w + j - 7;
    }
    if dow - w < 0 {
      assert (dow - w) % 7 == dow - w + 7;
    }
  }

  /** The weekday `j` days on is `dow` exactly when `j` is the gap. */
  lemma {:induction false} WeekdayAtGap(start: Date, dow: int, j: nat)
    requires ValidDate(start) && 0 <= dow <= 6 && j <= 6
    ensures Weekday(AddDays(start, j)) == dow <==> j == WeekdayGap(start, dow)
  {
    var w := Weekday(start);
    WeekdayAddDays(start, j);
    WeekdayResidue(w, dow, j);
    calc <==> {
      Weekday(AddDays(start, j)) == dow;
      (w + j) % 7 == dow;
      j == (dow - w) % 7;
      j == WeekdayGap(start, dow);
    }
  }

  /** Before the gap is reached the loop goes on. */
  lemma GapNotReached(start: Date, dow: int, j: nat)
    requires ValidDate(start) && 0 <= dow <= 6 && j <= WeekdayGap(start, dow)
    requires Weekday(AddDays(start, j)) != dow
    ensures j < WeekdayGap(start, dow)
  {
    WeekdayAtGap(start, dow, j);
  }

  /** The exit condition of the Weekly loop after `j` steps is `WeeklyPick`. */
  lemma WeeklyPickOfSearch(start: Date, dow: int, j: nat)
    requires ValidDate(start) && 0 <= dow <= 6 && j <= WeekdayGap(start, dow)
    requires Weekday(AddDays(start, j)) == dow
    ensures WeeklyPick(start, dow, AddDays(start, j))
  {
    NoEarlierWeekday(start, dow, j);
    assert j <= 6 && AddDays(start, j) == AddDays(start, j);
  }

  /** The Weekly pick is the day exactly `WeekdayGap` days on. */
  lemma WeeklyPickIsGap(start: Date, dow: int, d: Date)
    requires ValidDate(start) && ValidDate(d) && 0 <= dow <= 6 && WeeklyPick(start, dow, d)
    ensures d == AddDays(start, WeekdayGap(start, dow))
  {
    var j: nat :| && j <= 6
                  && d == AddDays(start, j)
                  && forall k :: 0 <= k < j ==> Weekday(AddDays(start, k)) != dow;
    WeekdayAtGap(start, dow, j);
  }

  /** No day before the gap has weekday `dow`. */
  lemma NoEarlierWeekday(start: Date, dow: int, j: nat)
    requires ValidDate(start) && 0 <= dow <= 6 && j <= WeekdayGap(start, dow)
    ensures forall k :: 0 <= k < j ==> Weekday(AddDays(start, k)) != dow
  {
    forall k | 0 <= k < j
      ensures Weekday(AddDays(start, k)) != dow
    {
      WeekdayAtGap(start, dow, k);
    }
  }

  /**
   * The Monthly search for day `n`: from the month of `start`, take the first
   * month that has day `n` and whose candidate at `start`'s time is not before
   * `now`. It ends within two months after `now`'s month, because any two
   * consecutive months include one with day `n` when `n <= 31`.
   */
  method MonthlySearch(start: DateTime, now: DateTime, n: int) returns (next: DateTime)
    requires ValidDateTime(start) && ValidDateTime(now) && start.second == 0
    requires start.date == now.date || start.date == NextDay(now.date)
    requires 1 <= n <= 31
    ensures ValidDateTime(next) && next.date.day == n
    ensures next.hour == start.hour && next.minute == start.minute && next.second == 0
    ensures !Before(next, now)
    ensures MonthlyPick(start, now, n, next)
  {
    var hour, minute := start.hour, start.minute;
    ghost var first := MonthIndex(start.date.year, start.date.month);
    ghost var limit := MonthIndex(now.date.year, now.date.month) + 2;
    SearchStart(start, now, n);
    next := start;
    while true
      invariant ValidDateTime(next) && next.hour == hour && next.minute == minute && next.second == 0
      invariant SearchState(first, limit, n, hour, minute, now, next.date.year, next.date.month)
      decreases limit - MonthIndex(next.date.year, next.date.month)
    {
      var y, m := next.date.year, next.date.month;
      if IsValidDayOfMonth(y, m, n) {
        var candidate := At(Date(y, m, n), hour, minute);
        if !Before(candidate, now) {
          next := candidate;
          SearchFound(start, now, n, y, m);
          return;
        }
      }
      SearchSkip(first, n, hour, minute, now, y, m);
      var (ny, nm) := NextMonth(y, m);
      next := At(Date(ny, nm, 1), hour, minute);
    }
  }

  /**
   * The invariant of the Monthly search at month `(y, m)`: it lies between the
   * first month and two months after `now`'s, the last of which has day `n`,
   * and every month before it was skipped.
   */
  ghost predicate SearchState(first: int, limit: int, n: int, hour: int, minute: int, now: DateTime, y: int, m: int)
    requires 1 <= now.date.month <= 12
  {
    var k := MonthIndex(y, m);
    && 1 <= m <= 12
    && first <= k <= limit
    && limit == MonthIndex(now.date.year, now.date.month) + 2
    && (k == limit ==> IsValidDayOfMonth(y, m, n))
    && forall j :: first <= j < k ==> MonthSkipped(j, n, hour, minute, now)
  }

  /** The search starts in the baseline's month, which is `now`'s month or the next. */
  lemma SearchStart(start: DateTime, now: DateTime, n: int)
    requires ValidDateTime(start) && ValidDateTime(now)
    requires start.date == now.date || start.date == NextDay(now.date)
    ensures var first := MonthIndex(start.date.year, start.date.month);
            SearchState(first, MonthIndex(now.date.year, now.date.month) + 2, n, start.hour, start.minute, now,
                        start.date.year, start.date.month)
  {
    NextDayYear(now.date);
  }

  /** A month that is skipped moves the search one month on, still within the bound. */
  lemma SearchSkip(first: int, n: int, hour: int, minute: int, now: DateTime, y: int, m: int)
    requires ValidDateTime(now) && 1 <= n <= 31 && 0 <= hour <= 23 && 0 <= minute <= 59
    requires SearchState(first, MonthIndex(now.date.year, now.date.month) + 2, n, hour, minute, now, y, m)
    requires IsValidDayOfMonth(y, m, n) ==> Before(At(Date(y, m, n), hour, minute), now)
    ensures var (ny, nm) := NextMonth(y, m);
            SearchState(first, MonthIndex(now.date.year, now.date.month) + 2, n, hour, minute, now, ny, nm)
  {
    var k := MonthIndex(y, m);
    var here := MonthIndex(now.date.year, now.date.month);
    MonthIndexRoundTrip(y, m);
    assert k > here ==> !IsValidDayOfMonth(y, m, n) by {
      if k > here && IsValidDayOfMonth(y, m, n) {
        LaterMonthNotBefore(At(Date(y, m, n), hour, minute), now);
      }
    }
    ConsecutiveMonthsHaveDay(y, m, n);
    assert MonthSkipped(k, n, hour, minute, now);
  }

  /** A month that is not skipped ends the search with the Monthly pick. */
  lemma SearchFound(start: DateTime, now: DateTime, n: int, y: int, m: int)
    requires ValidDateTime(now) && 1 <= m <= 12 && IsValidDayOfMonth(y, m, n)
    requires SearchState(MonthIndex(start.date.year, start.date.month), MonthIndex(now.date.year, now.date.month) + 2,
                         n, start.hour, start.minute, now, y, m)
    requires !Before(At(Date(y, m, n), start.hour, start.minute), now)
    ensures MonthlyPick(start, now, n, At(Date(y, m, n), start.hour, start.minute))
  {
    var k := MonthIndex(y, m);
    MonthIndexRoundTrip(y, m);
    assert !MonthSkipped(k, n, start.hour, start.minute, now);
  }

  /** The last day of month `m` of year `y`. */
  function LastDayOfMonth(y: int, m: int): (d: Date)
    requires 1 <= m <= 12
    ensures ValidDate(d) && d.year == y && d.month == m
    ensures NextDay(d).day == 1
  {
    Date(y, m, DaysInMonth(y, m))
  }

  /** January 1 of `y` plus `n - 1` days, at `hour:minute` (the Yearly candidate for day `n`). */
  function YearlyCandidate(y: int, n: int, hour: int, minute: int): (t: DateTime)
    requires 1 <= n
    ensures ValidDate(t.date) && DayNumber(t.date) == DaysBeforeYear(y) + n - 1
  {
    At(AddDays(Date(y, 1, 1), n - 1), hour, minute)
  }

  /**
   * Day `n` of a year that has that many days is the `n`-th day of that year;
   * day 366 of a common year is January 1 of the next year.
   */
  lemma YearlyCandidateLands(y: int, n: int, hour: int, minute: int)
    requires 1 <= n <= 366
    ensures var d := YearlyCandidate(y, n, hour, minute).date;
            && (n <= DaysInYear(y) ==> d.year == y && DayOfYear(d) == n)
            && (n == 366 && !IsLeapYear(y) ==> d == Date(y + 1, 1, 1))
  {
    var d := YearlyCandidate(y, n, hour, minute).date;
    DayOfYearBounds(d);
    if n <= DaysInYear(y) {
      if d.year > y {
        DaysBeforeYearMonotone(y, d.year);
      } else if d.year < y {
        DaysBeforeYearMonotone(d.year, y);
      }
    } else {
      DaysBeforeYearStep(y);
      DayNumberInjective(d, Date(y + 1, 1, 1));
    }
  }

  /** A date reached by moving forward from January 1 of `y` is in year `y` or later. */
  lemma ForwardFromJanuaryFirst(y: int, d: Date)
    requires ValidDate(d) && DayNumber(d) >= DaysBeforeYear(y)
    ensures d.year >= y
  {
    if d.year < y {
      DayOfYearBounds(d);
      DaysBeforeYearMonotone(d.year, y);
    }
  }

  /** The Monthly rule for day -1: the last day of the baseline's month is never before the baseline. */
  lemma LastDayOfMonthNotBefore(b: DateTime, now: DateTime)
    requires ValidDateTime(b) && ValidDateTime(now) && b.second == 0 && !Before(b, now)
    ensures !Before(At(LastDayOfMonth(b.date.year, b.date.month), b.hour, b.minute), now)
  {
    var last := LastDayOfMonth(b.date.year, b.date.month);
    if last != b.date {
      DayNumberOrder(b.date, last);
    }
  }

  /**
   * The instant the Yearly rule selects for day -1: December 31 of the
   * baseline's year at the baseline's time, or of the following year when that
   * instant is before `now`.
   */
  function YearlyLastPick(b: DateTime, now: DateTime): DateTime
    requires 1 <= now.date.month <= 12
  {
    var last := At(Date(b.date.year, 12, 31), b.hour, b.minute);
    if Before(last, now) then At(Date(b.date.year + 1, 12, 31), b.hour, b.minute) else last
  }

  /** The Yearly rule for day -1, as `nextRun` computes it. */
  method YearlyLastDay(b: DateTime, now: DateTime) returns (next: DateTime)
    requires ValidDateTime(b) && ValidDateTime(now) && now.date.year <= b.date.year
    ensures ValidDateTime(next) && next.hour == b.hour && next.minute == b.minute && next.second == 0
    ensures !Before(next, now)
    ensures next == YearlyLastPick(b, now)
  {
    next := At(Date(b.date.year, 12, 31), b.hour, b.minute);
    if Before(next, now) {
      next := At(Date(next.date.year + 1, 12, 31), b.hour, b.minute);
      assert DateBefore(now.date, next.date);
      DayNumberOrder(now.date, next.date);
    }
  }

  /**
   * The instant the Yearly rule selects for day `n`: January 1 of the
   * baseline's year plus `n - 1` days, or the same offset in the year after
   * that candidate's year when the candidate is before `now`.
   */
  function YearlyPick(b: DateTime, now: DateTime, n: int): DateTime
    requires ValidDateTime(now) && 1 <= n
  {
    var first := YearlyCandidate(b.date.year, n, b.hour, b.minute);
    if Before(first, now) then YearlyCandidate(first.date.year + 1, n, b.hour, b.minute) else first
  }

  /**
   * The Yearly rule for day `n`: January 1 of the baseline's year plus `n - 1`
   * days, or the same offset in the year after that candidate's year when the
   * candidate is already past.
   */
  method YearlyDay(b: DateTime, now: DateTime, n: int) returns (next: DateTime)
    requires ValidDateTime(b) && ValidDateTime(now) && now.date.year <= b.date.year
    requires 1 <= n <= 366
    ensures ValidDateTime(next) && next.hour == b.hour && next.minute == b.minute && next.second == 0
    ensures !Before(next, now)
    ensures next == YearlyPick(b, now, n)
  {
    next := YearlyCandidate(b.date.year, n, b.hour, b.minute);
    if Before(next, now) {
      ForwardFromJanuaryFirst(b.date.year, next.date);
      var jan1 := Date(next.date.year + 1, 1, 1);
      next := YearlyCandidate(next.date.year + 1, n, b.hour, b.minute);
      assert DateBefore(now.date, jan1);
      DayNumberOrder(now.date, jan1);
    }
  }

  /** The hour and minute a valid configuration fires at. */
  function FireTime(config: Config): (t: (int, int))
    requires ValidConfig(config)
    ensures 0 <= t.0 <= 23 && 0 <= t.1 <= 59
  {
    ParseTime(config.time).value
  }

  /** The baseline of a valid configuration at `now`. */
  function BaselineOf(config: Config, now: DateTime): DateTime
    requires ValidConfig(config) && ValidDateTime(now)
  {
    Baseline(now, FireTime(config).0, FireTime(config).1)
  }

  /**
   * The recurrence rule of a configuration `New` accepted: its frequency with
   * the one day field that frequency reads.
   */
  datatype Rule =
    | DailyRule
    | WeeklyRule(dayOfWeek: int)
    | MonthlyRule(dayOfMonth: int)
    | YearlyRule(dayOfYear: int)

  /** The day field is in the range `New` enforces for the frequency. */
  predicate ValidRule(r: Rule)
  {
    match r
    case DailyRule => true
    case WeeklyRule(d) => 0 <= d <= 6
    case MonthlyRule(d) => d == -1 || 1 <= d <= 31
    case YearlyRule(d) => d == -1 || 1 <= d <= 366
  }

  /** The rule `nextRun` switches on, read from an accepted configuration. */
  function RuleOf(config: Config): (r: Rule)
    requires FrequencyCheck(config).Pass?
    ensures ValidRule(r)
    ensures config.frequency == Daily <==> r == DailyRule
    ensures config.frequency == Weekly <==> r == WeeklyRule(config.dayOfWeek)
    ensures config.frequency == Monthly <==> r == MonthlyRule(config.dayOfMonth)
    ensures config.frequency == Yearly <==> r == YearlyRule(config.dayOfYear)
  {
    if config.frequency == Daily then DailyRule
    else if config.frequency == Weekly then WeeklyRule(config.dayOfWeek)
    else if config.frequency == Monthly then MonthlyRule(config.dayOfMonth)
    else YearlyRule(config.dayOfYear)
  }

  /**
   * `next` is what the rule selects from the baseline `b`: the baseline itself
   * (Daily), the first day with the weekday (Weekly), the last day of the
   * baseline's month or the Monthly pick (Monthly), December 31 or the Yearly
   * pick (Yearly).
   */
  ghost predicate RulePick(rule: Rule, b: DateTime, now: DateTime, next: DateTime)
    requires ValidRule(rule) && ValidDateTime(b) && ValidDateTime(now) && ValidDateTime(next)
  {
    match rule
    case DailyRule => next == b
    case WeeklyRule(dow) => WeeklyPick(b.date, dow, next.date)
    case MonthlyRule(n) =>
      if n == -1 then next.date == LastDayOfMonth(b.date.year, b.date.month) else MonthlyPick(b, now, n, next)
    case YearlyRule(n) =>
      if n == -1 then next == YearlyLastPick(b, now) else next == YearlyPick(b, now, n)
  }

  /**
   * The body of `nextRun` once the time is parsed: the baseline, then the
   * frequency's rule. The result is never before `now`, is at `hour:minute`
   * with zero seconds, and is what the rule selects.
   */
  method NextRunAt(rule: Rule, hour: int, minute: int, now: DateTime) returns (next: DateTime)
    requires ValidRule(rule) && 0 <= hour <= 23 && 0 <= minute <= 59 && ValidDateTime(now)
    ensures ValidDateTime(next) && next.hour == hour && next.minute == minute && next.second == 0
    ensures !Before(next, now)
    ensures RulePick(rule, Baseline(now, hour, minute), now, next)
  {
    next := At(now.date, hour, minute);
    if Before(next, now) {
      next := At(NextDay(now.date), hour, minute);
    }
    ghost var b := next;
    assert b == Baseline(now, hour, minute);
    match rule
    case DailyRule =>
    case WeeklyRule(dow) =>
      next := AdvanceToWeekday(next, dow);
      LaterOrSameDayNotBefore(b, next, now);
    case MonthlyRule(n) =>
      if n == -1 {
        LastDayOfMonthNotBefore(next, now);
        next := At(LastDayOfMonth(next.date.year, next.date.month), hour, minute);
      } else {
        next := MonthlySearch(next, now, n);
      }
    case YearlyRule(n) =>
      NextDayYear(now.date);
      if n == -1 {
        next := YearlyLastDay(next, now);
      } else {
        next := YearlyDay(next, now, n);
      }
  }

  /**
   * `nextRun(now)` for a scheduler built by `New`: the configured time, parsed
   * again, and the configuration's rule.
   */
  method NextRun(config: Config, now: DateTime) returns (next: DateTime)
    requires ValidConfig(config) && ValidDateTime(now)
    ensures ValidDateTime(next) && (next.hour, next.minute) == FireTime(config) && next.second == 0
    ensures !Before(next, now)
    ensures RulePick(RuleOf(config), BaselineOf(config, now), now, next)
  {
    var (hour, minute) := ParseTime(config.time).value;
    next := NextRunAt(RuleOf(config), hour, minute, now);
  }

  /** With day -1 the Yearly rule picks the earliest December 31 at the configured time that is not before `now`. */
  lemma YearlyLastDayIsEarliest(now: DateTime, hour: int, minute: int, y: int)
    requires ValidDateTime(now) && 0 <= hour <= 23 && 0 <= minute <= 59
    requires !Before(At(Date(y, 12, 31), hour, minute), now)
    ensures var b := Baseline(now, hour, minute);
            var last := At(Date(b.date.year, 12, 31), hour, minute);
            var pick := if Before(last, now) then b.date.year + 1 else b.date.year;
            pick <= y
  {
    var b := Baseline(now, hour, minute);
    assert now.date.year <= y by {
      if y < now.date.year {
        EarlierDecemberBefore(now, hour, minute, y);
      }
    }
    assert b.date.year <= y by {
      BaselineYear(now, hour, minute);
      if y == now.date.year {
        assert At(Date(now.date.year, 12, 31), hour, minute) == At(Date(y, 12, 31), hour, minute);
      }
    }
    var last := At(Date(b.date.year, 12, 31), hour, minute);
    if y == b.date.year {
      assert last == At(Date(y, 12, 31), hour, minute);
    }
  }

  /** December 31 of a year before `now`'s is before `now`, whatever the time of day. */
  lemma EarlierDecemberBefore(now: DateTime, hour: int, minute: int, y: int)
    requires ValidDateTime(now) && 0 <= hour <= 23 && 0 <= minute <= 59 && y < now.date.year
    ensures Before(At(Date(y, 12, 31), hour, minute), now)
  {
    DayNumberOrder(Date(y, 12, 31), now.date);
  }

  /**
   * The baseline stays in `now`'s year, except when it moved forward from
   * December 31, whose instant at `hour:minute` is then before `now`.
   */
  lemma BaselineYear(now: DateTime, hour: int, minute: int)
    requires ValidDateTime(now) && 0 <= hour <= 23 && 0 <= minute <= 59
    ensures var b := Baseline(now, hour, minute);
            || b.date.year == now.date.year
            || (b.date.year == now.date.year + 1 && Before(At(Date(now.date.year, 12, 31), hour, minute), now))
  {
    NextDayYear(now.date);
  }

  // ---------------------------------------------------------------------------
  // Lifecycle: Start, Stop and the run loop's job counter

  /** The lifecycle state: the `running` flag and the `jobWaiter` count of jobs in flight. */
  datatype Lifecycle = Lifecycle(running: bool, inFlight: nat)

  datatype Event = StartEvent | StopEvent | FireEvent | CompleteEvent

  /**
   * One lifecycle step. Start while running is refused and changes nothing;
   * Stop clears `running` (a no-op when already stopped); a timer fire only
   * happens while the loop runs and counts the job before dispatching it; a
   * completion uncounts one. A completion with nothing in flight would make
   * the wait group negative (a panic in Go) and yields `None`.
   */
  function Step(s: Lifecycle, e: Event): (r: Option<Lifecycle>)
    ensures e != CompleteEvent ==> r.Some?
    ensures e == CompleteEvent ==> (r.Some? <==> s.inFlight > 0)
  {
    match e
    case StartEvent => Some(s.(running := true))
    case StopEvent => Some(s.(running := false))
    case FireEvent => Some(if s.running then s.(inFlight := s.inFlight + 1) else s)
    case CompleteEvent => if s.inFlight == 0 then None else Some(s.(inFlight := s.inFlight - 1))
  }

  /** A sequence of lifecycle steps from `s`; `None` once a step is impossible. */
  function Run(s: Lifecycle, events: seq<Event>): Option<Lifecycle>
    decreases |events|
  {
    if events == [] then Some(s)
    else match Step(s, events[0])
      case None => None
      case Some(t) => Run(t, events[1..])
  }

  /** The handle returned by `Stop` is done exactly when no dispatched job is still running. */
  predicate Drained(s: Lifecycle)
  {
    s.inFlight == 0
  }

  function CountOf(events: seq<Event>, e: Event): nat
  {
    if events == [] then 0 else (if events[0] == e then 1 else 0) + CountOf(events[1..], e)
  }

  /** The fires in `events` that happen while running, i.e. the jobs actually dispatched. */
  function Dispatched(s: Lifecycle, events: seq<Event>): nat
    decreases |events|
  {
    if events == [] then 0
    else match Step(s, events[0])
      case None => 0
      case Some(t) => (if events[0] == FireEvent && s.running then 1 else 0) + Dispatched(t, events[1..])
  }

  /** Job accounting: jobs in flight = jobs in flight before + jobs dispatched - jobs completed. */
  lemma {:induction false} InFlightAccounting(s: Lifecycle, events: seq<Event>)
    requires Run(s, events).Some?
    ensures Run(s, events).value.inFlight == s.inFlight + Dispatched(s, events) - CountOf(events, CompleteEvent)
    decreases |events|
  {
    if events != [] {
      var t := Step(s, events[0]).value;
      InFlightAccounting(t, events[1..]);
    }
  }

  /**
   * Once stopped, and as long as nobody starts it again, a scheduler dispatches
   * nothing more: it stays stopped and every completion brings the count
   * closer to zero, so the stop handle is done after exactly `s.inFlight`
   * completions.
   */
  lemma {:induction false} StoppedOnlyDrains(s: Lifecycle, events: seq<Event>)
    requires !s.running && StartEvent !in events && Run(s, events).Some?
    ensures !Run(s, events).value.running
    ensures Run(s, events).value.inFlight == s.inFlight - CountOf(events, CompleteEvent)
    ensures Drained(Run(s, events).value) <==> CountOf(events, CompleteEvent) == s.inFlight
    decreases |events|
  {
    if events != [] {
      var t := Step(s, events[0]).value;
      assert events[1..] <= events[1..] && StartEvent !in events[1..] by {
        assert forall i :: 0 <= i < |events[1..]| ==> events[1..][i] == events[i + 1];
      }
      StoppedOnlyDrains(t, events[1..]);
    }
  }

  /** Stopping twice is the same as stopping once. */
  lemma StopIsIdempotent(s: Lifecycle)
    ensures Run(s, [StopEvent, StopEvent]) == Run(s, [StopEvent])
  {
    assert [StopEvent, StopEvent][1..] == [StopEvent];
  }

  /** A scheduler instance: configuration, job and the mutable lifecycle state. */
  class Scheduler {
    const config: Config
    const task: Job
    const location: Zone
    var running: bool
    var inFlight: nat

    function State(): Lifecycle
      reads this
    {
      Lifecycle(running, inFlight)
    }

    constructor (config: Config, task: Job)
      requires ValidConfig(config)
      ensures this.config == config && this.task == task
      ensures location == (if config.timeZone.Some? then config.timeZone.value else LocalZone)
      ensures !running && inFlight == 0
    {
      this.config := config;
      this.task := task;
      this.location := if config.timeZone.Some? then config.timeZone.value else LocalZone;
      running := false;
      inFlight := 0;
    }

    /** `Start`: an error when already running, state unchanged; otherwise start running. */
    method Start() returns (r: Outcome<SchedulerError>)
      modifies this
      ensures old(running) ==> r == Fail(AlreadyRunning) && State() == old(State())
      ensures !old(running) ==> r == Pass && running && inFlight == old(inFlight)
      ensures !old(running) ==> Some(State()) == Step(old(State()), StartEvent)
    {
      if running {
        return Fail(AlreadyRunning);
      }
      running := true;
      r := Pass;
    }

    /** `Stop`: clears `running` (a no-op when not running); jobs in flight keep running. */
    method Stop()
      modifies this
      ensures !running && inFlight == old(inFlight)
      ensures Some(State()) == Step(old(State()), StopEvent)
    {
      if running {
        running := false;
      }
    }

    /** Whether the context returned by `Stop` is done: every dispatched job has completed. */
    predicate StopHandleDone()
      reads this
    {
      Drained(State())
    }

    /** Timer expiry in the run loop: count the job, then dispatch it. Nothing fires once stopped. */
    method Fire() returns (dispatched: bool)
      modifies this
      ensures dispatched == old(running) && running == old(running)
      ensures inFlight == old(inFlight) + (if dispatched then 1 else 0)
      ensures Some(State()) == Step(old(State()), FireEvent)
    {
      dispatched := running;
      if dispatched {
        inFlight := inFlight + 1;
      }
    }

    /** A dispatched job returns: its deferred `Done` uncounts it. */
    method Complete()
      requires inFlight > 0
      modifies this
      ensures running == old(running) && inFlight == old(inFlight) - 1
      ensures Some(State()) == Step(old(State()), CompleteEvent)
    {
      inFlight := inFlight - 1;
    }
  }
}

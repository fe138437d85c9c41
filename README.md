# docker-auto-backup, modelled in Dafny

docker-auto-backup watches the Docker daemon and gives every container
labelled `backup.enabled=true` a backup scheduler. The container's
`backup.*` labels choose four things:
- a frequency (daily, weekly, monthly, yearly) and a time of day in a time zone;
- a provider, the kind of database to dump;
- a storage back end, local or S3;
- days of week, month or year.

The scheduler computes the next fire instant with `nextRun`, waits for it,
and runs the backup job. A registry keyed by container id replaces or removes
schedulers as containers start and die.

This project models that core and proves properties of the model.

- **Recurrence engine** (`scheduler.dfy`):
  - `parseTime` (`HH:MM`);
  - `isValidDayOfMonth`;
  - the construction checks of `New`;
  - `nextRun` for the four frequencies, including the `-1` sentinels for the last day of the month and December 31.

  Civil time is `Calendar.DateTime`, a proleptic Gregorian calendar with second resolution in one fixed zone (`calendar.dfy`).
- **Scheduler lifecycle**: `Start`, `Stop` and the job counter of the run loop, on a `Scheduler` class with `running` and `inFlight`.
  - The timer expiry of the run loop is the `Fire` step: it counts the job, then dispatches it.
  - A job's deferred `Done` is the `Complete` step.
  - A functional trace model (`Step`/`Run`) states the accounting over any sequence of events.
- **Registry** (`manager.dfy`): the `Manager` class over a `schedulers` map. A ghost `stopLog` records every `Stop` it issues.
- **Label and config parsing of the entry point** (`labels.dfy`):
  - `extractLabels`, `validateFrequency`, `getStringWithDefault`, `parseIntWithDefault`;
  - `buildStorageConfig` and `buildProviderConfig`;
  - `parseConfig`.

  Go's `strconv.Atoi`/`Itoa` are in `strconv.dfy`; the `strings` functions used are in `strings.dfy`.
- **Helpers and factories**:
  - `parseEnvVar` and the map-building loop of `GetContainerEnv` (`utils.dfy`);
  - the `NewStorage` selection (`storage.dfy`) and the `NewProvider` selection (`provider.dfy`);
  - the backup object constructor and its options (`object.dfy`).

Inputs from the outside world become parameters:
- `now` is the clock;
- `time.Now().Year()` in `New` is `year`;
- the Docker inspect result of `GetContainerEnv` is the `inspect` parameter;
- `time.LoadLocation` in `parseConfig` and the AWS client loader in `NewS3Storage` are oracle function parameters that may fail.

Two behaviours of `nextRun` that are easy to misread:
- `nextRun` compares the candidate with `now` using `Before`, so a candidate equal to `now` is returned as it is and not moved to the next cycle (`Scenarios.DailyFiresAtNow`).
- A Monthly rule for day 31, asked on April 15, lands on May 31, since May has 31 days (`Scenarios.ThirtyFirstFromApril`).

## Model

| member | source | states |
|---|---|---|
| Strings.SplitCount | internal/scheduler/scheduler.go:74-75 | `strings.Split` on `:` gives exactly one more part than there are colons, so `parseTime` sees two parts iff there is exactly one colon |
| Strings.SplitJoin | internal/scheduler/scheduler.go:74 | joining `Split`'s parts with the separator gives back the input: splitting loses nothing |
| Strings.SplitPiecesAreFree | internal/scheduler/scheduler.go:74 | no part produced by `Split` contains the separator |
| Strings.SplitAround | internal/scheduler/scheduler.go:74 | a string `a:b` with no other colon splits into exactly `[a, b]` |
| Strings.SplitN2 | internal/utils/utils.go:30 | `SplitN(s, "=", 2)` is `[s]` without `=`, and otherwise two parts around the first `=` that rejoin to `s`, the first free of `=` |
| Strings.TrimLeft | internal/utils/utils.go:36-37 | the result is a suffix of the input; everything dropped is white space; it does not start with white space |
| Strings.TrimRight | internal/utils/utils.go:36-37 | the result is a prefix of the input; everything dropped is white space; it does not end with white space |
| Strings.TrimSpace | internal/utils/utils.go:36-37 | the result is a slice `s[i..j]` of the input with only white space outside it, and it neither starts nor ends with white space |
| Strings.TrimBothEnds | internal/utils/utils.go:36-37 | a suffix after white space, cut to a prefix before white space, is a slice of the input with only white space around it |
| Strings.TrimSpaceOfTrimmed | internal/utils/utils.go:36-37 | trimming is the identity on a string that has no white space at either end |
| Strings.TrimSpaceKeepsAbsent | internal/utils/utils.go:36 | a character absent from the input is absent from its trim, so a trimmed key still has no `=` |
| Strings.TrimPrefix | main.go:26-27 | with the prefix present, prefix + result is the key; otherwise the key is unchanged |
| Strconv.Atoi | main.go:56 | success, with the literal's value, exactly on an optionally signed, non-empty run of digits whose value fits in 64 bits; a literal out of range is a range error; any other text is a syntax error, unless its leading digits already exceed `uint64`, which is a range error |
| Strconv.LeadingDigits | main.go:56 | the longest prefix made only of digits: the next character, if any, is not a digit |
| Strconv.LeadingDigitsOfRun | main.go:56 | the leading digits of digits followed by a non-digit are exactly those digits |
| Strconv.AtoiOverflowBeforeNonDigit | main.go:56 | digits worth more than `uint64` followed by a non-digit give a range error, not a syntax error, as `ParseUint` stops at the first overflowing digit |
| Strconv.NatDigitsValue | main.go:56 | the decimal digits written for `n` read back as `n` |
| Strconv.NegativeLiteral | main.go:56 | a minus sign before the digits of `m` is a literal denoting `-m` |
| Strconv.UnsignedLiteral | main.go:56 | the digits of `m` alone are a literal denoting `m` |
| Strconv.ItoaLiteral | main.go:56 | `Itoa` always writes a literal, and it denotes the number written |
| Strconv.AtoiItoa | main.go:56 | `Atoi(Itoa(n)) == n` for every 64-bit `n` (round trip) |
| Strconv.AtoiRejectsEmpty | internal/scheduler/scheduler.go:79-86 | the empty string and a lone sign are syntax errors |
| Calendar.DaysInMonth | internal/scheduler/scheduler.go:96 | 28..31 days; February has 29 exactly in leap years; other months have 30 or 31 |
| Calendar.DaysBeforeYearClosedForm | internal/scheduler/scheduler.go:196-197 | the year-by-year day count equals the closed Gregorian formula for every year, negative ones included |
| Calendar.DayOfYearBounds | internal/scheduler/scheduler.go:196-197 | a valid date's position in its year lies in 1..days of that year |
| Calendar.Weekday | internal/scheduler/scheduler.go:171 | a weekday is in 0..6 (Sunday = 0) |
| Calendar.NextDay | internal/scheduler/scheduler.go:165 | `AddDate(0, 0, 1)` yields a valid date whose day number is one more |
| Calendar.FirstOfNextMonth | internal/scheduler/scheduler.go:165 | after the last day of a month before December comes the 1st of the next month |
| Calendar.FirstOfNextYear | internal/scheduler/scheduler.go:165 | after December 31 comes January 1 of the next year |
| Calendar.NextDayYear | internal/scheduler/scheduler.go:165 | the next day stays in the same year except after December 31 |
| Calendar.AddDays | internal/scheduler/scheduler.go:196-197 | `AddDate(0, 0, n)` yields a valid date whose day number is `n` more |
| Calendar.KnownWednesday | internal/scheduler/scheduler.go:171 | the weekday count agrees with the calendar: 5 February 2025 has weekday 3 (Wednesday) |
| Calendar.WeekdayShift | internal/scheduler/scheduler.go:171-172 | two dates `n` day numbers apart are `n` weekdays apart modulo 7 |
| Calendar.WeekdayAddDays | internal/scheduler/scheduler.go:171-172 | moving `n` days forward moves the weekday by `n` modulo 7 |
| Calendar.DayNumberOrder | internal/scheduler/scheduler.go:164 | day numbers follow calendar order |
| Calendar.DayNumberInjective | internal/scheduler/scheduler.go:196-197 | distinct valid dates have distinct day numbers |
| Calendar.BeforeIsCivilOrder | internal/scheduler/scheduler.go:164 | `Before` on valid instants is exactly the lexicographic order of the civil fields, both directions |
| Calendar.MonthIndexRoundTrip | internal/scheduler/scheduler.go:186 | a month's index decodes back to its year and month |
| Calendar.IndexMonthRoundTrip | internal/scheduler/scheduler.go:186 | an index encodes back from its year and month |
| Calendar.NextMonth | internal/scheduler/scheduler.go:186 | `time.Date(y, m + 1, 1)` gives a valid month whose index is one more, so December rolls into January of the next year |
| Calendar.LastDayPrecedesNextMonth | internal/scheduler/scheduler.go:96 | `time.Date(y, m + 1, 0)` is the day before the first of the next month, namely day `DaysInMonth(y, m)` of month `m` |
| Calendar.ConsecutiveMonthsHaveDay | internal/scheduler/scheduler.go:179-187 | of any two consecutive months one has day `n` when `n <= 31`, which bounds the Monthly search |
| Scheduler.ParseTime | internal/scheduler/scheduler.go:73-90 | success gives hour 0..23 and minute 0..59 and needs exactly one colon; any other number of colons is a format error naming the input |
| Scheduler.ParseTimeOfParts | internal/scheduler/scheduler.go:73-90 | on `a:b` parsing succeeds iff `a` reads as an hour and `b` as a minute, with those values; a bad hour is reported before a bad minute, each naming its part |
| Scheduler.TwoDigits | internal/scheduler/scheduler.go:73-90 | two digits, free of colons |
| Scheduler.AtoiTwoDigits | internal/scheduler/scheduler.go:79-86 | a zero-padded two-digit number reads back as itself |
| Scheduler.ParseFormatTime | internal/scheduler/scheduler.go:73-90 | every `HH:MM` time of day parses back to itself (round trip) |
| Scheduler.ParseTimeRejectsWrongShape | internal/scheduler/scheduler.go:74-77 | `1:2:3` and the empty string are format errors |
| Scheduler.ParseTimeRejectsEmptyMinute | internal/scheduler/scheduler.go:84-87 | `HH:` with a valid hour is a minute error on the empty minute |
| Scheduler.ParseTimeRejectsHourFrom24 | internal/scheduler/scheduler.go:79-82 | two-digit hours 24..99 are hour errors whatever the minute |
| Scheduler.IsValidDayOfMonth | internal/scheduler/scheduler.go:92-98 | true iff the day exists in that month of that year; hence the day is in 1..31, and February 29 exists iff the year is a leap year |
| Scheduler.AnyMonthHasDay | internal/scheduler/scheduler.go:124-130 | the month scan finds a month with day `d` iff some month has it, iff `1 <= d <= 31`, whatever the year |
| Scheduler.FrequencyCheck | internal/scheduler/scheduler.go:114-140 | passes iff Daily, Weekly with 0..6, Monthly with -1 or 1..31, or Yearly with -1 or 1..366; an unknown frequency is reported as such |
| Scheduler.Validate | internal/scheduler/scheduler.go:100-140 | nil task first, then the time's own error, then the frequency rule; passes iff the task is present and the configuration is valid |
| Scheduler.New | internal/scheduler/scheduler.go:100-157 | fails iff validation fails, with `Validate`'s error: a nil task first, then a bad time, then the frequency check's error; otherwise a fresh scheduler holding the now validated configuration and task, with the configured zone or `Local`, not running, nothing in flight |
| Scheduler.Baseline | internal/scheduler/scheduler.go:160-166 | today at HH:MM:00, or the next day when that is strictly before `now`; never before `now`, and less than 24 hours after it |
| Scheduler.BaselineIsEarliest | internal/scheduler/scheduler.go:160-166 | no instant at HH:MM:00 that is not before `now` comes earlier than the baseline |
| Scheduler.MonthlyPickUnique | internal/scheduler/scheduler.go:179-187 | the Monthly rule determines at most one instant |
| Scheduler.LaterDayNotBefore | internal/scheduler/scheduler.go:164 | an instant on a later day is after one on an earlier day |
| Scheduler.LaterOrSameDayNotBefore | internal/scheduler/scheduler.go:171-172 | moving forward by whole days keeps an instant not before `now` |
| Scheduler.LaterMonthNotBefore | internal/scheduler/scheduler.go:182 | an instant in a later month than `now` is not before `now` |
| Scheduler.AdvanceToWeekday | internal/scheduler/scheduler.go:171-173 | the Weekly loop ends on the first day at or after the start with the wanted weekday, at most six days on, at the same time of day |
| Scheduler.WeekdayGap | internal/scheduler/scheduler.go:171-173 | the gap to the wanted weekday is 0..6 days |
| Scheduler.WeekdayResidue | internal/scheduler/scheduler.go:171 | `j` days after weekday `w` is weekday `dow` iff `j` is `(dow - w) mod 7` |
| Scheduler.WeekdayAtGap | internal/scheduler/scheduler.go:171 | within six days the weekday is reached exactly at the gap |
| Scheduler.GapNotReached | internal/scheduler/scheduler.go:171-172 | while the weekday is not reached the loop is below the gap (termination) |
| Scheduler.WeeklyPickIsGap | internal/scheduler/scheduler.go:171-173 | the Weekly pick is exactly `WeekdayGap` days after the baseline, so it is unique |
| Scheduler.WeeklyPickOfSearch | internal/scheduler/scheduler.go:171-173 | the loop's exit state is the Weekly pick |
| Scheduler.NoEarlierWeekday | internal/scheduler/scheduler.go:171 | no day before the gap has the wanted weekday |
| Scheduler.MonthlySearch | internal/scheduler/scheduler.go:178-187 | the Monthly loop ends with day `n` of the first month from the baseline's that has day `n` and whose candidate is not before `now`; the result is valid, at the baseline's time, not before `now` |
| Scheduler.SearchStart | internal/scheduler/scheduler.go:178-179 | the search starts in `now`'s month or the next, with nothing skipped |
| Scheduler.SearchSkip | internal/scheduler/scheduler.go:180-186 | a month without day `n`, or whose candidate is past, is skipped and the search stays within two months after `now`'s |
| Scheduler.SearchFound | internal/scheduler/scheduler.go:180-184 | the first month not skipped gives the Monthly pick |
| Scheduler.LastDayOfMonth | internal/scheduler/scheduler.go:177 | a valid date in the given month whose next day is a 1st, so it is the month's last day |
| Scheduler.YearlyCandidate | internal/scheduler/scheduler.go:196-197 | January 1 plus `n - 1` days is a valid date `n - 1` day numbers after January 1 |
| Scheduler.YearlyCandidateLands | internal/scheduler/scheduler.go:196-197 | day `n` of a year that has `n` days is that year's `n`-th day; day 366 of a common year is January 1 of the next year |
| Scheduler.ForwardFromJanuaryFirst | internal/scheduler/scheduler.go:199-200 | moving forward from January 1 of `y` stays in year `y` or later |
| Scheduler.LastDayOfMonthNotBefore | internal/scheduler/scheduler.go:177 | the last day of the baseline's month is never before `now` |
| Scheduler.YearlyLastDay | internal/scheduler/scheduler.go:190-194 | December 31 of the baseline's year, or of the next year if that is before `now`; never before `now` |
| Scheduler.YearlyDay | internal/scheduler/scheduler.go:195-201 | January 1 of the baseline's year plus `n - 1` days, or the same offset in the year after that candidate's when it is before `now`; never before `now` |
| Scheduler.YearlyLastDayIsEarliest | internal/scheduler/scheduler.go:190-194 | no December 31 at the configured time that is not before `now` lies in an earlier year than the one picked |
| Scheduler.EarlierDecemberBefore | internal/scheduler/scheduler.go:192 | December 31 of a year before `now`'s is before `now` |
| Scheduler.BaselineYear | internal/scheduler/scheduler.go:162-166 | the baseline is in `now`'s year, except after December 31, whose instant is then past |
| Scheduler.FireTime | internal/scheduler/scheduler.go:160 | a valid configuration's time is an hour 0..23 and a minute 0..59 |
| Scheduler.RuleOf | internal/scheduler/scheduler.go:168-203 | the rule is the frequency with the day field it reads, iff in each direction, and its day is in range |
| Scheduler.NextRunAt | internal/scheduler/scheduler.go:161-205 | the result is valid, at HH:MM:00, never before `now`, and is what the frequency's rule selects from the baseline |
| Scheduler.NextRun | internal/scheduler/scheduler.go:159-206 | for a configuration `New` accepted: at the configured HH:MM:00, never before `now`, and the rule's pick from the baseline (Daily: the baseline itself, hence less than 24 hours after `now`) |
| Scheduler.Step | internal/scheduler/scheduler.go:208-238 | every event but a completion is possible; a completion is possible iff a job is in flight |
| Scheduler.InFlightAccounting | internal/scheduler/scheduler.go:252-254 | after any run of events the count in flight is the count before, plus the jobs dispatched, minus the completions |
| Scheduler.StoppedOnlyDrains | internal/scheduler/scheduler.go:227-237 | once stopped, and without a new start, nothing is dispatched; the scheduler stays stopped and the stop handle is done iff every job in flight has completed |
| Scheduler.StopIsIdempotent | internal/scheduler/scheduler.go:227-230 | two `Stop`s equal one |
| Scheduler.Scheduler.constructor | internal/scheduler/scheduler.go:142-149 | holds the configuration, task and zone (the configured one or `Local`), not running, nothing in flight |
| Scheduler.Scheduler.Start | internal/scheduler/scheduler.go:208-220 | already running: an error and no change; otherwise running, the count unchanged, as `Step` says |
| Scheduler.Scheduler.Stop | internal/scheduler/scheduler.go:222-238 | not running afterwards, the count unchanged, as `Step` says |
| Scheduler.Scheduler.Fire | internal/scheduler/scheduler.go:248-256 | a job is dispatched iff running, and counted before it runs |
| Scheduler.Scheduler.Complete | internal/scheduler/scheduler.go:254 | a returning job uncounts itself and nothing else changes |
| Manager.Manager.constructor | internal/manager/manager.go:16-21 | an empty registry that has stopped nothing |
| Manager.Manager.AddScheduler | internal/manager/manager.go:23-32 | the id maps to the new scheduler and no other entry changes; a scheduler already registered there is stopped exactly once, its count untouched; a fresh id stops nothing |
| Manager.Manager.RemoveScheduler | internal/manager/manager.go:34-42 | a registered id is stopped exactly once and deleted, its in-flight count left as it was; an absent id changes nothing and stops nothing |
| Manager.ReAddSameInstance | internal/manager/manager.go:27-31 | adding an instance again under its own id stops it but keeps it registered |
| Manager.AddKeepsOtherEntries | internal/manager/manager.go:23-32 | adding under one id leaves another id's entry alone |
| Labels.StripPrefixed | main.go:26-27 | `backup.k` has the prefix and strips back to `k` |
| Labels.ExtractLabels | main.go:23-31 | `k` is a key of the result iff `backup.k` is a label, with that label's value |
| Labels.ValidateFrequency | main.go:33-45 | accepts exactly the four frequency names, giving back the same name; any other text is an error naming it |
| Labels.ValidatedFrequencyIsKnown | main.go:115 | a frequency `validateFrequency` accepts is never an unknown frequency to the scheduler's check |
| Labels.ValidateFrequencyIsExact | main.go:33-45 | `Daily`, the missing label and `hourly` are rejected |
| Labels.GetStringWithDefault | main.go:47-52 | the label's value when present and non-empty, the default otherwise |
| Labels.EmptyValueIsMissing | main.go:47-52 | an empty value is treated exactly like a missing key |
| Labels.ParseIntWithDefault | main.go:54-59 | the default for a missing or empty label, otherwise exactly Atoi's result, error included |
| Labels.ParseIntHasNoRangeCheck | main.go:54-59 | every 64-bit value, however large or negative, is passed on |
| Labels.ParseIntRejectsNonNumeric | main.go:54-59 | a non-numeric value is an error, never the default: a range error when its leading digits already exceed `uint64`, a syntax error otherwise |
| Labels.StorageConfigOf | main.go:61-82 | `local` (the default) sets only the local side, from `storage.local.root_path`; `s3` sets only the S3 side, from its four labels; any other type is an error naming it |
| Labels.BuildStorageConfig | main.go:61-82 | the configuration filled in field by field is the selection `StorageConfigOf` |
| Labels.StorageConfigFitsNewStorage | main.go:135-138 | the configuration built for a storage type makes `NewStorage` select a back end holding it |
| Labels.S3StorageWithDefaultLocation | main.go:149 | `storage=s3` without a `location` label gives a configuration from which `NewStorage` selects nothing |
| Labels.ProviderConfigOf | main.go:84-102 | a field is set iff the provider label names that kind |
| Labels.BuildProviderConfig | main.go:84-102 | the configuration filled in field by field is the selection `ProviderConfigOf` |
| Labels.ProviderConfigMatchesFactory | main.go:84-102 | at most one field is set; one is set iff `NewProvider` knows the tag; the default `local` sets none |
| Labels.ParseConfig | main.go:104-153 | disabled with no error unless `enabled` is exactly `true`; a successful result is enabled iff `enabled` is `true`, and then holds the frequency as labelled, the defaulted time, provider and location, the zone loaded for `time_zone` (default `UTC`), the three day values as parsed with defaults 1, 0 and 1, and the two built configurations |
| Labels.DisabledIgnoresOtherLabels | main.go:105-107 | while disabled no other label and no zone lookup matters |
| Labels.ParseConfigErrorOrder | main.go:109-138 | the first failure in the order zone, frequency, day of month, day of week, day of year, storage decides the error; success iff none fails |
| Labels.ParseConfigDefaults | main.go:109-152 | the defaults are zone `UTC`, time `00:00`, days 1, 0 and 1, provider and location `local`, local storage with an empty root, no provider configuration |
| Labels.DayOfWeekPassedThrough | main.go:125-128 | a day of week of 9 is accepted by `parseConfig` and rejected only by the scheduler's check |
| Utils.ParseEnvVar | internal/utils/utils.go:29-40 | both halves are trimmed and the key has no `=` |
| Utils.ParseEnvVarSpec | internal/utils/utils.go:29-40 | without `=` the pair is `("", "")`; otherwise the trimmed text before and after the first `=` |
| Utils.ParseEnvVarOfEntry | internal/utils/utils.go:29-40 | a trimmed key without `=` and a trimmed value come back from `key=value`, even when the value contains `=` (round trip) |
| Utils.ParseEnvVarSplitsAtFirst | internal/utils/utils.go:30 | `A=b=c` has key `A` and value `b=c` |
| Utils.MapSeqAt | internal/utils/utils.go:19-20 | the `i`-th parsed pair is the parse of the `i`-th entry |
| Utils.Insert | internal/utils/utils.go:19-24 | the map never has the empty key |
| Utils.InsertKeys | internal/utils/utils.go:19-24 | a key is in the map iff it is non-empty and some pair has it |
| Utils.LastPairWins | internal/utils/utils.go:19-24 | with duplicate keys the last pair decides the value |
| Utils.EnvMapKeys | internal/utils/utils.go:19-24 | a variable is in the map iff some entry has it as a non-empty trimmed key |
| Utils.LastEntryWins | internal/utils/utils.go:19-24 | with duplicate keys the later entry overwrites the earlier |
| Utils.InsertTwo | internal/utils/utils.go:19-24 | two elements with distinct non-empty keys give a two-entry map |
| Utils.EnvMapOfTwoEntries | test/utils_test.go:36-43 | two entries with distinct non-empty keys give exactly the two-entry map |
| Utils.InsertEntries | internal/utils/utils.go:19-24 | the loop builds the map of the parsed pairs, in order |
| Utils.GetContainerEnv | internal/utils/utils.go:12-27 | an inspect failure is an error with no map; otherwise the map of the entries |
| Storage.NewStorage | internal/storage/storage.go:13-32 | a back end iff `local` with a local configuration or `s3` with an S3 configuration, holding a copy of it; nothing for any other location |
| Storage.SelectionIgnoresOtherConfig | internal/storage/storage.go:13-32 | `s3` with only a local configuration gives nothing; `local` with it gives the local back end |
| Storage.FactoryS3StorageCannotPut | internal/storage/storage.go:27 | as written, the S3 back end has a nil client, so `Put` cannot run |
| Storage.NewS3Storage | internal/storage/s3.go:26-47 | a back end iff the client loads; it holds that client and the configuration and can `Put` |
| Storage.NewStorageWithClient | internal/storage/storage.go:13-32 | as intended: every back end it returns can `Put`, under the same selection; `local` is unchanged |
| Provider.NewProvider | internal/provider/provider.go:30-45 | a provider iff the tag is one of the five known ones, compared exactly; it is that tag's variant, carrying `ctx`, with empty name, images and extension |
| Provider.NewProviderIsCaseSensitive | internal/provider/provider.go:31-43 | `Postgres`, `REDIS`, `local` and the empty tag give nothing |
| Provider.NewPostgresProvider | internal/provider/postgres.go:26-33 | the Postgres variant with extension `sql` |
| Provider.NewRedisProvider | internal/provider/redis.go:20-27 | the Redis variant with extension `dump` |
| Provider.BackupFileName | internal/provider/postgres.go:36-37 | `backup_<timestamp>.<ext>` |
| Provider.FactoryPostgresFileNameHasNoExtension | internal/provider/provider.go:33 | as written, a Postgres backup made through the factory is named with nothing after the dot |
| Provider.NewProviderWithDefaults | internal/provider/provider.go:30-45 | as intended: the same selection, with Postgres extension `sql` and Redis extension `dump` |
| Provider.IntendedPostgresFileNameEndsInSql | internal/provider/postgres.go:37 | with the intended factory the Postgres file name ends in `.sql` |
| Provider.FactoriesAgreeOnSelection | internal/provider/provider.go:30-45 | both factories select the same tags and the same variants |
| Object.ApplyOption | internal/object/object.go:26-36 | `WithSize` sets only the size; `WithMetadata` replaces only the metadata |
| Object.LastSizeWins | internal/object/object.go:58-60 | the size is that of the last `WithSize` option |
| Object.LastMetadataWins | internal/object/object.go:58-60 | the metadata is the map of the last `WithMetadata` option |
| Object.UntouchedSettings | internal/object/object.go:51-60 | without a size option the size stays as it was; likewise the metadata |
| Object.MetadataReplaced | internal/object/object.go:26-30 | `WithMetadata` replaces the map rather than merging: an earlier key is gone |
| Object.SizeAndMetadataCommute | internal/object/object.go:26-36 | a size option and a metadata option commute |
| Object.BackupObject.constructor | internal/object/object.go:51-56 | the given extension and reader, created at `now`, size 0, empty metadata |
| Object.BackupObject.Apply | internal/object/object.go:58-60 | one option's update of the object's fields |
| Object.New | internal/object/object.go:38-63 | the context error first, then an empty extension, then a nil reader; success iff none applies, with a fresh object holding the extension and reader and the options applied in order to size 0 and empty metadata |
| Scenarios.ThirtiethFromFebruary | internal/scheduler/scheduler.go:178-187 | from 5 February 2025 the Monthly pick for day 30 is 30 March, because February is skipped |
| Scenarios.ThirtyFirstFromApril | internal/scheduler/scheduler.go:178-187 | from 15 April 2025 the Monthly pick for day 31 is 31 May |
| Scenarios.MonthlyThirtiethFromFebruary | internal/scheduler/scheduler.go:159-206 | `nextRun` for day 30 on 5 February 2025 is 30 March at the configured time |
| Scenarios.MonthlyThirtyFirstFromApril | internal/scheduler/scheduler.go:159-206 | `nextRun` for day 31 on 15 April 2025 is 31 May at the configured time |
| Scenarios.DailyFiresAtNow | internal/scheduler/scheduler.go:162-166 | a Daily configuration asked at exactly its own time fires at `now` itself |
| Scenarios.MondayBaseline | internal/scheduler/scheduler.go:162-166 | on Monday 3 February 2025 at 10:00 the 02:00 baseline has passed and moves to Tuesday 4 February |
| Scenarios.KnownTuesday | internal/scheduler/scheduler.go:171-172 | 4 February 2025 is followed by 5 February and has weekday 2 |
| Scenarios.WednesdayAfterTuesday | internal/scheduler/scheduler.go:171-173 | from Tuesday 4 February 2025 the Weekly pick for weekday 3 is the next day |
| Scenarios.WeeklyWednesdayFromMonday | internal/scheduler/scheduler.go:159-173 | `nextRun` for Weekly on day 3 at 02:00, asked on Monday 3 February 2025 at 10:00, is Wednesday 5 February at 02:00 |

## Left out

- Concurrency: the `run` goroutine, the timer and `select`, the `stop` channel, the mutexes and the `WaitGroup` are not modelled. They are replaced by sequential `Fire`/`Complete` steps and the `running` flag. Each registry call is one atomic step.
- Scheduler.Scheduler.Stop: the returned context is modelled as the predicate `StopHandleDone` (no job in flight), not as a value. The send on the unbuffered `stop` channel is the clearing of `running`.
- Scheduler.Scheduler.Complete: requires a job in flight, because a negative `WaitGroup` counter is a panic in Go. The trace model `Step` gives `None` for it.
- Time zones, DST, `time.Local` and nanoseconds: instants are civil times in one fixed zone. A zone is carried only by its name. `time.LoadLocation` is an oracle parameter of `Labels.ParseConfig`.
- The clock: `clock.New()`, `WithClock` and `time.Now()` are inputs. `now` is a parameter, `time.Now().Year()` in `New` is `year`, and the object's creation time is `now`.
- Logging: the logger, the `WithLogger` option and every log message carry no control flow and are left out. This includes the session that `NewStorage` writes its errors to.
- Scheduler.New: the option loop (`WithClock`, `WithLogger`) is not modelled, since both options only replace the clock and the logger.
- Scheduler.NextRun: requires a configuration that `New` accepted, because `nextRun` only runs on schedulers built by `New`. With any other day of month the search would not terminate. Equally, `MonthlySearch` requires `1 <= n <= 31`.
- Scheduler.NextRunAt: the `rule` argument is what `nextRun` reads from its configuration, decoded once by `RuleOf`.
- `main()` and `handleContainer`: the Docker client, the event stream, JSON marshalling and the backup closure are I/O plumbing and are not modelled. Their uses of `NewProvider` and `NewStorage` appear in the lemmas beside `Labels.StorageConfigFitsNewStorage`.
- Storage.NewStorage: the configuration is a value, so the nil `*StorageConfig` pointer that would panic is not modelled. `parseConfig` never passes one when enabled.
- The local and S3 I/O of `Put`/`Get`, and the Docker exec and stream copying of the providers, are left out. Only whether `Put` can run and the Postgres file name are kept. The Redis, ClickHouse, NATS and RabbitMQ providers are stubs with nothing to state.
- Utils.EnvMapOfTwoEntries: the test case `KEY1=value1`, `KEY2=value2` is stated for any two entries with distinct non-empty keys. The concrete instance is not stated separately.
- Scheduler.ParseTimeRejectsEmptyMinute: `12:` is stated for every two-digit valid hour followed by `:`, and likewise `Scheduler.ParseTimeRejectsHourFrom24` covers every two-digit hour from 24.
- Strings.IsSpace: `unicode.IsSpace` is written out as its fixed character set. There is no Unicode table.
- Strconv.Atoi: the Go error values carry only the kind and the input text. The function name and the wrapped error are not modelled.

## Findings

| source | as written | input that shows it | evidently intended | confidence | as-written member | corrected member |
|---|---|---|---|---|---|---|
| internal/provider/provider.go:33 | the factory builds `&PostgresProvider{ctx: ctx}`, so `ext` is empty and the backup is named `backup_<timestamp>.` | `NewProvider(ctx, "postgres")`, then `Backup` | build each variant with its own constructor (`NewPostgresProvider`: `ext = "sql"`), so the file is `backup_<timestamp>.sql` | not executed | Provider.FactoryPostgresFileNameHasNoExtension | Provider.NewProviderWithDefaults |
| internal/storage/storage.go:27 | the S3 case builds `&S3Storage{config: *config.S3}` without a client, so `Put` calls `PutObject` on a nil client | `NewStorage(ctx, "s3", {S3: &cfg})`, then `Put` | build the back end with `NewS3Storage`, which loads a client | not executed | Storage.FactoryS3StorageCannotPut | Storage.NewStorageWithClient |

/**
 * Label handling of the entry point (main.go): `extractLabels` keeps the
 * `backup.`-prefixed container labels with the prefix stripped; the small
 * parsers `validateFrequency`, `getStringWithDefault` and
 * `parseIntWithDefault`; the selection rules `buildStorageConfig` and
 * `buildProviderConfig`; and `parseConfig`, which turns the extracted labels
 * into a scheduler configuration. `time.LoadLocation` is the `loadLocation`
 * parameter, an oracle that may fail.
 */
module Labels {
  import opened Wrappers
  import opened Strings
  import opened Strconv
  import opened Storage
  import opened Provider
  import opened Scheduler

  type Labels = map<string, string>

  const Prefix: string := "backup."

  /** Indexing a Go map: a missing key reads as the empty string. */
  function Lookup(labels: Labels, key: string): string
  {
    if key in labels then labels[key] else ""
  }

  // ---------------------------------------------------------------------------
  // extractLabels

  /** A prefixed key has the prefix, and stripping it gives back the rest. */
  lemma StripPrefixed(k: string)
    ensures HasPrefix(Prefix + k, Prefix) && TrimPrefix(Prefix + k, Prefix) == k
  {
    assert (Prefix + k)[..|Prefix|] == Prefix;
    assert (Prefix + k)[|Prefix|..] == k;
  }

  /**
   * `extractLabels`: `k` is a key of the result exactly when `backup.k` is a
   * label, and then it has that label's value; every other label is dropped.
   * Stripping is one-to-one, so the map's iteration order does not matter.
   */
  method ExtractLabels(labels: Labels) returns (extracted: Labels)
    ensures forall k :: k in extracted <==> Prefix + k in labels
    ensures forall k :: k in extracted ==> extracted[k] == labels[Prefix + k]
  {
    extracted := map[];
    var keys := labels.Keys;
    while keys != {}
      invariant keys <= labels.Keys
      invariant forall k :: k in extracted <==> Prefix + k in labels && Prefix + k !in keys
      invariant forall k :: k in extracted ==> extracted[k] == labels[Prefix + k]
      decreases keys
    {
      var key :| key in keys;
      forall k | Prefix + k == key
        ensures HasPrefix(key, Prefix) && TrimPrefix(key, Prefix) == k
      {
        StripPrefixed(k);
      }
      if HasPrefix(key, Prefix) {
        var stripped := TrimPrefix(key, Prefix);
        extracted := extracted[stripped := labels[key]];
      }
      keys := keys - {key};
    }
  }

  // ---------------------------------------------------------------------------
  // Small parsers

  datatype ConfigError =
    | TimeZoneError(message: string)
    | FrequencyError(frequency: string)
    | DayOfMonthError(cause: NumError)
    | DayOfWeekError(cause: NumError)
    | DayOfYearError(cause: NumError)
    | StorageError(storageType: string)

  /** The table of `validateFrequency`: each accepted label names its own frequency. */
  const ValidFrequencies: map<string, string> :=
    map["daily" := Daily, "weekly" := Weekly, "monthly" := Monthly, "yearly" := Yearly]

  /** `validateFrequency`: exactly the four frequency names, compared case-sensitively. */
  function ValidateFrequency(freq: string): (r: Result<string, ConfigError>)
    ensures r.Ok? <==> freq in {Daily, Weekly, Monthly, Yearly}
    ensures r.Ok? ==> r.value == freq
    ensures r.Err? ==> r.error == FrequencyError(freq)
  {
    if freq in ValidFrequencies then Ok(ValidFrequencies[freq]) else Err(FrequencyError(freq))
  }

  /**
   * A frequency that `validateFrequency` accepts is one the scheduler's own
   * check knows, so `New` never reports it as an unknown frequency.
   */
  lemma ValidatedFrequencyIsKnown(freq: string, c: Config)
    requires ValidateFrequency(freq).Ok? && c.frequency == freq
    ensures FrequencyCheck(c) != Fail(InvalidFrequency(freq))
  {
  }

  /** Letter case matters and there is no default: `Daily` and the missing label are rejected. */
  lemma ValidateFrequencyIsExact()
    ensures ValidateFrequency("Daily") == Err(FrequencyError("Daily"))
    ensures ValidateFrequency("") == Err(FrequencyError(""))
    ensures ValidateFrequency("hourly").Err?
  {
  }

  /** `getStringWithDefault`: the label's value unless it is missing or empty. */
  function GetStringWithDefault(labels: Labels, key: string, default: string): (r: string)
    ensures Lookup(labels, key) != "" ==> r == labels[key]
    ensures Lookup(labels, key) == "" ==> r == default
    ensures r == "" ==> default == ""
  {
    var val := Lookup(labels, key);
    if val != "" then val else default
  }

  /** An empty value is treated exactly like a missing key. */
  lemma EmptyValueIsMissing(labels: Labels, key: string, default: string)
    ensures GetStringWithDefault(labels[key := ""], key, default)
         == GetStringWithDefault(labels - {key}, key, default)
         == default
  {
  }

  /** `parseIntWithDefault`: the default for a missing or empty label, otherwise exactly what Atoi says. */
  function ParseIntWithDefault(labels: Labels, key: string, default: int): (r: Result<int, NumError>)
    ensures Lookup(labels, key) == "" ==> r == Ok(default)
    ensures Lookup(labels, key) != "" ==> r == Atoi(labels[key])
  {
    var val := Lookup(labels, key);
    if val != "" then Atoi(val) else Ok(default)
  }

  /** There is no range check: any 64-bit value Atoi reads is passed on, however large or negative. */
  lemma ParseIntHasNoRangeCheck(labels: Labels, key: string, n: int)
    requires MinInt <= n <= MaxInt && Lookup(labels, key) == Itoa(n)
    ensures ParseIntWithDefault(labels, key, 1) == Ok(n)
  {
    AtoiItoa(n);
    if n < 0 {
      assert Itoa(n) == "-" + NatDigits(-n);
    } else {
      assert Itoa(n) == NatDigits(n);
    }
  }

  /**
   * A value that is not an integer literal is an error, never the default:
   * a range error when its leading digits already overflow `uint64`, a
   * syntax error otherwise.
   */
  lemma ParseIntRejectsNonNumeric(labels: Labels, key: string, default: int)
    requires Lookup(labels, key) != "" && !IsIntLiteral(labels[key])
    ensures OverflowsFirst(labels[key]) ==> ParseIntWithDefault(labels, key, default) == Err(ErrRange(labels[key]))
    ensures !OverflowsFirst(labels[key]) ==> ParseIntWithDefault(labels, key, default) == Err(ErrSyntax(labels[key]))
  {
  }

  // ---------------------------------------------------------------------------
  // buildStorageConfig

  /** The `storage` label, `local` when missing or empty. */
  function StorageType(labels: Labels): string
  {
    GetStringWithDefault(labels, "storage", "local")
  }

  /**
   * The selection `buildStorageConfig` makes: `local` sets only the local
   * configuration, from `storage.local.root_path`; `s3` sets only the S3 one,
   * from its four labels; any other type is an error naming it.
   */
  function StorageConfigOf(labels: Labels): (r: Result<StorageConfig, ConfigError>)
    ensures r.Ok? <==> StorageType(labels) in {"local", "s3"}
    ensures r.Err? ==> r.error == StorageError(StorageType(labels))
    ensures r.Ok? ==> (r.value.local.Some? <==> StorageType(labels) == "local")
    ensures r.Ok? ==> (r.value.s3.Some? <==> StorageType(labels) == "s3")
    ensures r.Ok? && r.value.local.Some? ==> r.value.local.value.rootPath == Lookup(labels, "storage.local.root_path")
    ensures r.Ok? && r.value.s3.Some? ==>
              r.value.s3.value == S3StorageConfig(Lookup(labels, "storage.s3.access_key"), Lookup(labels, "storage.s3.secret_key"),
                                                  Lookup(labels, "storage.s3.region"), Lookup(labels, "storage.s3.bucket"))
  {
    var storageType := StorageType(labels);
    if storageType == "local" then
      Ok(StorageConfig(Some(LocalStorageConfig(Lookup(labels, "storage.local.root_path"))), None))
    else if storageType == "s3" then
      Ok(StorageConfig(None, Some(S3StorageConfig(Lookup(labels, "storage.s3.access_key"), Lookup(labels, "storage.s3.secret_key"),
                                                  Lookup(labels, "storage.s3.region"), Lookup(labels, "storage.s3.bucket")))))
    else Err(StorageError(storageType))
  }

  /** `buildStorageConfig`: start from an empty configuration and fill in the selected side. */
  method BuildStorageConfig(labels: Labels) returns (r: Result<StorageConfig, ConfigError>)
    ensures r == StorageConfigOf(labels)
  {
    var storageType := GetStringWithDefault(labels, "storage", "local");
    var storageConfig := StorageConfig(None, None);
    if storageType == "local" {
      storageConfig := storageConfig.(local := Some(LocalStorageConfig(Lookup(labels, "storage.local.root_path"))));
    } else if storageType == "s3" {
      storageConfig := storageConfig.(s3 := Some(S3StorageConfig(
        accessKey := Lookup(labels, "storage.s3.access_key"),
        secretKey := Lookup(labels, "storage.s3.secret_key"),
        region := Lookup(labels, "storage.s3.region"),
        bucket := Lookup(labels, "storage.s3.bucket"))));
    } else {
      return Err(StorageError(storageType));
    }
    return Ok(storageConfig);
  }

  /**
   * The configuration built for a storage type is the one `NewStorage` needs
   * when asked for that same location: it selects a back end holding it.
   */
  lemma StorageConfigFitsNewStorage(ctx: ProviderContext, labels: Labels)
    requires StorageConfigOf(labels).Ok?
    ensures var cfg := StorageConfigOf(labels).value;
            var st := NewStorage(ctx, StorageType(labels), cfg);
            && st.Some?
            && (st.value.LocalStorage? ==> cfg.local == Some(st.value.localConfig))
            && (st.value.S3Storage? ==> cfg.s3 == Some(st.value.s3Config))
  {
  }

  /**
   * The `storage` and `location` labels are separate: asking for S3 storage
   * while leaving `location` at its default `local` gives a configuration
   * from which `NewStorage` selects nothing.
   */
  lemma S3StorageWithDefaultLocation(ctx: ProviderContext, labels: Labels)
    requires Lookup(labels, "storage") == "s3" && Lookup(labels, "location") == ""
    ensures StorageConfigOf(labels).Ok?
    ensures NewStorage(ctx, GetStringWithDefault(labels, "location", "local"), StorageConfigOf(labels).value).None?
  {
  }

  // ---------------------------------------------------------------------------
  // buildProviderConfig

  /** The `provider` label, `local` when missing or empty. */
  function ProviderType(labels: Labels): string
  {
    GetStringWithDefault(labels, "provider", "local")
  }

  /** How many provider configurations are set. */
  function SetCount(pc: ProviderConfig): nat
  {
    (if pc.postgres then 1 else 0) + (if pc.redis then 1 else 0) + (if pc.clickhouse then 1 else 0)
    + (if pc.nats then 1 else 0) + (if pc.rabbitmq then 1 else 0)
  }

  /**
   * The selection `buildProviderConfig` makes: the configuration for the named
   * provider kind is set, and nothing else; an unknown tag, `local` (the
   * default) included, sets nothing. It never fails.
   */
  function ProviderConfigOf(labels: Labels): (pc: ProviderConfig)
    ensures pc.postgres <==> ProviderType(labels) == "postgres"
    ensures pc.redis <==> ProviderType(labels) == "redis"
    ensures pc.clickhouse <==> ProviderType(labels) == "clickhouse"
    ensures pc.nats <==> ProviderType(labels) == "nats"
    ensures pc.rabbitmq <==> ProviderType(labels) == "rabbitmq"
  {
    var t := ProviderType(labels);
    ProviderConfig(t == "postgres", t == "redis", t == "clickhouse", t == "nats", t == "rabbitmq")
  }

  /** `buildProviderConfig`: start from an empty configuration and set the selected field. */
  method BuildProviderConfig(labels: Labels) returns (pc: ProviderConfig)
    ensures pc == ProviderConfigOf(labels)
  {
    var providerType := GetStringWithDefault(labels, "provider", "local");
    pc := ProviderConfig(false, false, false, false, false);
    if providerType == "postgres" {
      pc := pc.(postgres := true);
    } else if providerType == "redis" {
      pc := pc.(redis := true);
    } else if providerType == "clickhouse" {
      pc := pc.(clickhouse := true);
    } else if providerType == "nats" {
      pc := pc.(nats := true);
    } else if providerType == "rabbitmq" {
      pc := pc.(rabbitmq := true);
    }
  }

  /**
   * At most one configuration is set, and one is set exactly when the
   * provider factory knows the tag; the default `local` sets none.
   */
  lemma ProviderConfigMatchesFactory(ctx: ProviderContext, labels: Labels)
    ensures SetCount(ProviderConfigOf(labels)) <= 1
    ensures SetCount(ProviderConfigOf(labels)) == 1 <==> NewProvider(ctx, ProviderType(labels)).Some?
    ensures Lookup(labels, "provider") == "" ==> SetCount(ProviderConfigOf(labels)) == 0
  {
  }

  // ---------------------------------------------------------------------------
  // parseConfig

  /** `&scheduler.Config{Enabled: false}`: every other field at its zero value. */
  const DisabledConfig: Config :=
    Config(false, "", "", 0, 0, 0, None, "", "", "", None, None)

  /**
   * `parseConfig`: disabled unless `enabled` is exactly `true`; then the
   * checks run in the order time zone, frequency, day of month, day of week,
   * day of year, storage, and the first failure is returned.
   */
  function ParseConfig(labels: Labels, loadLocation: string -> Result<Zone, string>): (r: Result<Config, ConfigError>)
    ensures Lookup(labels, "enabled") != "true" ==> r == Ok(DisabledConfig)
    ensures r.Ok? ==> (r.value.enabled <==> Lookup(labels, "enabled") == "true")
    ensures Lookup(labels, "enabled") == "true" && r.Ok? ==>
              && r.value.enabled
              && r.value.frequency == Lookup(labels, "frequency")
              && r.value.time == GetStringWithDefault(labels, "time", "00:00")
              && r.value.timeZone.Some?
              && loadLocation(GetStringWithDefault(labels, "time_zone", "UTC")) == Ok(r.value.timeZone.value)
              && ParseIntWithDefault(labels, "day_of_month", 1) == Ok(r.value.dayOfMonth)
              && ParseIntWithDefault(labels, "day_of_week", 0) == Ok(r.value.dayOfWeek)
              && ParseIntWithDefault(labels, "day_of_year", 1) == Ok(r.value.dayOfYear)
              && r.value.provider == GetStringWithDefault(labels, "provider", "local")
              && r.value.location == GetStringWithDefault(labels, "location", "local")
              && r.value.locationPath == ""
              && r.value.storageConfig.Some? && StorageConfigOf(labels) == Ok(r.value.storageConfig.value)
              && r.value.providerConfig == Some(ProviderConfigOf(labels))
  {
    if Lookup(labels, "enabled") != "true" then Ok(DisabledConfig)
    else
      var tz := loadLocation(GetStringWithDefault(labels, "time_zone", "UTC"));
      if tz.Err? then Err(TimeZoneError(tz.error))
      else
        var frequency := ValidateFrequency(Lookup(labels, "frequency"));
        if frequency.Err? then Err(frequency.error)
        else
          var dayOfMonth := ParseIntWithDefault(labels, "day_of_month", 1);
          if dayOfMonth.Err? then Err(DayOfMonthError(dayOfMonth.error))
          else
            var dayOfWeek := ParseIntWithDefault(labels, "day_of_week", 0);
            if dayOfWeek.Err? then Err(DayOfWeekError(dayOfWeek.error))
            else
              var dayOfYear := ParseIntWithDefault(labels, "day_of_year", 1);
              if dayOfYear.Err? then Err(DayOfYearError(dayOfYear.error))
              else
                var storageConfig := StorageConfigOf(labels);
                if storageConfig.Err? then Err(storageConfig.error)
                else
                  Ok(Config(
                    enabled := true,
                    frequency := frequency.value,
                    time := GetStringWithDefault(labels, "time", "00:00"),
                    dayOfWeek := dayOfWeek.value,
                    dayOfMonth := dayOfMonth.value,
                    dayOfYear := dayOfYear.value,
                    timeZone := Some(tz.value),
                    provider := GetStringWithDefault(labels, "provider", "local"),
                    location := GetStringWithDefault(labels, "location", "local"),
                    locationPath := "",
                    storageConfig := Some(storageConfig.value),
                    providerConfig := Some(ProviderConfigOf(labels))))
  }

  /** While disabled, no other label is looked at: two label sets that agree on `enabled` give the same result. */
  lemma DisabledIgnoresOtherLabels(a: Labels, b: Labels, loadA: string -> Result<Zone, string>, loadB: string -> Result<Zone, string>)
    requires Lookup(a, "enabled") != "true" && Lookup(a, "enabled") == Lookup(b, "enabled")
    ensures ParseConfig(a, loadA) == ParseConfig(b, loadB) == Ok(DisabledConfig)
  {
  }

  /** The first failing check decides the error. */
  lemma ParseConfigErrorOrder(labels: Labels, loadLocation: string -> Result<Zone, string>)
    requires Lookup(labels, "enabled") == "true"
    ensures var r := ParseConfig(labels, loadLocation);
            var tz := loadLocation(GetStringWithDefault(labels, "time_zone", "UTC"));
            var freq := ValidateFrequency(Lookup(labels, "frequency"));
            var dom := ParseIntWithDefault(labels, "day_of_month", 1);
            var dow := ParseIntWithDefault(labels, "day_of_week", 0);
            var doy := ParseIntWithDefault(labels, "day_of_year", 1);
            && (tz.Err? ==> r == Err(TimeZoneError(tz.error)))
            && (tz.Ok? && freq.Err? ==> r == Err(FrequencyError(Lookup(labels, "frequency"))))
            && (tz.Ok? && freq.Ok? && dom.Err? ==> r == Err(DayOfMonthError(dom.error)))
            && (tz.Ok? && freq.Ok? && dom.Ok? && dow.Err? ==> r == Err(DayOfWeekError(dow.error)))
            && (tz.Ok? && freq.Ok? && dom.Ok? && dow.Ok? && doy.Err? ==> r == Err(DayOfYearError(doy.error)))
            && (tz.Ok? && freq.Ok? && dom.Ok? && dow.Ok? && doy.Ok? && StorageConfigOf(labels).Err? ==>
                  r == Err(StorageError(StorageType(labels))))
            && (r.Ok? <==> tz.Ok? && freq.Ok? && dom.Ok? && dow.Ok? && doy.Ok? && StorageConfigOf(labels).Ok?)
  {
  }

  /**
   * With only `enabled=true` and a frequency, every other field takes its
   * default: zone `UTC`, time `00:00`, day of month 1, day of week 0, day of
   * year 1, provider and location `local`, local storage with an empty root
   * path, and no provider configuration set.
   */
  lemma ParseConfigDefaults(freq: string, loadLocation: string -> Result<Zone, string>, utc: Zone)
    requires freq in {Daily, Weekly, Monthly, Yearly} && loadLocation("UTC") == Ok(utc)
    ensures ParseConfig(map["enabled" := "true", "frequency" := freq], loadLocation)
         == Ok(Config(true, freq, "00:00", 0, 1, 1, Some(utc), "local", "local", "",
                      Some(StorageConfig(Some(LocalStorageConfig("")), None)),
                      Some(ProviderConfig(false, false, false, false, false))))
  {
    var labels := map["enabled" := "true", "frequency" := freq];
    assert GetStringWithDefault(labels, "time_zone", "UTC") == "UTC";
    assert ValidateFrequency(Lookup(labels, "frequency")) == Ok(freq);
    assert ParseIntWithDefault(labels, "day_of_month", 1) == Ok(1);
    assert ParseIntWithDefault(labels, "day_of_week", 0) == Ok(0);
    assert ParseIntWithDefault(labels, "day_of_year", 1) == Ok(1);
    assert StorageConfigOf(labels) == Ok(StorageConfig(Some(LocalStorageConfig("")), None));
    assert ProviderConfigOf(labels) == ProviderConfig(false, false, false, false, false);
    assert GetStringWithDefault(labels, "time", "00:00") == "00:00";
    assert GetStringWithDefault(labels, "provider", "local") == "local";
    assert GetStringWithDefault(labels, "location", "local") == "local";
  }

  /**
   * Day values are passed through unchecked: a day of week of 9 is accepted
   * here and only rejected later, by the scheduler's own check.
   */
  lemma DayOfWeekPassedThrough(loadLocation: string -> Result<Zone, string>, utc: Zone)
    requires loadLocation("UTC") == Ok(utc)
    ensures var r := ParseConfig(map["enabled" := "true", "frequency" := Weekly, "day_of_week" := "9"], loadLocation);
            r.Ok? && r.value.dayOfWeek == 9 && FrequencyCheck(r.value) == Fail(DayOfWeekOutOfRange)
  {
    AtoiItoa(9);
    assert Itoa(9) == "9";
  }
}

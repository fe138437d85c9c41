/**
 * Backup providers (internal/provider): the per-database variants, the
 * `NewProvider` tag-to-variant factory and the per-variant constructors.
 * The Docker exec and stream plumbing of `Backup`/`Restore` is not modelled;
 * only the file name that the Postgres backup writes is.
 */
module Provider {
  import opened Wrappers

  /** An opaque reference to something the core only passes along (a log session, a Docker client). */
  datatype Handle = Handle(id: nat)

  /** `ProviderContext`: what every provider is built with. */
  datatype ProviderContext = ProviderContext(session: Handle, client: Handle, containerID: string)

  /**
   * `ProviderConfig`: one optional, field-less configuration per provider kind;
   * `true` stands for a non-nil pointer.
   */
  datatype ProviderConfig = ProviderConfig(postgres: bool, redis: bool, clickhouse: bool, nats: bool, rabbitmq: bool)

  datatype Provider =
    | PostgresProvider(name: string, images: seq<string>, ext: string, ctx: ProviderContext)
    | RedisProvider(name: string, images: seq<string>, ext: string, ctx: ProviderContext)
    | ClickhouseProvider(ctx: ProviderContext)
    | NatsProvider(ctx: ProviderContext)
    | RabbitMQProvider(ctx: ProviderContext)

  const KnownTags: set<string> := {"postgres", "redis", "clickhouse", "nats", "rabbitmq"}

  /** The tag each variant is selected by. */
  function Tag(p: Provider): string
  {
    match p
    case PostgresProvider(_, _, _, _) => "postgres"
    case RedisProvider(_, _, _, _) => "redis"
    case ClickhouseProvider(_) => "clickhouse"
    case NatsProvider(_) => "nats"
    case RabbitMQProvider(_) => "rabbitmq"
  }

  /**
   * `NewProvider` as written: a case-sensitive switch on the tag that builds a
   * struct literal holding only `ctx`; every other tag, "local" included, gives nil.
   */
  function NewProvider(ctx: ProviderContext, provider: string): (r: Option<Provider>)
    ensures r.Some? <==> provider in KnownTags
    ensures r.Some? ==> Tag(r.value) == provider && r.value.ctx == ctx
    ensures r.Some? && (r.value.PostgresProvider? || r.value.RedisProvider?) ==>
              r.value.name == "" && r.value.images == [] && r.value.ext == ""
  {
    match provider
    case "postgres" => Some(PostgresProvider("", [], "", ctx))
    case "redis" => Some(RedisProvider("", [], "", ctx))
    case "clickhouse" => Some(ClickhouseProvider(ctx))
    case "nats" => Some(NatsProvider(ctx))
    case "rabbitmq" => Some(RabbitMQProvider(ctx))
    case _ => None
  }

  /** Tags are compared exactly: a different spelling or letter case selects nothing. */
  lemma NewProviderIsCaseSensitive(ctx: ProviderContext)
    ensures NewProvider(ctx, "Postgres").None? && NewProvider(ctx, "REDIS").None?
    ensures NewProvider(ctx, "local").None? && NewProvider(ctx, "").None?
  {
  }

  /** The variant's own constructor `NewPostgresProvider`. */
  function NewPostgresProvider(ctx: ProviderContext): (p: Provider)
    ensures p.PostgresProvider? && p.ctx == ctx && p.ext == "sql"
  {
    PostgresProvider("postgres", ["postgres"], "sql", ctx)
  }

  /** The variant's own constructor `NewRedisProvider`. */
  function NewRedisProvider(ctx: ProviderContext): (p: Provider)
    ensures p.RedisProvider? && p.ctx == ctx && p.ext == "dump"
  {
    RedisProvider("redis", ["redis"], "dump", ctx)
  }

  /** The name a Postgres backup is stored under: `backup_<timestamp>.<ext>`. */
  function BackupFileName(timestamp: string, ext: string): (name: string)
    ensures name == "backup_" + timestamp + "." + ext
    ensures |name| == 8 + |timestamp| + |ext|
  {
    "backup_" + timestamp + "." + ext
  }

  /**
   * As written, the factory's Postgres provider has an empty extension, so its
   * backups are named `backup_<timestamp>.` with nothing after the dot.
   */
  lemma FactoryPostgresFileNameHasNoExtension(ctx: ProviderContext, timestamp: string)
    ensures NewProvider(ctx, "postgres").Some?
    ensures var p := NewProvider(ctx, "postgres").value;
            var name := BackupFileName(timestamp, p.ext);
            name[|name| - 1] == '.' && p.ext != NewPostgresProvider(ctx).ext
  {
  }

  /**
   * `NewProvider` as evidently intended: the same selection, but each variant is
   * built by its own constructor, so Postgres and Redis keep their extensions.
   */
  function NewProviderWithDefaults(ctx: ProviderContext, provider: string): (r: Option<Provider>)
    ensures r.Some? <==> provider in KnownTags
    ensures r.Some? ==> Tag(r.value) == provider && r.value.ctx == ctx
    ensures r.Some? && r.value.PostgresProvider? ==> r.value.ext == "sql"
    ensures r.Some? && r.value.RedisProvider? ==> r.value.ext == "dump"
  {
    match provider
    case "postgres" => Some(NewPostgresProvider(ctx))
    case "redis" => Some(NewRedisProvider(ctx))
    case "clickhouse" => Some(ClickhouseProvider(ctx))
    case "nats" => Some(NatsProvider(ctx))
    case "rabbitmq" => Some(RabbitMQProvider(ctx))
    case _ => None
  }

  /** With the intended factory a Postgres backup file name ends in `.sql`. */
  lemma IntendedPostgresFileNameEndsInSql(ctx: ProviderContext, timestamp: string)
    ensures NewProviderWithDefaults(ctx, "postgres").Some?
    ensures var name := BackupFileName(timestamp, NewProviderWithDefaults(ctx, "postgres").value.ext);
            name[|name| - 4..] == ".sql"
  {
  }

  /** Both factories select the same tags and differ only in the fields the constructors fill in. */
  lemma FactoriesAgreeOnSelection(ctx: ProviderContext, provider: string)
    ensures NewProvider(ctx, provider).Some? == NewProviderWithDefaults(ctx, provider).Some?
    ensures NewProvider(ctx, provider).Some? ==>
              Tag(NewProvider(ctx, provider).value) == Tag(NewProviderWithDefaults(ctx, provider).value)
  {
  }
}

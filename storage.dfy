/**
 * Storage back ends (internal/storage): their configurations and the
 * `NewStorage` selection rule. The file-system and S3 I/O of `Put`/`Get` is
 * not modelled; what is kept is whether a back end has what `Put` needs.
 */
module Storage {
  import opened Wrappers
  import opened Provider

  datatype LocalStorageConfig = LocalStorageConfig(rootPath: string)

  datatype S3StorageConfig = S3StorageConfig(accessKey: string, secretKey: string, region: string, bucket: string)

  /** `StorageConfig`: two optional (nil-able) back-end configurations. */
  datatype StorageConfig = StorageConfig(local: Option<LocalStorageConfig>, s3: Option<S3StorageConfig>)

  /** `LocalStorage` and `S3Storage`; an S3 back end holds an S3 client, possibly nil. */
  datatype Storage =
    | LocalStorage(localConfig: LocalStorageConfig)
    | S3Storage(client: Option<Handle>, s3Config: S3StorageConfig)

  /** Whether `Put` can run without dereferencing a nil pointer. */
  predicate CanPut(st: Storage)
  {
    st.LocalStorage? || st.client.Some?
  }

  /**
   * `NewStorage` as written: selection is by the location string alone; the
   * chosen configuration must be present and is copied into the back end.
   * The log session in `ctx` only receives the error messages.
   */
  function NewStorage(ctx: ProviderContext, location: string, config: StorageConfig): (r: Option<Storage>)
    ensures r.Some? <==> (location == "local" && config.local.Some?) || (location == "s3" && config.s3.Some?)
    ensures r.Some? && location == "local" ==> r.value == LocalStorage(config.local.value)
    ensures r.Some? && location == "s3" ==> r.value.S3Storage? && r.value.s3Config == config.s3.value
  {
    match location
    case "local" => if config.local.None? then None else Some(LocalStorage(config.local.value))
    case "s3" => if config.s3.None? then None else Some(S3Storage(None, config.s3.value))
    case _ => None
  }

  /** The configuration for the other back end plays no part: "s3" with only a local configuration is nil. */
  lemma SelectionIgnoresOtherConfig(ctx: ProviderContext, local: LocalStorageConfig)
    ensures NewStorage(ctx, "s3", StorageConfig(Some(local), None)).None?
    ensures NewStorage(ctx, "local", StorageConfig(Some(local), None)) == Some(LocalStorage(local))
  {
  }

  /**
   * As written, an S3 back end built by `NewStorage` has a nil client, so its
   * `Put` (s3.go, `s.client.PutObject`) dereferences nil.
   */
  lemma FactoryS3StorageCannotPut(ctx: ProviderContext, c: S3StorageConfig)
    ensures var r := NewStorage(ctx, "s3", StorageConfig(None, Some(c)));
            r.Some? && !CanPut(r.value)
  {
  }

  /**
   * `NewS3Storage`: builds the client from the configuration; loading the AWS
   * configuration is an oracle that may fail.
   */
  function NewS3Storage(c: S3StorageConfig, loadClient: S3StorageConfig -> Option<Handle>): (r: Option<Storage>)
    ensures r.Some? <==> loadClient(c).Some?
    ensures r.Some? ==> r.value == S3Storage(loadClient(c), c) && CanPut(r.value)
  {
    match loadClient(c)
    case None => None
    case Some(client) => Some(S3Storage(Some(client), c))
  }

  /**
   * `NewStorage` as evidently intended: the S3 case goes through
   * `NewS3Storage`, so every back end it returns can `Put`.
   */
  function NewStorageWithClient(ctx: ProviderContext, location: string, config: StorageConfig,
                                loadClient: S3StorageConfig -> Option<Handle>): (r: Option<Storage>)
    ensures r.Some? ==> CanPut(r.value)
    ensures r.Some? ==> (location == "local" && config.local.Some?) || (location == "s3" && config.s3.Some?)
    ensures location == "local" ==> r == NewStorage(ctx, location, config)
  {
    match location
    case "local" => if config.local.None? then None else Some(LocalStorage(config.local.value))
    case "s3" => if config.s3.None? then None else NewS3Storage(config.s3.value, loadClient)
    case _ => None
  }
}

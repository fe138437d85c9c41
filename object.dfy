/**
 * The backup object (internal/object): the guards of its constructor `New`
 * and the functional options `WithMetadata` and `WithSize`, applied in order
 * to the freshly built object. The context is represented by the error it
 * reports, if any; `time.Now()` is the `now` parameter; the reader is an
 * opaque handle, possibly nil.
 */
module Object {
  import opened Wrappers
  import opened Calendar

  newtype Int64 = x: int | -0x8000_0000_0000_0000 <= x < 0x8000_0000_0000_0000

  /** What `ctx.Err()` can report. */
  datatype ContextError = Canceled | DeadlineExceeded

  datatype ObjectError =
    | ContextFailed(cause: ContextError)
    | EmptyExtension
    | NilReader

  /** An `io.ReadCloser`, only passed along. */
  datatype Reader = Reader(id: nat)

  /** The two functional options. */
  datatype ObjectOption =
    | WithMetadata(metadata: map<string, string>)
    | WithSize(size: Int64)

  /** The part of an object the options can change. */
  datatype Settings = Settings(size: Int64, metadata: map<string, string>)

  /** One option: `WithSize` sets the size, `WithMetadata` replaces the whole map. */
  function ApplyOption(s: Settings, opt: ObjectOption): (t: Settings)
    ensures opt.WithSize? ==> t == Settings(opt.size, s.metadata)
    ensures opt.WithMetadata? ==> t == Settings(s.size, opt.metadata)
  {
    match opt
    case WithMetadata(m) => s.(metadata := m)
    case WithSize(n) => s.(size := n)
  }

  /** The options applied left to right. */
  function ApplyOptions(s: Settings, opts: seq<ObjectOption>): Settings
  {
    if opts == [] then s else ApplyOption(ApplyOptions(s, opts[..|opts| - 1]), opts[|opts| - 1])
  }

  /** The settings of a new object before any option: size 0 and an empty metadata map. */
  const Initial: Settings := Settings(0, map[])

  /** The size is decided by the last `WithSize` option. */
  lemma {:induction false} LastSizeWins(s: Settings, opts: seq<ObjectOption>, i: int)
    requires 0 <= i < |opts| && opts[i].WithSize?
    requires forall j :: i < j < |opts| ==> !opts[j].WithSize?
    ensures ApplyOptions(s, opts).size == opts[i].size
  {
    var init := opts[..|opts| - 1];
    if i < |opts| - 1 {
      assert init[i] == opts[i];
      forall j | i < j < |init|
        ensures !init[j].WithSize?
      {
        assert init[j] == opts[j];
      }
      LastSizeWins(s, init, i);
    }
  }

  /** The metadata is the map of the last `WithMetadata` option, whatever came before. */
  lemma {:induction false} LastMetadataWins(s: Settings, opts: seq<ObjectOption>, i: int)
    requires 0 <= i < |opts| && opts[i].WithMetadata?
    requires forall j :: i < j < |opts| ==> !opts[j].WithMetadata?
    ensures ApplyOptions(s, opts).metadata == opts[i].metadata
  {
    var init := opts[..|opts| - 1];
    if i < |opts| - 1 {
      assert init[i] == opts[i];
      forall j | i < j < |init|
        ensures !init[j].WithMetadata?
      {
        assert init[j] == opts[j];
      }
      LastMetadataWins(s, init, i);
    }
  }

  /** Without a `WithSize` option the size stays what it was; likewise for the metadata. */
  lemma {:induction false} UntouchedSettings(s: Settings, opts: seq<ObjectOption>)
    ensures (forall j :: 0 <= j < |opts| ==> !opts[j].WithSize?) ==> ApplyOptions(s, opts).size == s.size
    ensures (forall j :: 0 <= j < |opts| ==> !opts[j].WithMetadata?) ==> ApplyOptions(s, opts).metadata == s.metadata
  {
    if opts != [] {
      var init := opts[..|opts| - 1];
      UntouchedSettings(s, init);
      assert forall j :: 0 <= j < |init| ==> init[j] == opts[j];
    }
  }

  /** Metadata is replaced, not merged: a key set before is gone unless the new map has it. */
  lemma MetadataReplaced(s: Settings, m: map<string, string>, key: string)
    requires key in s.metadata && key !in m
    ensures key !in ApplyOptions(s, [WithMetadata(m)]).metadata
  {
    assert [WithMetadata(m)][..0] == [];
  }

  /** The two kinds of option touch different fields, so a size and a metadata option commute. */
  lemma SizeAndMetadataCommute(s: Settings, n: Int64, m: map<string, string>)
    ensures ApplyOptions(s, [WithSize(n), WithMetadata(m)]) == ApplyOptions(s, [WithMetadata(m), WithSize(n)])
  {
    assert [WithSize(n), WithMetadata(m)][..1] == [WithSize(n)];
    assert [WithMetadata(m), WithSize(n)][..1] == [WithMetadata(m)];
    assert [WithSize(n)][..0] == [];
    assert [WithMetadata(m)][..0] == [];
  }

  /** `backupObject`: the options change `size` and `metadata` in place. */
  class BackupObject {
    const extension: string
    const createdAt: DateTime
    const reader: Reader
    var size: Int64
    var metadata: map<string, string>

    function CurrentSettings(): Settings
      reads this
    {
      Settings(size, metadata)
    }

    /** The struct literal of `New`: size 0 and an empty metadata map. */
    constructor (ext: string, reader: Reader, now: DateTime)
      ensures extension == ext && this.reader == reader && createdAt == now
      ensures CurrentSettings() == Initial
    {
      extension := ext;
      this.reader := reader;
      createdAt := now;
      size := 0;
      metadata := map[];
    }

    /** `opt(obj)`: one option's update. */
    method Apply(opt: ObjectOption)
      modifies this
      ensures CurrentSettings() == ApplyOption(old(CurrentSettings()), opt)
    {
      match opt
      case WithMetadata(m) => metadata := m;
      case WithSize(n) => size := n;
    }
  }

  /**
   * `New`: the context error first, then an empty extension, then a nil
   * reader; on success a fresh object with the given extension and reader,
   * created at `now`, with the options applied in order to size 0 and an
   * empty metadata map.
   */
  method New(ctxErr: Option<ContextError>, ext: string, reader: Option<Reader>, opts: seq<ObjectOption>, now: DateTime)
      returns (r: Result<BackupObject, ObjectError>)
    ensures ctxErr.Some? ==> r == Err(ContextFailed(ctxErr.value))
    ensures ctxErr.None? && ext == "" ==> r == Err(EmptyExtension)
    ensures ctxErr.None? && ext != "" && reader.None? ==> r == Err(NilReader)
    ensures r.Ok? <==> ctxErr.None? && ext != "" && reader.Some?
    ensures r.Ok? ==> && fresh(r.value)
                      && r.value.extension == ext && r.value.reader == reader.value && r.value.createdAt == now
                      && r.value.CurrentSettings() == ApplyOptions(Initial, opts)
  {
    if ctxErr.Some? {
      return Err(ContextFailed(ctxErr.value));
    }
    if ext == "" {
      return Err(EmptyExtension);
    }
    if reader.None? {
      return Err(NilReader);
    }
    var obj := new BackupObject(ext, reader.value, now);
    for i := 0 to |opts|
      invariant obj.CurrentSettings() == ApplyOptions(Initial, opts[..i])
    {
      obj.Apply(opts[i]);
      assert opts[..i + 1][..i] == opts[..i];
    }
    assert opts[..|opts|] == opts;
    return Ok(obj);
  }
}

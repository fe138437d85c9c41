/**
 * Container environment helpers (internal/utils): `parseEnvVar` splits one
 * `KEY=value` entry at its first `=` and trims both halves; `GetContainerEnv`
 * folds a container's entries into a map. The Docker inspect call is the
 * `inspect` parameter, its result or its error.
 */
module Utils {
  import opened Wrappers
  import opened Strings

  /** No white space at either end. */
  predicate Trimmed(s: string)
  {
    s == [] || (!IsSpace(s[0]) && !IsSpace(s[|s| - 1]))
  }

  /**
   * `parseEnvVar`: an entry without `=` gives two empty strings; otherwise the
   * trimmed text before the first `=` and the trimmed text after it.
   */
  function ParseEnvVar(env: string): (kv: (string, string))
    ensures Trimmed(kv.0) && Trimmed(kv.1) && '=' !in kv.0
  {
    var parts := SplitN2(env, '=');
    if |parts| != 2 then ("", "")
    else
      TrimSpaceKeepsAbsent(parts[0], '=');
      (TrimSpace(parts[0]), TrimSpace(parts[1]))
  }

  /**
   * What `parseEnvVar` computes: an entry without `=` gives two empty strings;
   * otherwise the trimmed text before the first `=` and the trimmed text after it.
   */
  lemma ParseEnvVarSpec(env: string)
    ensures '=' !in env ==> ParseEnvVar(env) == ("", "")
    ensures '=' in env ==> var i := IndexOf(env, '=');
                           ParseEnvVar(env) == (TrimSpace(env[..i]), TrimSpace(env[i + 1..]))
  {
  }

  /**
   * A key without `=` and a value, both already trimmed, come back unchanged
   * from their entry `key=value`, even when the value itself contains `=`.
   */
  lemma ParseEnvVarOfEntry(key: string, value: string)
    requires '=' !in key && Trimmed(key) && Trimmed(value)
    ensures ParseEnvVar(key + "=" + value) == (key, value)
  {
    var env := key + "=" + value;
    var i := IndexOf(env, '=');
    assert env[..|key|] == key;
    assert env[|key|] == '=';
    assert i == |key|;
    assert env[i + 1..] == value;
    TrimSpaceOfTrimmed(key);
    TrimSpaceOfTrimmed(value);
  }

  /** Only the first `=` splits: `A=b=c` has key `A` and value `b=c`. */
  lemma ParseEnvVarSplitsAtFirst()
    ensures ParseEnvVar("A=b=c") == ("A", "b=c")
  {
    EntryOfKeyAndValue();
    ParseEnvVarOfEntry("A", "b=c");
  }

  lemma EntryOfKeyAndValue()
    ensures "A" + "=" + "b=c" == "A=b=c"
  {
  }

  /** `f` applied to each element, in order. */
  function MapSeq<A, B>(f: A -> B, s: seq<A>): (r: seq<B>)
    ensures |r| == |s|
  {
    if s == [] then [] else MapSeq(f, s[..|s| - 1]) + [f(s[|s| - 1])]
  }

  lemma {:induction false} MapSeqAt<A, B>(f: A -> B, s: seq<A>, i: int)
    requires 0 <= i < |s|
    ensures MapSeq(f, s)[i] == f(s[i])
  {
    var init := s[..|s| - 1];
    if i < |init| {
      MapSeqAt(f, init, i);
      assert init[i] == s[i];
    }
  }

  lemma MapSeqSnoc<A, B>(f: A -> B, s: seq<A>, x: A)
    ensures MapSeq(f, s + [x]) == MapSeq(f, s) + [f(x)]
  {
    assert (s + [x])[..|s|] == s;
  }

  /** Insert the pairs in order, skipping empty keys, so that a later key overwrites. */
  function Insert(pairs: seq<(string, string)>): (env: map<string, string>)
    ensures "" !in env
  {
    if pairs == [] then map[]
    else
      var env := Insert(pairs[..|pairs| - 1]);
      var (key, value) := pairs[|pairs| - 1];
      if key != "" then env[key := value] else env
  }

  lemma InsertSnoc(pairs: seq<(string, string)>, p: (string, string))
    ensures Insert(pairs + [p]) == if p.0 != "" then Insert(pairs)[p.0 := p.1] else Insert(pairs)
  {
    assert (pairs + [p])[..|pairs|] == pairs;
  }

  /** The map `GetContainerEnv` builds from the entries. */
  function EnvMap(entries: seq<string>): map<string, string>
  {
    Insert(MapSeq(ParseEnvVar, entries))
  }

  /** A key is in the map exactly when some pair has that (non-empty) key. */
  lemma {:induction false} InsertKeys(pairs: seq<(string, string)>, k: string)
    ensures k in Insert(pairs) <==> k != "" && exists i :: 0 <= i < |pairs| && pairs[i].0 == k
  {
    if pairs != [] {
      var init := pairs[..|pairs| - 1];
      InsertKeys(init, k);
      if exists i :: 0 <= i < |init| && init[i].0 == k {
        var i :| 0 <= i < |init| && init[i].0 == k;
        assert pairs[i] == init[i];
      }
      if exists i :: 0 <= i < |pairs| && pairs[i].0 == k {
        var i :| 0 <= i < |pairs| && pairs[i].0 == k;
        if i < |init| {
          assert init[i] == pairs[i];
        }
      }
    }
  }

  /** On duplicate keys the last pair with that key decides the value. */
  lemma {:induction false} LastPairWins(pairs: seq<(string, string)>, i: int)
    requires 0 <= i < |pairs| && pairs[i].0 != ""
    requires forall j :: i < j < |pairs| ==> pairs[j].0 != pairs[i].0
    ensures pairs[i].0 in Insert(pairs) && Insert(pairs)[pairs[i].0] == pairs[i].1
  {
    var init := pairs[..|pairs| - 1];
    if i < |pairs| - 1 {
      assert init[i] == pairs[i];
      forall j | i < j < |init|
        ensures init[j].0 != init[i].0
      {
        assert init[j] == pairs[j];
      }
      LastPairWins(init, i);
    }
  }

  /** A container's variable is in the map exactly when some entry names it with a non-empty trimmed key. */
  lemma EnvMapKeys(entries: seq<string>, k: string)
    ensures k in EnvMap(entries) <==> k != "" && exists i :: 0 <= i < |entries| && ParseEnvVar(entries[i]).0 == k
  {
    var pairs := MapSeq(ParseEnvVar, entries);
    InsertKeys(pairs, k);
    if exists i :: 0 <= i < |pairs| && pairs[i].0 == k {
      var i :| 0 <= i < |pairs| && pairs[i].0 == k;
      MapSeqAt(ParseEnvVar, entries, i);
    }
    if exists i :: 0 <= i < |entries| && ParseEnvVar(entries[i]).0 == k {
      var i :| 0 <= i < |entries| && ParseEnvVar(entries[i]).0 == k;
      MapSeqAt(ParseEnvVar, entries, i);
    }
  }

  /** On duplicate keys the last entry with that key decides the value. */
  lemma LastEntryWins(entries: seq<string>, i: int)
    requires 0 <= i < |entries| && ParseEnvVar(entries[i]).0 != ""
    requires forall j :: i < j < |entries| ==> ParseEnvVar(entries[j]).0 != ParseEnvVar(entries[i]).0
    ensures var (key, value) := ParseEnvVar(entries[i]);
            key in EnvMap(entries) && EnvMap(entries)[key] == value
  {
    var pairs := MapSeq(ParseEnvVar, entries);
    MapSeqAt(ParseEnvVar, entries, i);
    forall j | i < j < |pairs|
      ensures pairs[j].0 != pairs[i].0
    {
      MapSeqAt(ParseEnvVar, entries, j);
    }
    LastPairWins(pairs, i);
  }

  /** Two elements whose keys under `f` differ and are non-empty give a two-entry map. */
  lemma InsertTwo<A>(f: A -> (string, string), e1: A, e2: A)
    requires f(e1).0 != "" && f(e2).0 != "" && f(e1).0 != f(e2).0
    ensures Insert(MapSeq(f, [e1, e2])) == map[f(e1).0 := f(e1).1, f(e2).0 := f(e2).1]
  {
    var (p1, p2) := (f(e1), f(e2));
    assert [e1, e2][..1] == [e1];
    assert [e1][..0] == [];
    assert MapSeq(f, [e1, e2]) == [p1, p2];
    assert [p1, p2][..1] == [p1];
    assert [p1][..0] == [];
    assert Insert([p1]) == map[p1.0 := p1.1];
  }

  /**
   * Two entries whose keys differ give a two-entry map, each key bound to its
   * own value.
   */
  lemma EnvMapOfTwoEntries(e1: string, e2: string)
    requires ParseEnvVar(e1).0 != "" && ParseEnvVar(e2).0 != "" && ParseEnvVar(e1).0 != ParseEnvVar(e2).0
    ensures EnvMap([e1, e2]) == map[ParseEnvVar(e1).0 := ParseEnvVar(e1).1, ParseEnvVar(e2).0 := ParseEnvVar(e2).1]
  {
    InsertTwo(ParseEnvVar, e1, e2);
  }

  datatype EnvError = InspectFailed(cause: string)

  /**
   * The loop of `GetContainerEnv`: every entry is parsed with `parse` and, when
   * its key is not empty, stored, so that a later entry overwrites an earlier one.
   */
  method InsertEntries<A>(parse: A -> (string, string), entries: seq<A>) returns (env: map<string, string>)
    ensures env == Insert(MapSeq(parse, entries))
  {
    env := map[];
    for i := 0 to |entries|
      invariant env == Insert(MapSeq(parse, entries[..i]))
    {
      var (key, value) := parse(entries[i]);
      assert entries[..i + 1] == entries[..i] + [entries[i]];
      MapSeqSnoc(parse, entries[..i], entries[i]);
      InsertSnoc(MapSeq(parse, entries[..i]), parse(entries[i]));
      if key != "" {
        env := env[key := value];
      }
    }
    assert entries[..|entries|] == entries;
  }

  /**
   * `GetContainerEnv`: an inspect failure is passed on as an error (there is no
   * map); otherwise the entries are folded into the map in order.
   */
  method GetContainerEnv(inspect: Result<seq<string>, string>) returns (r: Result<map<string, string>, EnvError>)
    ensures inspect.Err? ==> r == Err(InspectFailed(inspect.error))
    ensures inspect.Ok? ==> r == Ok(EnvMap(inspect.value))
  {
    if inspect.Err? {
      return Err(InspectFailed(inspect.error));
    }
    var env := InsertEntries(ParseEnvVar, inspect.value);
    return Ok(env);
  }
}

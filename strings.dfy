/**
 * The parts of Go's `strings` package that the core relies on, over
 * `string = seq<char>`: `Split` on a one-character separator, `SplitN(s, sep, 2)`,
 * `TrimSpace`, `HasPrefix` and `TrimPrefix`.
 */
module Strings {

  /** Number of occurrences of `c` in `s`. */
  function Count(s: string, c: char): nat
  {
    if s == [] then 0 else (if s[0] == c then 1 else 0) + Count(s[1..], c)
  }

  /** Glues `parts` back together with `c` between consecutive parts. */
  function Join(parts: seq<string>, c: char): string
  {
    if parts == [] then ""
    else if |parts| == 1 then parts[0]
    else parts[0] + [c] + Join(parts[1..], c)
  }

  /**
   * Go's `strings.Split(s, string(c))`: the maximal pieces of `s` between
   * occurrences of `c`. There is always at least one piece (`Split("", c) == [""]`).
   */
  function Split(s: string, c: char): (parts: seq<string>)
    ensures |parts| >= 1
  {
    if s == [] then [""]
    else
      var rest := Split(s[1..], c);
      if s[0] == c then [""] + rest
      else [[s[0]] + rest[0]] + rest[1..]
  }

  /** Splitting yields one more piece than there are separators. */
  lemma {:induction false} SplitCount(s: string, c: char)
    ensures |Split(s, c)| == Count(s, c) + 1
  {
    if s != [] {
      SplitCount(s[1..], c);
    }
  }

  /** No piece contains the separator. */
  lemma {:induction false} SplitPiecesAreFree(s: string, c: char)
    ensures forall i :: 0 <= i < |Split(s, c)| ==> c !in Split(s, c)[i]
  {
    if s != [] {
      SplitPiecesAreFree(s[1..], c);
      var rest := Split(s[1..], c);
      if s[0] != c {
        assert c !in rest[0];
        assert c !in [s[0]] + rest[0];
      }
    }
  }

  /** Joining the pieces with the separator gives back the original string. */
  lemma {:induction false} SplitJoin(s: string, c: char)
    ensures Join(Split(s, c), c) == s
  {
    if s != [] {
      var rest := Split(s[1..], c);
      SplitJoin(s[1..], c);
      if s[0] == c {
        calc {
          Join(Split(s, c), c);
          Join([""] + rest, c);
          "" + [c] + Join(rest, c);
          [s[0]] + s[1..];
          s;
        }
      } else if |rest| == 1 {
        calc {
          Join(Split(s, c), c);
          Join([[s[0]] + rest[0]], c);
          [s[0]] + Join(rest, c);
          s;
        }
      } else {
        var p := [[s[0]] + rest[0]] + rest[1..];
        calc {
          Join(Split(s, c), c);
          Join(p, c);
          p[0] + [c] + Join(p[1..], c);
          { assert p[1..] == rest[1..]; }
          [s[0]] + (rest[0] + [c] + Join(rest[1..], c));
          [s[0]] + Join(rest, c);
          s;
        }
      }
    }
  }

  /** A string with no separator is one piece. */
  lemma {:induction false} SplitFree(a: string, c: char)
    requires c !in a
    ensures Split(a, c) == [a]
  {
    if a != [] {
      SplitFree(a[1..], c);
      assert [a[0]] + a[1..] == a;
    }
  }

  /** A string with exactly one separator `a + [c] + b` splits into `[a, b]`. */
  lemma {:induction false} SplitAround(a: string, b: string, c: char)
    requires c !in a && c !in b
    ensures Split(a + [c] + b, c) == [a, b]
  {
    if a == [] {
      assert a + [c] + b == [c] + b;
      assert ([c] + b)[1..] == b;
      SplitFree(b, c);
    } else {
      SplitAround(a[1..], b, c);
      assert (a + [c] + b)[1..] == a[1..] + [c] + b;
      assert [a[0]] + a[1..] == a;
    }
  }

  /** Index of the first occurrence of `c` in `s`. */
  function IndexOf(s: string, c: char): (i: nat)
    requires c in s
    ensures i < |s| && s[i] == c && c !in s[..i]
  {
    if s[0] == c then 0 else 1 + IndexOf(s[1..], c)
  }

  /**
   * Go's `strings.SplitN(s, string(c), 2)`: `[s]` when `c` does not occur,
   * otherwise the text before and after the FIRST occurrence of `c`.
   */
  function SplitN2(s: string, c: char): (parts: seq<string>)
    ensures c !in s ==> parts == [s]
    ensures c in s ==> |parts| == 2 && parts[0] + [c] + parts[1] == s && c !in parts[0]
  {
    if c in s then
      var i := IndexOf(s, c);
      assert s[..i] + [c] + s[i + 1..] == s;
      [s[..i], s[i + 1..]]
    else [s]
  }

  /** Go's `unicode.IsSpace`: the Latin-1 spaces and the Unicode White_Space characters. */
  predicate IsSpace(ch: char)
  {
    || ch == ' ' || ch == '\t' || ch == '\n' || ch == '\r'
    || ch == '\U{000B}' || ch == '\U{000C}' || ch == '\U{0085}' || ch == '\U{00A0}'
    || ch == '\U{1680}' || ('\U{2000}' <= ch <= '\U{200A}')
    || ch == '\U{2028}' || ch == '\U{2029}' || ch == '\U{202F}'
    || ch == '\U{205F}' || ch == '\U{3000}'
  }

  /** `s` without its leading white space. */
  function TrimLeft(s: string): (r: string)
    ensures |r| <= |s| && r == s[|s| - |r|..]
    ensures forall k :: 0 <= k < |s| - |r| ==> IsSpace(s[k])
    ensures r == [] || !IsSpace(r[0])
  {
    if s == [] || !IsSpace(s[0]) then s else TrimLeft(s[1..])
  }

  /** `s` without its trailing white space. */
  function TrimRight(s: string): (r: string)
    ensures |r| <= |s| && r == s[..|r|]
    ensures forall k :: |r| <= k < |s| ==> IsSpace(s[k])
    ensures r == [] || !IsSpace(r[|r| - 1])
  {
    if s == [] || !IsSpace(s[|s| - 1]) then s else TrimRight(s[..|s| - 1])
  }

  /** `r` is `s[i..i + |r|]` and everything of `s` outside that slice is white space. */
  predicate SliceAmidSpace(s: string, r: string, i: int)
  {
    && 0 <= i <= |s| - |r| && r == s[i..i + |r|]
    && (forall k :: 0 <= k < i ==> IsSpace(s[k]))
    && (forall k :: i + |r| <= k < |s| ==> IsSpace(s[k]))
  }

  /**
   * Go's `strings.TrimSpace`: white space removed at both ends. The result is
   * the slice `s[i..i + |r|]`, everything outside that slice is white space,
   * and the slice neither starts nor ends with white space.
   */
  function TrimSpace(s: string): (r: string)
    ensures |r| <= |s|
    ensures exists i :: SliceAmidSpace(s, r, i)
    ensures r == [] || (!IsSpace(r[0]) && !IsSpace(r[|r| - 1]))
  {
    var l := TrimLeft(s);
    var r := TrimRight(l);
    TrimBothEnds(s, l, r);
    r
  }

  /**
   * A suffix `l` of `s` after white space, cut to a prefix `r` of `l` before
   * white space, is a slice of `s` with only white space around it.
   */
  lemma TrimBothEnds(s: string, l: string, r: string)
    requires |l| <= |s| && l == s[|s| - |l|..] && forall k :: 0 <= k < |s| - |l| ==> IsSpace(s[k])
    requires |r| <= |l| && r == l[..|r|] && forall k :: |r| <= k < |l| ==> IsSpace(l[k])
    ensures SliceAmidSpace(s, r, |s| - |l|)
  {
    var i := |s| - |l|;
    assert r == s[i..i + |r|];
    forall k | i + |r| <= k < |s|
      ensures IsSpace(s[k])
    {
      assert s[k] == l[k - i];
    }
  }

  /** A string that neither starts nor ends with white space is its own trim. */
  lemma TrimSpaceOfTrimmed(s: string)
    requires s == [] || (!IsSpace(s[0]) && !IsSpace(s[|s| - 1]))
    ensures TrimSpace(s) == s
  {
  }

  /** Trimming only removes characters, so a character absent from `s` is absent from its trim. */
  lemma TrimSpaceKeepsAbsent(s: string, c: char)
    requires c !in s
    ensures c !in TrimSpace(s)
  {
    var l := TrimLeft(s);
    assert c !in l by {
      forall k | 0 <= k < |l|
        ensures l[k] != c
      {
        assert l[k] == s[|s| - |l| + k];
      }
    }
    var r := TrimRight(l);
    forall k | 0 <= k < |r|
      ensures r[k] != c
    {
      assert r[k] == l[k];
    }
  }

  predicate HasPrefix(s: string, prefix: string)
  {
    |prefix| <= |s| && s[..|prefix|] == prefix
  }

  /** Go's `strings.TrimPrefix`: drops `prefix` when `s` starts with it. */
  function TrimPrefix(s: string, prefix: string): (r: string)
    ensures HasPrefix(s, prefix) ==> prefix + r == s
    ensures !HasPrefix(s, prefix) ==> r == s
  {
    if HasPrefix(s, prefix) then s[|prefix|..] else s
  }
}

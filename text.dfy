/** The Python string operations the view relies on: `str.startswith`, the `<` order on
    `str`, `str.lstrip('0')` and `'\n'.join`. */
module Text {
  import opened Common
  import Sorting

  /** `p` is a prefix of `s`. */
  predicate StartsWith(s: string, p: string) {
    |p| <= |s| && s[..|p|] == p
  }

  /** Python's `a < b` on `str`: code points compared from the left; a proper prefix is
      smaller. */
  predicate StrLess(a: string, b: string) {
    if b == [] then false
    else if a == [] then true
    else if a[0] != b[0] then a[0] < b[0]
    else StrLess(a[1..], b[1..])
  }

  /** The same order, stated without recursion: `b` extends `a`, or they first differ at a
      position where `a` has the smaller code point. */
  ghost predicate LexicographicallyBefore(a: string, b: string) {
    || (|a| < |b| && b[..|a|] == a)
    || (exists i :: 0 <= i < |a| && i < |b| && a[..i] == b[..i] && a[i] < b[i])
  }

  lemma {:induction false} StrLessIsLexicographic(a: string, b: string)
    ensures StrLess(a, b) <==> LexicographicallyBefore(a, b)
  {
    if b == [] {
    } else if a == [] {
      assert b[..0] == a;
    } else if a[0] != b[0] {
      if a[0] < b[0] {
        assert a[..0] == b[..0];
      }
    } else {
      StrLessIsLexicographic(a[1..], b[1..]);
      if |a[1..]| < |b[1..]| && b[1..][..|a[1..]|] == a[1..] {
        assert b[..|a|] == [b[0]] + b[1..][..|a[1..]|];
        assert a == [a[0]] + a[1..];
      }
      if |a| < |b| && b[..|a|] == a {
        assert b[1..][..|a[1..]|] == b[..|a|][1..];
      }
      if i :| 0 <= i < |a[1..]| && i < |b[1..]| && a[1..][..i] == b[1..][..i] && a[1..][i] < b[1..][i] {
        assert a[..i + 1] == [a[0]] + a[1..][..i];
        assert b[..i + 1] == [b[0]] + b[1..][..i];
      }
      if i :| 0 <= i < |a| && i < |b| && a[..i] == b[..i] && a[i] < b[i] {
        assert i > 0;
        assert a[1..][..i - 1] == a[..i][1..];
        assert b[1..][..i - 1] == b[..i][1..];
      }
    }
  }

  lemma {:induction false} StrLessIrreflexive(a: string)
    ensures !StrLess(a, a)
  {
    if a != [] {
      StrLessIrreflexive(a[1..]);
    }
  }

  lemma {:induction false} StrLessTransitive(a: string, b: string, c: string)
    requires StrLess(a, b) && StrLess(b, c)
    ensures StrLess(a, c)
  {
    if a != [] && a[0] == b[0] && b[0] == c[0] {
      StrLessTransitive(a[1..], b[1..], c[1..]);
    }
  }

  lemma {:induction false} StrLessConnected(a: string, b: string)
    ensures a == b || StrLess(a, b) || StrLess(b, a)
  {
    if a != [] && b != [] && a[0] == b[0] {
      StrLessConnected(a[1..], b[1..]);
      assert a == [a[0]] + a[1..] && b == [b[0]] + b[1..];
    }
  }

  /** `<` on strings is a strict total order, so `sorted` over strings is well defined. */
  lemma {:induction false} StrLessStrictTotal(s: seq<string>)
    ensures Sorting.StrictTotalOn(StrLess, s)
  {
    forall x | x in s ensures !StrLess(x, x) {
      StrLessIrreflexive(x);
    }
    forall x, y, z | x in s && y in s && z in s && StrLess(x, y) && StrLess(y, z)
      ensures StrLess(x, z)
    {
      StrLessTransitive(x, y, z);
    }
    forall x, y | x in s && y in s ensures x == y || StrLess(x, y) || StrLess(y, x) {
      StrLessConnected(x, y);
    }
  }

  /** The order `sorted(..., reverse=True)` sorts strings by: greater first. */
  predicate Descending(a: string, b: string) {
    StrLess(b, a)
  }

  lemma {:induction false} DescendingStrictTotal(s: seq<string>)
    ensures Sorting.StrictTotalOn(Descending, s)
  {
    StrLessStrictTotal(s);
  }

  /** `s.lstrip('0')`: `s` with its leading run of '0' characters removed. */
  function LStripZeros(s: string): (r: string)
    ensures |r| <= |s| && r == s[|s| - |r|..]
    ensures forall i | 0 <= i < |s| - |r| :: s[i] == '0'
    ensures r == [] || r[0] != '0'
  {
    if s != [] && s[0] == '0' then
      var r := LStripZeros(s[1..]);
      assert r == s[|s| - |r|..];
      r
    else s
  }

  /** The parts with `sep` between each two neighbours. */
  function Join(sep: string, parts: seq<string>): string {
    if parts == [] then ""
    else if |parts| == 1 then parts[0]
    else parts[0] + sep + Join(sep, parts[1..])
  }

  /** `s.split('\n')`: the pieces between newlines, empty pieces included. */
  function SplitLines(s: string): (r: seq<string>)
    ensures |r| > 0
    decreases |s|
  {
    match IndexOf(s, '\n')
    case None => [s]
    case Some(i) => [s[..i]] + SplitLines(s[i + 1..])
  }

  /** Joining lines with '\n' loses nothing: splitting recovers them, as long as there is
      at least one line and no line holds a newline of its own. */
  lemma {:induction false} SplitJoin(lines: seq<string>)
    requires lines != []
    requires forall k | 0 <= k < |lines| :: '\n' !in lines[k]
    ensures SplitLines(Join("\n", lines)) == lines
  {
    if |lines| > 1 {
      var head := lines[0];
      var rest := Join("\n", lines[1..]);
      var s := head + "\n" + rest;
      assert s[..|head|] == head;
      IndexOfUnique(s, '\n', |head|);
      assert s[|head| + 1..] == rest;
      SplitJoin(lines[1..]);
      assert lines == [lines[0]] + lines[1..];
    }
  }
}

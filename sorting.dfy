/** Python's `sorted` over a strict total order. The source sorts with Python's built-in
    merge sort; here the sort is an insertion sort, and `SortedPermutationsAgree` shows that
    under a strict total order every sorting algorithm returns the same sequence. */
module Sorting {

  /** `lt` is a strict total order on the elements of `s`. */
  ghost predicate StrictTotalOn<T>(lt: (T, T) -> bool, s: seq<T>) {
    && (forall x | x in s :: !lt(x, x))
    && (forall x, y, z | x in s && y in s && z in s :: lt(x, y) && lt(y, z) ==> lt(x, z))
    && (forall x, y | x in s && y in s :: x == y || lt(x, y) || lt(y, x))
  }

  /** No element is strictly smaller than one before it: what `sorted` promises. */
  ghost predicate Sorted<T>(lt: (T, T) -> bool, s: seq<T>) {
    forall i, j | 0 <= i < j < |s| :: !lt(s[j], s[i])
  }

  lemma {:induction false} StrictTotalOnSubset<T>(lt: (T, T) -> bool, s: seq<T>, t: seq<T>)
    requires StrictTotalOn(lt, s)
    requires forall x | x in t :: x in s
    ensures StrictTotalOn(lt, t)
  {
  }

  /** Places `x` in front of the first element that is not smaller than it. */
  function Insert<T>(lt: (T, T) -> bool, x: T, s: seq<T>): (r: seq<T>)
    ensures multiset(r) == multiset(s) + multiset{x}
  {
    if s == [] then [x]
    else if lt(s[0], x) then
      assert s == [s[0]] + s[1..];
      [s[0]] + Insert(lt, x, s[1..])
    else [x] + s
  }

  /** The sequence `sorted` returns: a permutation of `s` ... */
  function Sort<T>(lt: (T, T) -> bool, s: seq<T>): (r: seq<T>)
    ensures multiset(r) == multiset(s)
    ensures |r| == |s|
  {
    if s == [] then []
    else
      assert s == [s[0]] + s[1..];
      Insert(lt, s[0], Sort(lt, s[1..]))
  }

  lemma {:induction false} InsertSorted<T>(lt: (T, T) -> bool, x: T, s: seq<T>)
    requires StrictTotalOn(lt, [x] + s)
    requires Sorted(lt, s)
    ensures Sorted(lt, Insert(lt, x, s))
  {
    if s == [] {
    } else if lt(s[0], x) {
      var t := s[1..];
      assert s == [s[0]] + t;
      StrictTotalOnSubset(lt, [x] + s, [x] + t);
      InsertSorted(lt, x, t);
      var rest := Insert(lt, x, t);
      forall j | 0 <= j < |rest| ensures !lt(rest[j], s[0]) {
        assert rest[j] in multiset(rest);
        if rest[j] != x {
          assert rest[j] in multiset(t);
          var k :| 0 <= k < |t| && t[k] == rest[j];
          assert s[k + 1] == rest[j];
        }
      }
    } else {
      forall j | 0 <= j < |s| ensures !lt(s[j], x) {
        if j > 0 {
          assert !lt(s[j], s[0]);
        }
      }
    }
  }

  /** ... and, under a strict total order, sorted. */
  lemma {:induction false} SortSorted<T>(lt: (T, T) -> bool, s: seq<T>)
    requires StrictTotalOn(lt, s)
    ensures Sorted(lt, Sort(lt, s))
  {
    if s != [] {
      var rest := Sort(lt, s[1..]);
      StrictTotalOnSubset(lt, s, s[1..]);
      SortSorted(lt, s[1..]);
      forall y | y in [s[0]] + rest ensures y in s {
        if y != s[0] {
          assert y in multiset(rest);
        }
      }
      StrictTotalOnSubset(lt, s, [s[0]] + rest);
      InsertSorted(lt, s[0], rest);
    }
  }

  /** The first elements of two sorted permutations coincide. */
  lemma {:induction false} SortedHeadsAgree<T>(lt: (T, T) -> bool, a: seq<T>, b: seq<T>)
    requires StrictTotalOn(lt, a)
    requires multiset(a) == multiset(b)
    requires Sorted(lt, a) && Sorted(lt, b)
    requires a != []
    ensures b != [] && a[0] == b[0]
  {
    assert a[0] in multiset(b);
    var k :| 0 <= k < |b| && b[k] == a[0];
    assert b[0] in multiset(a);
    var m :| 0 <= m < |a| && a[m] == b[0];
    assert !lt(a[0], b[0]) by { if k > 0 { assert !lt(b[k], b[0]); } }
    assert !lt(b[0], a[0]) by { if m > 0 { assert !lt(a[m], a[0]); } }
  }

  /** Two sorted permutations of one sequence are equal: the result of `sorted` does not
      depend on the algorithm. */
  lemma {:induction false} SortedPermutationsAgree<T>(lt: (T, T) -> bool, a: seq<T>, b: seq<T>)
    requires StrictTotalOn(lt, a)
    requires multiset(a) == multiset(b)
    requires Sorted(lt, a) && Sorted(lt, b)
    ensures a == b
  {
    if a == [] {
      assert |b| == |multiset(b)| == 0;
    } else {
      SortedTails(lt, a, b);
      SortedPermutationsAgree(lt, a[1..], b[1..]);
      assert a == [a[0]] + a[1..] && b == [b[0]] + b[1..];
    }
  }

  /** Two nonempty sorted permutations share their head, and their tails are sorted
      permutations again. */
  lemma {:induction false} SortedTails<T>(lt: (T, T) -> bool, a: seq<T>, b: seq<T>)
    requires StrictTotalOn(lt, a)
    requires multiset(a) == multiset(b)
    requires Sorted(lt, a) && Sorted(lt, b)
    requires a != []
    ensures b != [] && a[0] == b[0]
    ensures multiset(a[1..]) == multiset(b[1..])
    ensures StrictTotalOn(lt, a[1..]) && Sorted(lt, a[1..]) && Sorted(lt, b[1..])
  {
    SortedHeadsAgree(lt, a, b);
    TailsPermute(a, b);
    SortedTail(lt, a);
    SortedTail(lt, b);
    StrictTotalOnSubset(lt, a, a[1..]);
  }

  lemma {:induction false} TailsPermute<T>(a: seq<T>, b: seq<T>)
    requires multiset(a) == multiset(b) && a != [] && b != [] && a[0] == b[0]
    ensures multiset(a[1..]) == multiset(b[1..])
  {
    assert a == [a[0]] + a[1..] && b == [b[0]] + b[1..];
    assert multiset(a) == multiset{a[0]} + multiset(a[1..]);
    assert multiset(b) == multiset{a[0]} + multiset(b[1..]);
    assert multiset(a[1..]) == multiset(a) - multiset{a[0]};
    assert multiset(b[1..]) == multiset(b) - multiset{a[0]};
  }

  lemma {:induction false} SortedTail<T>(lt: (T, T) -> bool, s: seq<T>)
    requires Sorted(lt, s) && s != []
    ensures Sorted(lt, s[1..])
  {
    forall i, j | 0 <= i < j < |s| - 1 ensures !lt(s[1..][j], s[1..][i]) {
      assert s[1..][j] == s[j + 1] && s[1..][i] == s[i + 1];
    }
  }

  /** No element occurs twice. */
  ghost predicate Distinct<T>(s: seq<T>) {
    forall i, j | 0 <= i < j < |s| :: s[i] != s[j]
  }

  lemma {:induction false} DistinctAtMostOnce<T>(s: seq<T>, x: T)
    requires Distinct(s)
    ensures multiset(s)[x] <= 1
  {
    if s != [] {
      assert s == [s[0]] + s[1..];
      DistinctAtMostOnce(s[1..], x);
      if s[0] == x {
        assert x !in s[1..];
      }
    }
  }

  lemma {:induction false} TwiceCounted<T>(s: seq<T>, i: nat, j: nat)
    requires i < j < |s| && s[i] == s[j]
    ensures multiset(s)[s[i]] >= 2
  {
    assert s == s[..j] + [s[j]] + s[j + 1..];
    assert s[..j][i] == s[i];
  }

  /** Taking some of the elements of a sequence without repetitions, in any order, gives a
      sequence without repetitions. */
  lemma {:induction false} SubmultisetDistinct<T>(a: seq<T>, b: seq<T>)
    requires multiset(b) <= multiset(a) && Distinct(a)
    ensures Distinct(b)
  {
    forall i, j | 0 <= i < j < |b| ensures b[i] != b[j] {
      if b[i] == b[j] {
        TwiceCounted(b, i, j);
        DistinctAtMostOnce(a, b[i]);
      }
    }
  }

  /** Taking the first entry of `a` out of `a`, and the same entry at `k` out of `b`, keeps
      the two multisets equal. */
  lemma {:induction false} MultisetRemove<T>(a: seq<T>, b: seq<T>, k: nat)
    requires multiset(a) == multiset(b) && a != [] && k < |b| && b[k] == a[0]
    ensures multiset(a[1..]) == multiset(b[..k] + b[k + 1..])
  {
    assert a == [a[0]] + a[1..];
    assert multiset(a) == multiset{a[0]} + multiset(a[1..]);
    assert b == b[..k] + [b[k]] + b[k + 1..];
    assert multiset(b) == multiset(b[..k]) + multiset{b[k]} + multiset(b[k + 1..]);
    assert multiset(b[..k] + b[k + 1..]) == multiset(b[..k]) + multiset(b[k + 1..]);
    forall y ensures multiset(a[1..])[y] == multiset(b[..k] + b[k + 1..])[y] {
      assert multiset(a)[y] == multiset(b)[y];
    }
  }
}

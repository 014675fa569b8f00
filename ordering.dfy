/** `_order` and the fixed taxonomy `benchmark_order` it sorts by
    (benchmarks/views/index.py:18, 72-73, 117-120). */
module Ordering {
  import opened Common
  import opened Sorting
  import opened Text

  /** An entry of `benchmark_order`: a benchmark's parent, `None` for a top-level one. */
  type Category = Option<string>

  const BenchmarkOrder: seq<Category> :=
    [None, Some("V1"), Some("V2"), Some("V4"), Some("IT"), Some("IT-temporal"), Some("behavior"), Some("ImageNet")]

  /** `benchmark_order.index(c)`: fails for a category outside the taxonomy. */
  function CategoryIndex(c: Category): (r: Result<nat>)
    ensures r.Ok? <==> c in BenchmarkOrder
    ensures r.Ok? ==> r.value < |BenchmarkOrder| && BenchmarkOrder[r.value] == c
  {
    match IndexOf(BenchmarkOrder, c)
    case None => Err(UnknownCategory)
    case Some(i) => Ok(i)
  }

  /** The sort key `_order` gives `v`: the position of `ident(v)` in `benchmark_order`.
      Both the identifier function and the lookup may fail. */
  function SortKey<T>(ident: T -> Result<Category>, v: T): Result<nat> {
    match ident(v)
    case Err(e) => Err(e)
    case Ok(c) => CategoryIndex(c)
  }

  /** The list of sort keys `_order` builds; the first failure aborts it. */
  function SortKeys<T>(ident: T -> Result<Category>, values: seq<T>): (r: Result<seq<nat>>)
    ensures r.Ok? <==> forall i | 0 <= i < |values| :: SortKey(ident, values[i]).Ok?
    ensures r.Ok? ==> |r.value| == |values|
    ensures r.Ok? ==> forall i | 0 <= i < |values| :: SortKey(ident, values[i]) == Ok(r.value[i])
  {
    if values == [] then Ok([])
    else match SortKey(ident, values[0])
      case Err(e) => Err(e)
      case Ok(k) =>
        match SortKeys(ident, values[1..])
        case Err(e) => Err(e)
        case Ok(ks) =>
          KeysCons(ident, values, k, ks);
          Ok([k] + ks)
  }

  /** The keys of the first value and of the rest are the keys of all values. */
  lemma {:induction false} KeysCons<T>(ident: T -> Result<Category>, values: seq<T>, k: nat, ks: seq<nat>)
    requires values != [] && SortKey(ident, values[0]) == Ok(k)
    requires |ks| == |values| - 1
    requires forall i | 0 <= i < |ks| :: SortKey(ident, values[1..][i]) == Ok(ks[i])
    ensures |[k] + ks| == |values|
    ensures forall i | 0 <= i < |values| :: SortKey(ident, values[i]) == Ok(([k] + ks)[i])
  {
    var all := [k] + ks;
    forall i | 0 <= i < |values| ensures SortKey(ident, values[i]) == Ok(all[i]) {
      if i > 0 {
        var v := values[1..][i - 1];
        assert values[i] == v && all[i] == ks[i - 1];
        assert SortKey(ident, v) == Ok(ks[i - 1]);
      }
    }
  }

  /** The pairs of a key and the value at the same position. */
  function Zip<T>(keys: seq<nat>, values: seq<T>): (r: seq<(nat, T)>)
    requires |keys| == |values|
    ensures |r| == |values|
    ensures forall i | 0 <= i < |r| :: r[i] == (keys[i], values[i])
  {
    seq(|values|, i requires 0 <= i < |values| => (keys[i], values[i]))
  }

  /** The values of the pairs, in pair order. */
  function Seconds<T>(pairs: seq<(nat, T)>): (r: seq<T>)
    ensures |r| == |pairs|
    ensures forall i | 0 <= i < |r| :: r[i] == pairs[i].1
  {
    seq(|pairs|, i requires 0 <= i < |pairs| => pairs[i].1)
  }

  /** Python's tuple comparison on `(index, value)`: the index first, the value on a tie. */
  function ByKeyThen<T>(less: (T, T) -> bool): ((nat, T), (nat, T)) -> bool {
    (p: (nat, T), q: (nat, T)) => p.0 < q.0 || (p.0 == q.0 && less(p.1, q.1))
  }

  /** `_order(values, identifier_fnc)`: sorts `zip(keys, values)` and keeps the values. */
  function Order<T>(values: seq<T>, ident: T -> Result<Category>, less: (T, T) -> bool): (r: Result<seq<T>>)
    ensures r.Ok? <==> forall i | 0 <= i < |values| :: SortKey(ident, values[i]).Ok?
    ensures r.Ok? ==> multiset(r.value) == multiset(values)
    ensures r.Err? ==> exists i :: 0 <= i < |values| && SortKey(ident, values[i]) == Err(r.error)
  {
    match SortKeys(ident, values)
    case Err(e) =>
      SortKeysError(ident, values);
      Err(e)
    case Ok(keys) =>
      var pairs := Zip(keys, values);
      var sorted := Sort(ByKeyThen(less), pairs);
      SecondsPermutation(pairs, sorted);
      assert Seconds(pairs) == values;
      Ok(Seconds(sorted))
  }

  /** The failure `SortKeys` reports is the failure of one of the values. */
  lemma {:induction false} SortKeysError<T>(ident: T -> Result<Category>, values: seq<T>)
    requires SortKeys(ident, values).Err?
    ensures exists i :: 0 <= i < |values| && SortKey(ident, values[i]) == Err(SortKeys(ident, values).error)
  {
    if SortKey(ident, values[0]).Ok? {
      SortKeysError(ident, values[1..]);
      var i :| 0 <= i < |values[1..]| && SortKey(ident, values[1..][i]) == Err(SortKeys(ident, values[1..]).error);
      assert values[i + 1] == values[1..][i];
    }
  }

  lemma {:induction false} SecondsConcat<T>(a: seq<(nat, T)>, b: seq<(nat, T)>)
    ensures multiset(Seconds(a + b)) == multiset(Seconds(a)) + multiset(Seconds(b))
  {
    assert Seconds(a + b) == Seconds(a) + Seconds(b);
  }

  /** Keeping the second components maps permutations to permutations. */
  lemma {:induction false} SecondsPermutation<T>(a: seq<(nat, T)>, b: seq<(nat, T)>)
    requires multiset(a) == multiset(b)
    ensures multiset(Seconds(a)) == multiset(Seconds(b))
  {
    if a == [] {
      assert |b| == |multiset(b)| == 0;
    } else {
      var x := a[0];
      assert x in multiset(b);
      var k :| 0 <= k < |b| && b[k] == x;
      var front, back := b[..k], b[k + 1..];
      MultisetRemove(a, b, k);
      SecondsPermutation(a[1..], front + back);
      assert a == [x] + a[1..];
      assert b == front + ([x] + back);
      SecondsConcat([x], a[1..]);
      SecondsConcat(front, [x] + back);
      SecondsConcat([x], back);
      SecondsConcat(front, back);
    }
  }

  /** The tuple order is a strict total order on the pairs when the item order is one on
      the items. */
  lemma {:induction false} PairOrderStrictTotal<T>(less: (T, T) -> bool, keys: seq<nat>, values: seq<T>)
    requires |keys| == |values|
    requires StrictTotalOn(less, values)
    ensures StrictTotalOn(ByKeyThen(less), Zip(keys, values))
  {
    var pairs := Zip(keys, values);
    forall p | p in pairs ensures p.1 in values {
      var i :| 0 <= i < |pairs| && pairs[i] == p;
      assert p.1 == values[i];
    }
  }

  /** `_order` sorts by category position, and by the item order within a category. */
  ghost predicate InCategoryOrder<T>(ident: T -> Result<Category>, less: (T, T) -> bool, s: seq<T>) {
    forall i, j | 0 <= i < j < |s| && SortKey(ident, s[i]).Ok? && SortKey(ident, s[j]).Ok? ::
      && SortKey(ident, s[i]).value <= SortKey(ident, s[j]).value
      && (SortKey(ident, s[i]) == SortKey(ident, s[j]) ==> !less(s[j], s[i]))
  }

  lemma {:induction false} OrderSorted<T>(values: seq<T>, ident: T -> Result<Category>, less: (T, T) -> bool)
    requires StrictTotalOn(less, values)
    requires Order(values, ident, less).Ok?
    ensures InCategoryOrder(ident, less, Order(values, ident, less).value)
  {
    var keys := SortKeys(ident, values).value;
    var pairs := Zip(keys, values);
    var sorted := Sort(ByKeyThen(less), pairs);
    PairOrderStrictTotal(less, keys, values);
    SortSorted(ByKeyThen(less), pairs);
    SortedPairsKeyed(values, ident, keys, sorted);
    SecondsInCategoryOrder(sorted, ident, less);
    assert Seconds(sorted) == Order(values, ident, less).value;
  }

  /** Each pair of a permutation of the zipped keys and values carries its value's key. */
  lemma {:induction false} SortedPairsKeyed<T>(values: seq<T>, ident: T -> Result<Category>, keys: seq<nat>, sorted: seq<(nat, T)>)
    requires |keys| == |values|
    requires forall i | 0 <= i < |values| :: SortKey(ident, values[i]) == Ok(keys[i])
    requires multiset(sorted) == multiset(Zip(keys, values))
    ensures forall p | p in sorted :: SortKey(ident, p.1) == Ok(p.0)
  {
    var pairs := Zip(keys, values);
    forall p | p in sorted ensures SortKey(ident, p.1) == Ok(p.0) {
      assert p in multiset(pairs);
      var i :| 0 <= i < |pairs| && pairs[i] == p;
    }
  }

  /** Pairs sorted by the tuple order, each carrying its value's key, leave the values in
      category order. */
  lemma {:induction false} SecondsInCategoryOrder<T>(sorted: seq<(nat, T)>, ident: T -> Result<Category>, less: (T, T) -> bool)
    requires Sorted(ByKeyThen(less), sorted)
    requires forall p | p in sorted :: SortKey(ident, p.1) == Ok(p.0)
    ensures InCategoryOrder(ident, less, Seconds(sorted))
  {
    var r := Seconds(sorted);
    forall i, j | 0 <= i < j < |r|
      ensures SortKey(ident, r[i]).value <= SortKey(ident, r[j]).value
      ensures SortKey(ident, r[i]) == SortKey(ident, r[j]) ==> !less(r[j], r[i])
    {
      assert sorted[i] in sorted && sorted[j] in sorted;
      assert !ByKeyThen(less)(sorted[j], sorted[i]);
    }
  }

  /** Entry `c` of `benchmark_order` is a string that `key` starts with (`None` never is). */
  predicate PrefixOf(c: Category, key: string) {
    c.Some? && StartsWith(key, c.value)
  }

  /** Position of the first entry of `cats` that is a prefix of `key`. */
  function FirstPrefix(cats: seq<Category>, key: string): (r: Option<nat>)
    ensures r.None? <==> forall k | 0 <= k < |cats| :: !PrefixOf(cats[k], key)
    ensures r.Some? ==> r.value < |cats| && PrefixOf(cats[r.value], key)
    ensures r.Some? ==> forall k | 0 <= k < r.value :: !PrefixOf(cats[k], key)
  {
    if cats == [] then None
    else if PrefixOf(cats[0], key) then Some(0)
    else match FirstPrefix(cats[1..], key)
      case None => None
      case Some(i) => Some(i + 1)
  }

  /** The category a model meta row is ordered by: the first string in `benchmark_order`
      that the row's key starts with; taking `[0]` of an empty match list fails. */
  function MetaCategory(key: string): (r: Result<Category>)
    ensures r.Ok? <==> exists k :: 0 <= k < |BenchmarkOrder| && PrefixOf(BenchmarkOrder[k], key)
    ensures r.Ok? ==> r.value in BenchmarkOrder && PrefixOf(r.value, key)
    ensures r.Err? ==> r.error == NoMatchingPrefix
  {
    match FirstPrefix(BenchmarkOrder, key)
    case None => Err(NoMatchingPrefix)
    case Some(k) => Ok(BenchmarkOrder[k])
  }

  /** The sort key of a meta key is the position of the first entry of `benchmark_order`
      that prefixes it; without one, computing the key fails. */
  lemma {:induction false} MetaSortKey(key: string)
    ensures SortKey(MetaCategory, key).Ok? <==> exists k :: 0 <= k < |BenchmarkOrder| && PrefixOf(BenchmarkOrder[k], key)
    ensures SortKey(MetaCategory, key).Ok? ==>
      var k := SortKey(MetaCategory, key).value;
      && k < |BenchmarkOrder| && PrefixOf(BenchmarkOrder[k], key)
      && forall k' | 0 <= k' < k :: !PrefixOf(BenchmarkOrder[k'], key)
  {
    match FirstPrefix(BenchmarkOrder, key)
    case None =>
    case Some(k) =>
      assert BenchmarkOrder[k] !in BenchmarkOrder[..k];
      IndexOfUnique(BenchmarkOrder, BenchmarkOrder[k], k);
  }

  /** Every key starting with "IT-temporal" also starts with the earlier entry "IT", so meta
      rows are never put in the "IT-temporal" category. */
  lemma {:induction false} MetaNeverITTemporal(key: string)
    ensures MetaCategory(key) != Ok(Some("IT-temporal"))
  {
    if StartsWith(key, "IT-temporal") {
      assert key[..2] == key[..11][..2];
      assert PrefixOf(BenchmarkOrder[4], key);
    }
  }
}

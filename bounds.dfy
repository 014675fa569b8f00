/** The per-benchmark aggregates `benchmarks_meta` (benchmarks/views/index.py:45-51): for
    every benchmark, the smallest and the largest ceiled score, a missing ceiled score
    counting as 0. */
module Bounds {
  import opened Common
  import opened Records

  /** The ceiled score of `s`, with a missing one counted as 0. */
  function CeiledOrZero(s: Score): real {
    if s.scoreCeiled.Some? then s.scoreCeiled.value else 0.0
  }

  /** The list `min` and `max` run over: the ceiled scores of the benchmark `name`, in
      score order, a missing one counted as 0. */
  function CeiledValues(name: string, scores: seq<Score>): (r: seq<real>)
    ensures r == [] <==> forall k | 0 <= k < |scores| :: scores[k].benchmark != name
    ensures forall k | 0 <= k < |scores| && scores[k].benchmark == name :: CeiledOrZero(scores[k]) in r
    ensures forall x | x in r :: exists k :: 0 <= k < |scores| && scores[k].benchmark == name && CeiledOrZero(scores[k]) == x
  {
    if scores == [] then []
    else
      var rest := CeiledValues(name, scores[1..]);
      assert forall k | 1 <= k < |scores| :: scores[k] == scores[1..][k - 1];
      if scores[0].benchmark == name then [CeiledOrZero(scores[0])] + rest else rest
  }

  predicate IsLeast(m: real, vs: seq<real>) {
    m in vs && forall k | 0 <= k < |vs| :: m <= vs[k]
  }

  predicate IsGreatest(m: real, vs: seq<real>) {
    m in vs && forall k | 0 <= k < |vs| :: vs[k] <= m
  }

  /** The smallest value of a nonempty list. */
  function Min(vs: seq<real>): (r: real)
    requires vs != []
    ensures IsLeast(r, vs)
  {
    if |vs| == 1 then vs[0]
    else
      var m := Min(vs[1..]);
      assert forall k | 1 <= k < |vs| :: vs[k] == vs[1..][k - 1];
      if vs[0] <= m then vs[0] else m
  }

  /** The greatest value of a nonempty list. */
  function Max(vs: seq<real>): (r: real)
    requires vs != []
    ensures IsGreatest(r, vs)
  {
    if |vs| == 1 then vs[0]
    else
      var m := Max(vs[1..]);
      assert forall k | 1 <= k < |vs| :: vs[k] == vs[1..][k - 1];
      if m < vs[0] then vs[0] else m
  }

  /** The entry of `benchmarks_meta` for one benchmark; `min` of an empty list fails. */
  function BoundsOf(name: string, scores: seq<Score>): (r: Result<AlphaBounds>)
    ensures r.Ok? <==> exists k :: 0 <= k < |scores| && scores[k].benchmark == name
    ensures r.Err? ==> r.error == EmptyScores
    ensures r.Ok? ==> IsLeast(r.value.min, CeiledValues(name, scores)) && IsGreatest(r.value.max, CeiledValues(name, scores))
  {
    var vs := CeiledValues(name, scores);
    if vs == [] then Err(EmptyScores) else Ok(AlphaBounds(Min(vs), Max(vs)))
  }

  /** The loop that fills `benchmarks_meta`, one benchmark name after another. */
  method CollectAlphaBounds(names: seq<string>, scores: seq<Score>) returns (r: Result<map<string, AlphaBounds>>)
    ensures r.Ok? <==> forall i | 0 <= i < |names| :: BoundsOf(names[i], scores).Ok?
    ensures r.Err? ==> r.error == EmptyScores
    ensures r.Ok? ==> r.value.Keys == set n | n in names
    ensures r.Ok? ==> forall n | n in r.value :: BoundsOf(n, scores) == Ok(r.value[n])
    ensures r.Ok? ==> forall n | n in r.value ::
      IsLeast(r.value[n].min, CeiledValues(n, scores)) && IsGreatest(r.value[n].max, CeiledValues(n, scores))
  {
    var meta: map<string, AlphaBounds> := map[];
    for i := 0 to |names|
      invariant forall j | 0 <= j < i :: names[j] in meta
      invariant forall n | n in meta :: n in names[..i] && BoundsOf(n, scores) == Ok(meta[n])
    {
      var b := BoundsOf(names[i], scores);
      if b.Err? {
        return Err(b.error);
      }
      meta := meta[names[i] := b.value];
      assert names[..i + 1] == names[..i] + [names[i]];
    }
    assert names[..|names|] == names;
    KeysOfNames(meta, names);
    r := Ok(meta);
  }

  /** A map holding every name of `names` and nothing else has the names as its keys. */
  lemma {:induction false} KeysOfNames<V>(m: map<string, V>, names: seq<string>)
    requires forall j | 0 <= j < |names| :: names[j] in m
    requires forall n | n in m :: n in names
    ensures m.Keys == set n | n in names
  {
  }

  /** Every score of a benchmark, a missing one read as 0, lies between the benchmark's
      bounds. */
  lemma {:induction false} ScoreWithinBounds(scores: seq<Score>, k: nat)
    requires k < |scores|
    ensures BoundsOf(scores[k].benchmark, scores).Ok?
    ensures var b := BoundsOf(scores[k].benchmark, scores).value;
      b.min <= CeiledOrZero(scores[k]) <= b.max
  {
    var vs := CeiledValues(scores[k].benchmark, scores);
    var j :| 0 <= j < |vs| && vs[j] == CeiledOrZero(scores[k]);
  }

  /** A score without a ceiled value pulls the minimum down to 0 or below. */
  lemma {:induction false} MissingCountsAsZero(scores: seq<Score>, k: nat)
    requires k < |scores| && scores[k].scoreCeiled.None?
    ensures BoundsOf(scores[k].benchmark, scores).Ok?
    ensures BoundsOf(scores[k].benchmark, scores).value.min <= 0.0
  {
    ScoreWithinBounds(scores, k);
  }
}

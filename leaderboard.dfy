/** The view itself (benchmarks/views/index.py:21-114): the benchmarks with scores in
    category order, one ranked row per model with one cell per benchmark, and the benchmark
    names and ceilings rewritten for display. The database tables are parameters. */
module Leaderboard {
  import opened Common
  import opened Sorting
  import opened Ordering
  import opened Trimming
  import opened Display
  import opened Records
  import opened Bounds
  import opened Rows
  import opened Arrange
  import opened Alignment
  import opened Ranking

  /** A benchmark's ceiling: the stored float, which may be missing, until the view replaces
      it by its text. */
  datatype Ceiling = Raw(value: Option<real>) | Shown(text: string)

  /** A `Benchmark` record. The view changes its name and ceiling in place. */
  class Benchmark {
    var name: string
    const parent: Category
    var ceiling: Ceiling

    constructor (name: string, parent: Category, ceiling: Option<real>)
      ensures this.name == name && this.parent == parent && this.ceiling == Raw(ceiling)
    {
      this.name := name;
      this.parent := parent;
      this.ceiling := Raw(ceiling);
    }
  }

  /** The names of the benchmarks, in order. */
  function Names(bs: seq<Benchmark>): (r: seq<string>)
    reads bs
    ensures |r| == |bs|
    ensures forall i | 0 <= i < |bs| :: r[i] == bs[i].name
  {
    seq(|bs|, i requires 0 <= i < |bs| reads bs => bs[i].name)
  }

  /** The benchmark names that have at least one score. */
  function ScoredNames(scores: seq<Score>): (r: set<string>)
    ensures forall n :: n in r <==> exists k :: 0 <= k < |scores| && scores[k].benchmark == n
  {
    set k | 0 <= k < |scores| :: scores[k].benchmark
  }

  /** The benchmarks whose name is in `scored`, in table order: each kept record as often as
      in the table, every other record dropped. */
  function WithScores(all: seq<Benchmark>, scored: set<string>): (r: seq<Benchmark>)
    reads all
    ensures forall k | 0 <= k < |r| :: r[k] in all && r[k].name in scored
    ensures forall k | 0 <= k < |all| && all[k].name in scored :: all[k] in r
    ensures multiset(r) <= multiset(all)
    ensures forall x | x in all :: multiset(r)[x] == if x.name in scored then multiset(all)[x] else 0
  {
    if all == [] then []
    else
      var rest := WithScores(all[1..], scored);
      var r := if all[0].name in scored then [all[0]] + rest else rest;
      FilterStep(all, scored, rest, r);
      r
  }

  /** Keeping or dropping the first record keeps the filter's contract. */
  lemma {:induction false} FilterStep(all: seq<Benchmark>, scored: set<string>, rest: seq<Benchmark>, r: seq<Benchmark>)
    requires all != []
    requires forall k | 0 <= k < |rest| :: rest[k] in all[1..] && rest[k].name in scored
    requires forall k | 1 <= k < |all| && all[k].name in scored :: all[k] in rest
    requires forall x | x in all[1..] :: multiset(rest)[x] == if x.name in scored then multiset(all[1..])[x] else 0
    requires multiset(rest) <= multiset(all[1..])
    requires r == if all[0].name in scored then [all[0]] + rest else rest
    ensures forall k | 0 <= k < |r| :: r[k] in all && r[k].name in scored
    ensures forall k | 0 <= k < |all| && all[k].name in scored :: all[k] in r
    ensures multiset(r) <= multiset(all)
    ensures forall x | x in all :: multiset(r)[x] == if x.name in scored then multiset(all)[x] else 0
  {
    var first, tail := all[0], all[1..];
    assert all == [first] + tail;
    assert multiset(all) == multiset{first} + multiset(tail);
    forall k | 1 <= k < |all| ensures all[k] == tail[k - 1] {
    }
    forall x | x in all ensures multiset(r)[x] == if x.name in scored then multiset(all)[x] else 0 {
      if x !in tail {
        assert multiset(tail)[x] == 0;
        assert multiset(rest)[x] == 0;
      }
    }
  }

  /** Filtering a concatenation filters each part; with `WithScoresSingle` this says the
      filter keeps the table order. */
  lemma {:induction false} WithScoresConcat(a: seq<Benchmark>, b: seq<Benchmark>, scored: set<string>)
    ensures WithScores(a + b, scored) == WithScores(a, scored) + WithScores(b, scored)
  {
    if a == [] {
      assert a + b == b;
    } else {
      var ab := a + b;
      assert ab[0] == a[0] && ab[1..] == a[1..] + b;
      WithScoresConcat(a[1..], b, scored);
    }
  }

  /** A single record is kept exactly when its name has a score. */
  lemma {:induction false} WithScoresSingle(x: Benchmark, scored: set<string>)
    ensures WithScores([x], scored) == if x.name in scored then [x] else []
  {
    assert [x][1..] == [];
  }

  /** The identifier function `_collect_benchmarks` gives `_order`. */
  function ParentIdent(b: Benchmark): Result<Category> {
    Ok(b.parent)
  }

  /** The sort key of a benchmark exists exactly when its parent is in the taxonomy, and
      the only failure is the unknown category. */
  lemma {:induction false} ParentKey(b: Benchmark)
    ensures SortKey(ParentIdent, b).Ok? <==> b.parent in BenchmarkOrder
    ensures SortKey(ParentIdent, b).Err? ==> SortKey(ParentIdent, b).error == UnknownCategory
  {
  }

  /** `_order` of the benchmarks by parent succeeds exactly when every parent is known. */
  lemma {:induction false} OrderByParent(bs: seq<Benchmark>, less: (Benchmark, Benchmark) -> bool)
    ensures Order(bs, ParentIdent, less).Ok? <==> forall k | 0 <= k < |bs| :: bs[k].parent in BenchmarkOrder
    ensures Order(bs, ParentIdent, less).Err? ==> Order(bs, ParentIdent, less).error == UnknownCategory
  {
    var r := Order(bs, ParentIdent, less);
    forall k | 0 <= k < |bs| ensures SortKey(ParentIdent, bs[k]).Ok? <==> bs[k].parent in BenchmarkOrder {
      ParentKey(bs[k]);
    }
    if r.Err? {
      var k :| 0 <= k < |bs| && SortKey(ParentIdent, bs[k]) == Err(r.error);
      ParentKey(bs[k]);
    }
  }

  /** The benchmarks kept all have a known parent exactly when every benchmark with scores
      has one. */
  lemma {:induction false} WithScoresParents(all: seq<Benchmark>, scored: set<string>)
    ensures (forall k | 0 <= k < |WithScores(all, scored)| :: WithScores(all, scored)[k].parent in BenchmarkOrder)
        <==> (forall k | 0 <= k < |all| && all[k].name in scored :: all[k].parent in BenchmarkOrder)
  {
    var shown := WithScores(all, scored);
    if forall k | 0 <= k < |all| && all[k].name in scored :: all[k].parent in BenchmarkOrder {
      forall k | 0 <= k < |shown| ensures shown[k].parent in BenchmarkOrder {
        var j :| 0 <= j < |all| && all[j] == shown[k];
      }
    } else {
      var k :| 0 <= k < |all| && all[k].name in scored && all[k].parent !in BenchmarkOrder;
      var j :| 0 <= j < |shown| && shown[j] == all[k];
    }
  }

  /** `_collect_benchmarks`: the benchmarks that have scores, ordered by the position of
      their parent in `benchmark_order`; a parent outside it fails. */
  function CollectBenchmarks(all: seq<Benchmark>, scores: seq<Score>, less: (Benchmark, Benchmark) -> bool): (r: Result<seq<Benchmark>>)
    reads all
    ensures r.Ok? <==> forall k | 0 <= k < |all| && all[k].name in ScoredNames(scores) :: all[k].parent in BenchmarkOrder
    ensures r.Err? ==> r.error == UnknownCategory
    ensures r.Ok? ==> multiset(r.value) == multiset(WithScores(all, ScoredNames(scores)))
    ensures r.Ok? ==> forall k | 0 <= k < |r.value| :: r.value[k] in all && r.value[k].name in ScoredNames(scores)
  {
    var shown := WithScores(all, ScoredNames(scores));
    var r := Order(shown, ParentIdent, less);
    OrderedShown(all, ScoredNames(scores), less, shown, r);
    r
  }

  /** What `_order` makes of the benchmarks with scores. */
  lemma {:induction false} OrderedShown(all: seq<Benchmark>, scored: set<string>, less: (Benchmark, Benchmark) -> bool,
                                        shown: seq<Benchmark>, r: Result<seq<Benchmark>>)
    requires shown == WithScores(all, scored) && r == Order(shown, ParentIdent, less)
    ensures r.Ok? <==> forall k | 0 <= k < |all| && all[k].name in scored :: all[k].parent in BenchmarkOrder
    ensures r.Err? ==> r.error == UnknownCategory
    ensures r.Ok? ==> multiset(r.value) == multiset(shown)
    ensures r.Ok? ==> forall k | 0 <= k < |r.value| :: r.value[k] in all && r.value[k].name in scored
  {
    OrderByParent(shown, less);
    WithScoresParents(all, scored);
    if r.Ok? {
      forall k | 0 <= k < |r.value| ensures r.value[k] in all && r.value[k].name in scored {
        assert r.value[k] in multiset(shown);
      }
    }
  }

  /** The collected benchmarks are in category order, and by the benchmark order within a
      category; none of them occurs twice when the table holds each record once. */
  lemma {:induction false} CollectBenchmarksOrdered(all: seq<Benchmark>, scores: seq<Score>, less: (Benchmark, Benchmark) -> bool)
    requires CollectBenchmarks(all, scores, less).Ok?
    requires StrictTotalOn(less, WithScores(all, ScoredNames(scores)))
    requires Distinct(all)
    ensures InCategoryOrder(ParentIdent, less, CollectBenchmarks(all, scores, less).value)
    ensures Distinct(CollectBenchmarks(all, scores, less).value)
  {
    var shown := WithScores(all, ScoredNames(scores));
    OrderSorted(shown, ParentIdent, less);
    SubmultisetDistinct(all, CollectBenchmarks(all, scores, less).value);
  }

  /** The collected benchmarks are records of the table, each once, with their stored
      ceilings. */
  lemma {:induction false} CollectedRecords(all: seq<Benchmark>, scores: seq<Score>, less: (Benchmark, Benchmark) -> bool, bs: seq<Benchmark>)
    requires CollectBenchmarks(all, scores, less) == Ok(bs)
    requires Distinct(all)
    requires forall i | 0 <= i < |all| :: all[i].ceiling.Raw?
    ensures Distinct(bs)
    ensures forall i | 0 <= i < |bs| :: bs[i] in all && bs[i].ceiling.Raw?
  {
    SubmultisetDistinct(all, bs);
    forall i | 0 <= i < |bs| ensures bs[i].ceiling.Raw? {
      var j :| 0 <= j < |all| && all[j] == bs[i];
    }
  }

  /** The cell shown for model `m` and benchmark `b`: the cell of the model's last score for
      `b`, or the "not yet run" placeholder when there is none. */
  ghost predicate ShowsLatest(cell: ScoreDisplay, m: string, b: string, scores: seq<Score>, fmt: FloatFormat) {
    && BoundsOf(b, scores).Ok?
    && match LatestScore(scores, m, b)
       case None => cell == Placeholder(b, BoundsOf(b, scores).value)
       case Some(j) => ShowScore(scores[j], BoundsOf(b, scores).value, fmt) == Ok(cell)
  }

  /** Every row has one cell per benchmark name, in order, and each cell is the one the
      model's last score for that benchmark gives, or the placeholder. */
  ghost predicate RowsShowLatest(rows: seq<AlignedRow>, names: seq<string>, scores: seq<Score>, fmt: FloatFormat) {
    forall i | 0 <= i < |rows| ::
      && |rows[i].scores| == |names|
      && forall k | 0 <= k < |names| ::
           && rows[i].scores[k].benchmark == names[k]
           && ShowsLatest(rows[i].scores[k], rows[i].name, names[k], scores, fmt)
  }

  /** Cell `k` of aligned row `i` shows the latest score of the row's model on benchmark
      `k`, or the placeholder. */
  lemma {:induction false} AlignedCellShowsLatest(t: Table, names: seq<string>, meta: map<string, AlphaBounds>, scores: seq<Score>, cat: Catalog, i: nat, k: nat)
    requires Consistent(t, cat) && CellsAgree(t, scores, meta, cat)
    requires HasBounds(names, meta)
    requires forall n | n in meta :: BoundsOf(n, scores) == Ok(meta[n])
    requires i < |t.order| && k < |names|
    ensures |AlignRow(t.rows[t.order[i]], names, meta).scores| == |names|
    ensures AlignRow(t.rows[t.order[i]], names, meta).scores[k].benchmark == names[k]
    ensures ShowsLatest(AlignRow(t.rows[t.order[i]], names, meta).scores[k], t.order[i], names[k], scores, cat.fmt)
  {
    var m := t.order[i];
    var row := t.rows[m];
    var b := names[k];
    AlignRowBenchmarks(row, names, meta);
    var cell := AlignRow(row, names, meta).scores[k];
    assert BoundsOf(b, scores) == Ok(meta[b]);
    assert b in row.scores <==> LatestScore(scores, m, b).Some?;
    if b in row.scores {
      assert cell == row.scores[b];
    } else {
      assert cell == Placeholder(b, meta[b]);
    }
  }

  /** The aligned rows of an arranged table show the latest score of every model on every
      benchmark. */
  lemma {:induction false} AlignShowsLatest(t: Table, names: seq<string>, meta: map<string, AlphaBounds>, scores: seq<Score>, cat: Catalog)
    requires Consistent(t, cat) && CellsAgree(t, scores, meta, cat)
    requires HasBounds(names, meta)
    requires forall n | n in meta :: BoundsOf(n, scores) == Ok(meta[n])
    ensures RowsShowLatest(Align(t, names, meta), names, scores, cat.fmt)
  {
    var rows := Align(t, names, meta);
    forall i | 0 <= i < |rows|
      ensures |rows[i].scores| == |names|
      ensures forall k | 0 <= k < |names| ::
           && rows[i].scores[k].benchmark == names[k]
           && ShowsLatest(rows[i].scores[k], rows[i].name, names[k], scores, cat.fmt)
    {
      forall k | 0 <= k < |names|
        ensures rows[i].scores[k].benchmark == names[k]
        ensures ShowsLatest(rows[i].scores[k], rows[i].name, names[k], scores, cat.fmt)
      {
        AlignedCellShowsLatest(t, names, meta, scores, cat, i, k);
      }
    }
  }

  /** The models that get a row, in the order of their first score on a benchmark in
      `names`. */
  ghost function ModelOrder(scores: seq<Score>, names: seq<string>): seq<string> {
    FirstAppearance(RelevantModels(scores, set n | n in names))
  }

  /** Every row carries the header `MakeRow` builds for its model: its reference, link and
      meta text, with the rank and cells left aside. */
  ghost predicate RowsHaveHeaders(rows: seq<AlignedRow>, cat: Catalog) {
    forall i | 0 <= i < |rows| ::
      MakeRow(rows[i].name, cat) ==
        Ok(ModelRow(rows[i].name, rows[i].referenceIdentifier, rows[i].referenceLink, rows[i].meta, None, map[]))
  }

  /** Aligning keeps each row's header. */
  lemma {:induction false} AlignedHeaders(t: Table, names: seq<string>, meta: map<string, AlphaBounds>, cat: Catalog)
    requires HeadersBuilt(t, cat)
    requires forall m | m in t.order :: m in t.rows
    requires HasBounds(names, meta)
    ensures RowsHaveHeaders(Align(t, names, meta), cat)
  {
    var rows := Align(t, names, meta);
    forall i | 0 <= i < |rows|
      ensures MakeRow(rows[i].name, cat) ==
        Ok(ModelRow(rows[i].name, rows[i].referenceIdentifier, rows[i].referenceLink, rows[i].meta, None, map[]))
    {
      var m := t.order[i];
      var row := t.rows[m];
      assert HasHeader(m, row, cat);
      assert rows[i] == AlignRow(row, names, meta);
    }
  }

  /** Rows that differ only in their ranks carry the same headers. */
  lemma {:induction false} RerankedHeaders(a: seq<AlignedRow>, b: seq<AlignedRow>, cat: Catalog)
    requires |a| == |b|
    requires forall i | 0 <= i < |a| :: b[i] == a[i].(rank := b[i].rank)
    requires RowsHaveHeaders(a, cat)
    ensures RowsHaveHeaders(b, cat)
  {
    forall i | 0 <= i < |b|
      ensures MakeRow(b[i].name, cat) ==
        Ok(ModelRow(b[i].name, b[i].referenceIdentifier, b[i].referenceLink, b[i].meta, None, map[]))
    {
      assert b[i] == a[i].(rank := b[i].rank);
    }
  }

  /** The aligned rows of the arranged table: one per model of `ModelOrder`, in that order,
      with the latest cells; with a benchmark named 'average' their averages exist. */
  lemma {:induction false} ArrangedRows(scores: seq<Score>, names: seq<string>, meta: map<string, AlphaBounds>, cat: Catalog, t: Table)
    requires Arrange.Arrange(scores, meta, cat) == Ok(t)
    requires meta.Keys == set n | n in names
    requires forall n | n in meta :: BoundsOf(n, scores) == Ok(meta[n])
    ensures HasBounds(names, meta)
    ensures forall m | m in t.order :: m in t.rows
    ensures var aligned := Align(t, names, meta);
      && DistinctNames(aligned)
      && |aligned| == |ModelOrder(scores, names)|
      && (forall i | 0 <= i < |aligned| :: aligned[i].name == ModelOrder(scores, names)[i])
      && RowsShowLatest(aligned, names, scores, cat.fmt)
      && RowsHaveHeaders(aligned, cat)
      && ("average" in names ==> Averages(aligned).Ok?)
  {
    assert HasBounds(names, meta);
    ArrangeConsistent(scores, meta, cat);
    ArrangeOrder(scores, meta, cat);
    ArrangeCells(scores, meta, cat);
    AlignNames(t, names, meta, cat);
    AlignShowsLatest(t, names, meta, scores, cat);
    AlignedHeaders(t, names, meta, cat);
    if "average" in names {
      AlignedAveragesOk(t, names, meta, cat);
    }
  }

  /** The "infer rank" step of `_collect_models`: it fails exactly when some row has no
      average, changes nothing but the ranks, and gives each row the competition rank of its
      average text among all the average texts. */
  method InferRanks(aligned: seq<AlignedRow>, ghost names: seq<string>, ghost scores: seq<Score>, ghost fmt: FloatFormat)
    returns (r: Result<seq<AlignedRow>>)
    requires DistinctNames(aligned)
    requires RowsShowLatest(aligned, names, scores, fmt)
    ensures r.Ok? <==> Averages(aligned).Ok?
    ensures r.Err? ==> r.error == NoAverageScore
    ensures r.Ok? ==> |r.value| == |aligned|
    ensures r.Ok? ==> forall i | 0 <= i < |r.value| :: r.value[i].name == aligned[i].name
    ensures r.Ok? ==> forall i | 0 <= i < |aligned| :: r.value[i] == aligned[i].(rank := r.value[i].rank)
    ensures r.Ok? ==> RowsShowLatest(r.value, names, scores, fmt)
    ensures r.Ok? ==> Averages(r.value).Ok? && RankedAsShown(r.value, Averages(r.value).value)
  {
    r := AssignRanks(aligned);
    if r.Ok? {
      var rows := r.value;
      forall i | 0 <= i < |rows| ensures rows[i].name == aligned[i].name && rows[i].scores == aligned[i].scores {
      }
      SourceRanks(aligned, rows);
      RanksKeepCells(aligned, rows);
    }
  }

  /** A benchmark without scores has no aggregates. */
  lemma {:induction false} NoBoundsUnscored(names: seq<string>, scores: seq<Score>)
    requires exists i :: 0 <= i < |names| && BoundsOf(names[i], scores).Err?
    ensures exists i :: 0 <= i < |names| && names[i] !in ScoredNames(scores)
  {
    var i :| 0 <= i < |names| && BoundsOf(names[i], scores).Err?;
    assert names[i] !in ScoredNames(scores);
  }

  /** What `_collect_models` returns for the benchmark names `names`: one row per model of
      `ModelOrder`, in that order, each with the header `MakeRow` builds for its model and
      the latest cells, ranked by its average text. */
  ghost predicate ModelRows(rows: seq<AlignedRow>, names: seq<string>, scores: seq<Score>, cat: Catalog) {
    && |rows| == |ModelOrder(scores, names)|
    && (forall i | 0 <= i < |rows| :: rows[i].name == ModelOrder(scores, names)[i])
    && RowsHaveHeaders(rows, cat)
    && RowsShowLatest(rows, names, scores, cat.fmt)
    && Averages(rows).Ok? && RankedAsShown(rows, Averages(rows).value)
  }

  /** Every score on one of the benchmarks `names` yields the row header of its model and a
      cell against its benchmark's bounds. */
  ghost predicate ScoresShowable(names: seq<string>, scores: seq<Score>, cat: Catalog) {
    forall s | s in scores && s.benchmark in names ::
      && MakeRow(s.model, cat).Ok?
      && BoundsOf(s.benchmark, scores).Ok?
      && ShowScore(s, BoundsOf(s.benchmark, scores).value, cat.fmt).Ok?
  }

  /** When `_collect_models` returns rows: every benchmark has a score, every score on a
      benchmark yields a header and a cell, and there is a benchmark named 'average' or no
      model to rank. */
  ghost predicate ModelsProduced(names: seq<string>, scores: seq<Score>, cat: Catalog) {
    && (forall i | 0 <= i < |names| :: names[i] in ScoredNames(scores))
    && ScoresShowable(names, scores, cat)
    && ("average" in names || forall k | 0 <= k < |scores| :: scores[k].benchmark !in names)
  }

  /** The errors `_collect_models` can raise. */
  predicate ModelsError(e: Error) {
    e == EmptyScores || e == NoMatchingPrefix || e == NoAverageScore || ColorError(e)
  }

  /** `_collect_models`. It reads nothing of the benchmarks but their names, `names`. */
  method CollectModels(names: seq<string>, scores: seq<Score>, cat: Catalog) returns (r: Result<seq<AlignedRow>>)
    ensures r.Err? ==> ModelsError(r.error)
    ensures r.Err? && r.error == EmptyScores ==> exists k :: 0 <= k < |names| && names[k] !in ScoredNames(scores)
    ensures r.Err? && r.error == NoAverageScore ==> "average" !in names
    ensures r.Ok? <==> ModelsProduced(names, scores, cat)
    ensures r.Ok? ==> ModelRows(r.value, names, scores, cat)
  {
    var meta := CollectAlphaBounds(names, scores);
    if meta.Err? {
      r := Err(meta.error);
      UnscoredOutcome(names, scores, cat, r);
      return;
    }
    var table := ArrangeScores(scores, meta.value, cat);
    if table.Err? {
      r := Err(table.error);
      UnshowableOutcome(names, scores, meta.value, cat, r);
      return;
    }
    ArrangedRows(scores, names, meta.value, cat, table.value);
    var aligned := Align(table.value, names, meta.value);
    r := InferRanks(aligned, names, scores, cat.fmt);
    RankedOutcome(names, scores, cat, meta.value, aligned, r);
  }

  /** `_collect_models` when a benchmark has no aggregates: it fails with `EmptyScores`. */
  lemma {:induction false} UnscoredOutcome(names: seq<string>, scores: seq<Score>, cat: Catalog, r: Result<seq<AlignedRow>>)
    requires !forall i | 0 <= i < |names| :: BoundsOf(names[i], scores).Ok?
    requires r == Err(EmptyScores)
    ensures r.Err? && ModelsError(r.error)
    ensures exists k :: 0 <= k < |names| && names[k] !in ScoredNames(scores)
    ensures !ModelsProduced(names, scores, cat)
  {
    NoBoundsUnscored(names, scores);
  }

  /** `_collect_models` when the arranging loop fails: the page is not produced. */
  lemma {:induction false} UnshowableOutcome(names: seq<string>, scores: seq<Score>, meta: map<string, AlphaBounds>, cat: Catalog, r: Result<seq<AlignedRow>>)
    requires meta.Keys == set n | n in names
    requires forall n | n in meta :: BoundsOf(n, scores) == Ok(meta[n])
    requires Arrange.Arrange(scores, meta, cat).Err?
    requires r == Err(Arrange.Arrange(scores, meta, cat).error)
    ensures r.Err? && ModelsError(r.error) && r.error != EmptyScores && r.error != NoAverageScore
    ensures !ModelsProduced(names, scores, cat)
  {
    ArrangedWhenShowable(names, scores, meta, cat);
    ArrangeErrorKinds(scores, meta, cat);
  }

  /** `_collect_models` once the table is arranged: ranking fails without averages, and
      otherwise gives the rows of `ModelRows`. */
  lemma {:induction false} RankedOutcome(names: seq<string>, scores: seq<Score>, cat: Catalog, meta: map<string, AlphaBounds>, aligned: seq<AlignedRow>, r: Result<seq<AlignedRow>>)
    requires meta.Keys == set n | n in names
    requires forall n | n in meta :: BoundsOf(n, scores) == Ok(meta[n])
    requires Arrange.Arrange(scores, meta, cat).Ok?
    requires |aligned| == |ModelOrder(scores, names)|
    requires forall i | 0 <= i < |aligned| :: aligned[i].name == ModelOrder(scores, names)[i]
    requires RowsShowLatest(aligned, names, scores, cat.fmt)
    requires RowsHaveHeaders(aligned, cat)
    requires "average" in names ==> Averages(aligned).Ok?
    requires r.Ok? <==> Averages(aligned).Ok?
    requires r.Err? ==> r.error == NoAverageScore
    requires r.Ok? ==> |r.value| == |aligned|
    requires r.Ok? ==> forall i | 0 <= i < |r.value| :: r.value[i].name == aligned[i].name
    requires r.Ok? ==> forall i | 0 <= i < |aligned| :: r.value[i] == aligned[i].(rank := r.value[i].rank)
    requires r.Ok? ==> RowsShowLatest(r.value, names, scores, cat.fmt)
    requires r.Ok? ==> Averages(r.value).Ok? && RankedAsShown(r.value, Averages(r.value).value)
    ensures r.Err? ==> ModelsError(r.error) && r.error == NoAverageScore && "average" !in names
    ensures r.Ok? <==> ModelsProduced(names, scores, cat)
    ensures r.Ok? ==> ModelRows(r.value, names, scores, cat)
  {
    ArrangedAverages(names, scores, cat, meta, aligned);
    if r.Ok? {
      RerankedHeaders(aligned, r.value, cat);
    }
  }

  /** Once the table is arranged, the aligned rows have averages exactly when the page is
      produced. */
  lemma {:induction false} ArrangedAverages(names: seq<string>, scores: seq<Score>, cat: Catalog, meta: map<string, AlphaBounds>, aligned: seq<AlignedRow>)
    requires meta.Keys == set n | n in names
    requires forall n | n in meta :: BoundsOf(n, scores) == Ok(meta[n])
    requires Arrange.Arrange(scores, meta, cat).Ok?
    requires |aligned| == |ModelOrder(scores, names)|
    requires RowsShowLatest(aligned, names, scores, cat.fmt)
    requires "average" in names ==> Averages(aligned).Ok?
    ensures Averages(aligned).Ok? <==> ModelsProduced(names, scores, cat)
  {
    ArrangedWhenShowable(names, scores, meta, cat);
    BoundsScored(names, scores);
    assert forall i | 0 <= i < |names| :: names[i] in meta;
    AveragesProduced(names, scores, cat, aligned);
  }

  /** With the aggregates of exactly the benchmarks `names`, the arranging loop succeeds
      exactly when every score on one of them yields a header and a cell. */
  lemma {:induction false} ArrangedWhenShowable(names: seq<string>, scores: seq<Score>, meta: map<string, AlphaBounds>, cat: Catalog)
    requires meta.Keys == set n | n in names
    requires forall n | n in meta :: BoundsOf(n, scores) == Ok(meta[n])
    ensures Arrange.Arrange(scores, meta, cat).Ok? <==> ScoresShowable(names, scores, cat)
  {
    ShowableAgrees(names, scores, meta, cat);
    ArrangeOk(scores, meta, cat);
  }

  /** Every benchmark has aggregates exactly when every benchmark has a score. */
  lemma {:induction false} BoundsScored(names: seq<string>, scores: seq<Score>)
    ensures (forall i | 0 <= i < |names| :: BoundsOf(names[i], scores).Ok?) <==>
            (forall i | 0 <= i < |names| :: names[i] in ScoredNames(scores))
  {
    forall i | 0 <= i < |names| ensures BoundsOf(names[i], scores).Ok? <==> names[i] in ScoredNames(scores) {
    }
  }

  /** Once the table is arranged, the rows have averages exactly when the page is produced:
      with a benchmark named 'average', or with no rows at all. */
  lemma {:induction false} AveragesProduced(names: seq<string>, scores: seq<Score>, cat: Catalog, aligned: seq<AlignedRow>)
    requires forall i | 0 <= i < |names| :: names[i] in ScoredNames(scores)
    requires ScoresShowable(names, scores, cat)
    requires |aligned| == |ModelOrder(scores, names)|
    requires RowsShowLatest(aligned, names, scores, cat.fmt)
    requires "average" in names ==> Averages(aligned).Ok?
    ensures Averages(aligned).Ok? <==> ModelsProduced(names, scores, cat)
  {
    ModelOrderEmpty(scores, names);
    if "average" !in names && |aligned| > 0 {
      NoAverageCell(aligned, names, scores, cat.fmt);
    }
  }

  /** With the aggregates of exactly the benchmarks `names`, the arranging loop's success
      condition is `ScoresShowable`. */
  lemma {:induction false} ShowableAgrees(names: seq<string>, scores: seq<Score>, meta: map<string, AlphaBounds>, cat: Catalog)
    requires meta.Keys == set n | n in names
    requires forall n | n in meta :: BoundsOf(n, scores) == Ok(meta[n])
    ensures AllShowable(scores, meta, cat) <==> ScoresShowable(names, scores, cat)
  {
    forall s | s in scores ensures Showable(s, meta, cat) <==> (s.benchmark in names ==>
      && MakeRow(s.model, cat).Ok?
      && BoundsOf(s.benchmark, scores).Ok?
      && ShowScore(s, BoundsOf(s.benchmark, scores).value, cat.fmt).Ok?)
    {
      assert s.benchmark in meta <==> s.benchmark in names;
    }
  }

  /** No model gets a row exactly when no score is on one of the benchmarks `names`. */
  lemma {:induction false} ModelOrderEmpty(scores: seq<Score>, names: seq<string>)
    ensures |ModelOrder(scores, names)| == 0 <==> forall k | 0 <= k < |scores| :: scores[k].benchmark !in names
  {
    var named := set n | n in names;
    var ms := RelevantModels(scores, named);
    if exists k :: 0 <= k < |scores| && scores[k].benchmark in names {
      var k :| 0 <= k < |scores| && scores[k].benchmark in names;
      assert scores[k].benchmark in named;
      assert scores[k].model in ms;
      assert scores[k].model in ModelOrder(scores, names);
    }
    if |ModelOrder(scores, names)| > 0 {
      assert ModelOrder(scores, names)[0] in ms;
    }
  }

  /** Without a benchmark named 'average', a row whose cells are those of the benchmarks has no
      average. */
  lemma {:induction false} NoAverageCell(rows: seq<AlignedRow>, names: seq<string>, scores: seq<Score>, fmt: FloatFormat)
    requires RowsShowLatest(rows, names, scores, fmt)
    requires "average" !in names && |rows| > 0
    ensures Averages(rows).Err?
  {
    var cells := rows[0].scores;
    forall k | 0 <= k < |cells| ensures cells[k].benchmark != "average" {
      assert cells[k].benchmark == names[k];
    }
    assert AverageOf(rows[0].scores).Err?;
  }

  /** The loop at the end of `view`: every collected benchmark loses its lab prefix and gets
      its ceiling as text. Each record is visited once, and its ceiling is still the stored
      (`Raw`) value, possibly none. */
  method ShortenForDisplay(bs: seq<Benchmark>, fmt: FloatFormat)
    requires Distinct(bs)
    requires forall i | 0 <= i < |bs| :: bs[i].ceiling.Raw?
    modifies bs
    ensures forall i | 0 <= i < |bs| ::
      && bs[i].name == StripLab(old(bs[i].name))
      && bs[i].ceiling == Shown(Represent(old(bs[i].ceiling).value, fmt))
  {
    for i := 0 to |bs|
      invariant forall j | 0 <= j < i ::
        && bs[j].name == StripLab(old(bs[j].name))
        && bs[j].ceiling == Shown(Represent(old(bs[j].ceiling).value, fmt))
      invariant forall j | i <= j < |bs| :: bs[j].name == old(bs[j].name) && bs[j].ceiling == old(bs[j].ceiling)
    {
      var b := bs[i];
      b.name := StripLab(b.name);
      b.ceiling := Shown(Represent(b.ceiling.value, fmt));
    }
  }

  /** The same loop seen from the whole table: the collected records are rewritten, every
      other record is left as it was. */
  method RewriteCollected(all: seq<Benchmark>, bs: seq<Benchmark>, fmt: FloatFormat)
    requires Distinct(bs)
    requires forall i | 0 <= i < |bs| :: bs[i].ceiling.Raw?
    modifies bs
    ensures forall k | 0 <= k < |all| ::
      if all[k] in bs then
        && all[k].name == StripLab(old(all[k].name))
        && all[k].ceiling == Shown(Represent(old(all[k].ceiling).value, fmt))
      else
        all[k].name == old(all[k].name) && all[k].ceiling == old(all[k].ceiling)
  {
    ShortenForDisplay(bs, fmt);
    forall k | 0 <= k < |all| && all[k] in bs
      ensures all[k].name == StripLab(old(all[k].name))
      ensures all[k].ceiling == Shown(Represent(old(all[k].ceiling).value, fmt))
    {
      var i :| 0 <= i < |bs| && bs[i] == all[k];
    }
  }

  /** The context handed to the template. */
  datatype Page = Page(models: seq<AlignedRow>, benchmarks: seq<Benchmark>)

  /** `view(request)`: collects the benchmarks and the model rows, then rewrites the
      collected benchmarks for display; the benchmarks without scores are left as they were.
      The rows are built from the benchmark names before the rewrite. */
  method View(all: seq<Benchmark>, scores: seq<Score>, cat: Catalog, less: (Benchmark, Benchmark) -> bool)
    returns (r: Result<Page>)
    requires Distinct(all)
    requires forall i | 0 <= i < |all| :: all[i].ceiling.Raw?
    modifies all
    ensures r.Ok? <==>
      (old(CollectBenchmarks(all, scores, less)).Ok? &&
       ModelsProduced(old(Names(CollectBenchmarks(all, scores, less).value)), scores, cat))
    ensures r.Err? ==> r.error == UnknownCategory || ModelsError(r.error)
    ensures old(CollectBenchmarks(all, scores, less)).Err? ==> r == Err(UnknownCategory)
    ensures r.Ok? ==> old(CollectBenchmarks(all, scores, less)) == Ok(r.value.benchmarks)
    ensures r.Ok? ==> ModelRows(r.value.models, old(Names(CollectBenchmarks(all, scores, less).value)), scores, cat)
    ensures forall k | 0 <= k < |all| ::
      if r.Ok? && all[k] in r.value.benchmarks then
        && all[k].name == StripLab(old(all[k].name))
        && all[k].ceiling == Shown(Represent(old(all[k].ceiling).value, cat.fmt))
      else
        all[k].name == old(all[k].name) && all[k].ceiling == old(all[k].ceiling)
  {
    var collected := CollectBenchmarks(all, scores, less);
    if collected.Err? {
      return Err(collected.error);
    }
    var bs := collected.value;
    CollectedRecords(all, scores, less, bs);
    var names := Names(bs);
    var models := CollectModels(names, scores, cat);
    if models.Err? {
      return Err(models.error);
    }
    RewriteCollected(all, bs, cat.fmt);
    return Ok(Page(models.value, bs));
  }
}

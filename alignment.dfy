/** Turning each row's dict of cells into a list with one cell per benchmark, in benchmark
    order, a placeholder standing in where the model has no score
    (benchmarks/views/index.py:91-105). */
module Alignment {
  import opened Common
  import opened Display
  import opened Records
  import opened Ranking
  import opened Arrange

  /** `no_score[name]`: the cell shown for a benchmark the model was not run on. */
  function Placeholder(name: string, b: AlphaBounds): (r: ScoreDisplay)
    ensures r.benchmark == name && r.scoreCeiled == "" && r.scoreRaw == ""
    ensures r.color == Fixed(NeutralCss) && r.layer == Some("not yet run")
  {
    ScoreDisplay(name, "", "", RepresentativeColor(None, Some(b.min), Some(b.max)).value, Some("not yet run"))
  }

  /** Every cell of the row is filed under its own benchmark. */
  ghost predicate CellsKeyed(row: DraftRow) {
    forall b | b in row.scores :: row.scores[b].benchmark == b
  }

  /** Every benchmark name has aggregates, so `benchmarks_meta[benchmark.name]` succeeds. */
  predicate HasBounds(names: seq<string>, meta: map<string, AlphaBounds>) {
    forall k | 0 <= k < |names| :: names[k] in meta
  }

  /** `model_row._replace(scores=[...])`: the recorded cell of each benchmark, or its
      placeholder; nothing else in the row changes. */
  function AlignRow(row: DraftRow, names: seq<string>, meta: map<string, AlphaBounds>): (r: AlignedRow)
    requires HasBounds(names, meta)
    ensures r.name == row.name && r.rank == row.rank && r.meta == row.meta
    ensures r.referenceIdentifier == row.referenceIdentifier && r.referenceLink == row.referenceLink
    ensures |r.scores| == |names|
    ensures forall k | 0 <= k < |names| ::
      r.scores[k] == if names[k] in row.scores then row.scores[names[k]] else Placeholder(names[k], meta[names[k]])
  {
    var cells := seq(|names|, k requires 0 <= k < |names| =>
      if names[k] in row.scores then row.scores[names[k]] else Placeholder(names[k], meta[names[k]]));
    ModelRow(row.name, row.referenceIdentifier, row.referenceLink, row.meta, row.rank, cells)
  }

  /** Cell `k` of an aligned row belongs to benchmark `k`. */
  lemma {:induction false} AlignRowBenchmarks(row: DraftRow, names: seq<string>, meta: map<string, AlphaBounds>)
    requires HasBounds(names, meta)
    requires CellsKeyed(row)
    ensures forall k | 0 <= k < |names| :: AlignRow(row, names, meta).scores[k].benchmark == names[k]
  {
  }

  /** The rows of `data.values()`, each aligned. */
  function Align(t: Table, names: seq<string>, meta: map<string, AlphaBounds>): (r: seq<AlignedRow>)
    requires forall m | m in t.order :: m in t.rows
    requires HasBounds(names, meta)
    ensures |r| == |t.order|
    ensures forall i | 0 <= i < |r| :: r[i] == AlignRow(t.rows[t.order[i]], names, meta)
  {
    seq(|t.order|, i requires 0 <= i < |t.order| => AlignRow(t.rows[t.order[i]], names, meta))
  }

  /** Where a benchmark named 'average' exists, every aligned row has an average text: the
      ceiled text of the model's average score, or "" when the model has none. */
  lemma {:induction false} AlignedAverage(row: DraftRow, names: seq<string>, meta: map<string, AlphaBounds>)
    requires HasBounds(names, meta)
    requires CellsKeyed(row)
    requires "average" in names
    ensures AverageOf(AlignRow(row, names, meta).scores)
      == Ok(if "average" in row.scores then row.scores["average"].scoreCeiled else "")
  {
    AlignRowBenchmarks(row, names, meta);
    var cells := AlignRow(row, names, meta).scores;
    var k :| 0 <= k < |names| && names[k] == "average";
    assert cells[k].benchmark == "average";
  }

  /** The aligned rows keep the models of `data`, in its order, one row per model. */
  lemma {:induction false} AlignNames(t: Table, names: seq<string>, meta: map<string, AlphaBounds>, cat: Rows.Catalog)
    requires Consistent(t, cat)
    requires HasBounds(names, meta)
    ensures DistinctNames(Align(t, names, meta))
    ensures forall i | 0 <= i < |t.order| :: Align(t, names, meta)[i].name == t.order[i]
  {
  }

  /** With a benchmark named 'average', computing the averages never fails. */
  lemma {:induction false} AlignedAveragesOk(t: Table, names: seq<string>, meta: map<string, AlphaBounds>, cat: Rows.Catalog)
    requires Consistent(t, cat)
    requires HasBounds(names, meta)
    requires "average" in names
    ensures Averages(Align(t, names, meta)).Ok?
  {
    var rows := Align(t, names, meta);
    forall i | 0 <= i < |rows| ensures AverageOf(rows[i].scores).Ok? {
      AlignedAverage(t.rows[t.order[i]], names, meta);
    }
  }
}

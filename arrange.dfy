/** The loop that arranges the scores into model rows (benchmarks/views/index.py:60-88):
    scores of benchmarks without aggregates are skipped, the first score of a model adds
    its row to `data`, and every score then writes its cell into that row, a later score
    of the same model and benchmark overwriting an earlier one. */
module Arrange {
  import opened Common
  import opened Records
  import opened Rows
  import opened Display

  /** The dict `data`: its keys in insertion order (the order `data.values()` yields the
      rows in) and the mapping itself. */
  datatype Table = Table(order: seq<string>, rows: map<string, DraftRow>)

  /** One iteration of the loop, on the score `s`. */
  function Step(t: Table, s: Score, meta: map<string, AlphaBounds>, cat: Catalog): Result<Table> {
    if s.benchmark !in meta then Ok(t)
    else
      var isNew := s.model !in t.rows;
      match (if isNew then MakeRow(s.model, cat) else Ok(t.rows[s.model]))
      case Err(e) => Err(e)
      case Ok(row) =>
        match ShowScore(s, meta[s.benchmark], cat.fmt)
        case Err(e) => Err(e)
        case Ok(cell) =>
          Ok(Table(
            if isNew then t.order + [s.model] else t.order,
            t.rows[s.model := row.(scores := row.scores[s.benchmark := cell])]))
  }

  /** `data` after the loop has run over `scores`; the first failure ends it. */
  function Arrange(scores: seq<Score>, meta: map<string, AlphaBounds>, cat: Catalog): Result<Table> {
    if scores == [] then Ok(Table([], map[]))
    else
      match Arrange(scores[..|scores| - 1], meta, cat)
      case Err(e) => Err(e)
      case Ok(t) => Step(t, scores[|scores| - 1], meta, cat)
  }

  /** The loop as the view runs it, on the local dict `data`. */
  method ArrangeScores(scores: seq<Score>, meta: map<string, AlphaBounds>, cat: Catalog) returns (r: Result<Table>)
    ensures r == Arrange(scores, meta, cat)
  {
    var order: seq<string> := [];
    var data: map<string, DraftRow> := map[];
    for i := 0 to |scores|
      invariant Arrange(scores[..i], meta, cat) == Ok(Table(order, data))
    {
      assert scores[..i + 1][..i] == scores[..i];
      var next := Visit(order, data, scores[i], meta, cat);
      if next.Err? {
        ArrangeErrPersists(scores, i + 1, meta, cat);
        return Err(next.error);
      }
      order, data := next.value.order, next.value.rows;
    }
    assert scores[..|scores|] == scores;
    return Ok(Table(order, data));
  }

  /** The body of the loop for one score: add the model's row on its first score, then
      write the cell into the row. */
  method Visit(order: seq<string>, data: map<string, DraftRow>, s: Score, meta: map<string, AlphaBounds>, cat: Catalog)
    returns (r: Result<Table>)
    ensures r == Step(Table(order, data), s, meta, cat)
  {
    if s.benchmark !in meta {
      return Ok(Table(order, data));
    }
    var order', data' := order, data;
    if s.model !in data' {
      var row := MakeRow(s.model, cat);
      if row.Err? {
        return Err(row.error);
      }
      data' := data'[s.model := row.value];
      order' := order' + [s.model];
    }
    ghost var row := data'[s.model];
    var cell := ShowScore(s, meta[s.benchmark], cat.fmt);
    if cell.Err? {
      return Err(cell.error);
    }
    data' := data'[s.model := data'[s.model].(scores := data'[s.model].scores[s.benchmark := cell.value])];
    MapOverwrite(data, s.model, row, row.(scores := row.scores[s.benchmark := cell.value]));
    return Ok(Table(order', data'));
  }

  /** Writing a key twice leaves the second value: what lets `Visit` be compared with `Step`. */
  lemma {:induction false} MapOverwrite<K, V>(d: map<K, V>, k: K, a: V, b: V)
    ensures d[k := a][k := b] == d[k := b]
  {
  }

  /** Once the loop has failed, later scores do not change the outcome. */
  lemma {:induction false} ArrangeErrPersists(scores: seq<Score>, i: nat, meta: map<string, AlphaBounds>, cat: Catalog)
    requires i <= |scores|
    requires Arrange(scores[..i], meta, cat).Err?
    ensures Arrange(scores, meta, cat) == Arrange(scores[..i], meta, cat)
    decreases |scores|
  {
    if i == |scores| {
      assert scores[..i] == scores;
    } else {
      var init := scores[..|scores| - 1];
      assert init[..i] == scores[..i];
      ArrangeErrPersists(init, i, meta, cat);
    }
  }

  /** The loop fails only on a meta key without a category or on a colour that cannot be
      computed. */
  lemma {:induction false} ArrangeErrorKinds(scores: seq<Score>, meta: map<string, AlphaBounds>, cat: Catalog)
    requires Arrange(scores, meta, cat).Err?
    ensures Arrange(scores, meta, cat).error == NoMatchingPrefix || ColorError(Arrange(scores, meta, cat).error)
  {
    var init := scores[..|scores| - 1];
    if Arrange(init, meta, cat).Err? {
      ArrangeErrorKinds(init, meta, cat);
    }
  }

  /** The models of the scores the loop does not skip, in score order. */
  function RelevantModels(scores: seq<Score>, names: set<string>): (r: seq<string>)
    ensures forall k | 0 <= k < |scores| && scores[k].benchmark in names :: scores[k].model in r
    ensures forall m | m in r :: exists k :: 0 <= k < |scores| && scores[k].benchmark in names && scores[k].model == m
  {
    if scores == [] then []
    else
      var init := scores[..|scores| - 1];
      var last := scores[|scores| - 1];
      var r := RelevantModels(init, names) + (if last.benchmark in names then [last.model] else []);
      assert forall k | 0 <= k < |init| :: init[k] == scores[k];
      r
  }

  /** `ms` without repetitions, each kept where it first occurs. */
  function FirstAppearance(ms: seq<string>): (r: seq<string>)
    ensures forall m :: m in r <==> m in ms
    ensures forall i, j | 0 <= i < j < |r| :: r[i] != r[j]
  {
    if ms == [] then []
    else
      var f := FirstAppearance(ms[..|ms| - 1]);
      assert ms == ms[..|ms| - 1] + [ms[|ms| - 1]];
      if ms[|ms| - 1] in f then f else f + [ms[|ms| - 1]]
  }

  /** Position of the last score of model `m` on benchmark `b`. */
  function LatestScore(scores: seq<Score>, m: string, b: string): (r: Option<nat>)
    ensures r.None? <==> forall k | 0 <= k < |scores| :: !(scores[k].model == m && scores[k].benchmark == b)
    ensures r.Some? ==> r.value < |scores| && scores[r.value].model == m && scores[r.value].benchmark == b
    ensures r.Some? ==> forall k | r.value < k < |scores| :: !(scores[k].model == m && scores[k].benchmark == b)
  {
    if scores == [] then None
    else if scores[|scores| - 1].model == m && scores[|scores| - 1].benchmark == b then Some(|scores| - 1)
    else
      var init := scores[..|scores| - 1];
      assert forall k | 0 <= k < |init| :: init[k] == scores[k];
      LatestScore(init, m, b)
  }

  /** What every state of `data` satisfies: each key once in the order, every row is the
      header `MakeRow` builds for its model, and every cell is filed under its benchmark. */
  ghost predicate Consistent(t: Table, cat: Catalog) {
    Bookkept(t) && HeadersBuilt(t, cat)
  }

  /** Each key once in the order, the keys of the mapping are those of the order, and every
      cell is filed under its benchmark. */
  ghost predicate Bookkept(t: Table) {
    && (forall i, j | 0 <= i < j < |t.order| :: t.order[i] != t.order[j])
    && (forall m :: m in t.rows <==> m in t.order)
    && (forall m, b | m in t.rows && b in t.rows[m].scores :: t.rows[m].scores[b].benchmark == b)
  }

  /** Every row carries the header `MakeRow` builds for its model. */
  ghost predicate HeadersBuilt(t: Table, cat: Catalog) {
    forall m | m in t.rows :: HasHeader(m, t.rows[m], cat)
  }

  /** `row` is the row `MakeRow` builds for `m`, with cells added. */
  ghost predicate HasHeader(m: string, row: DraftRow, cat: Catalog) {
    MakeRow(m, cat) == Ok(row.(scores := map[]))
  }

  /** What one step does to `data`: nothing for a skipped score; otherwise the model gets
      a row (a new one at the end of the order) whose cell for the score's benchmark is the
      score's cell, and every other row is left alone. */
  ghost predicate StepFacts(t: Table, t': Table, s: Score, meta: map<string, AlphaBounds>, cat: Catalog) {
    && (s.benchmark !in meta ==> t' == t)
    && (s.benchmark in meta ==>
        var cells := if s.model in t.rows then t.rows[s.model].scores else map[];
        && ShowScore(s, meta[s.benchmark], cat.fmt).Ok?
        && t'.order == (if s.model in t.rows then t.order else t.order + [s.model])
        && t'.rows.Keys == t.rows.Keys + {s.model}
        && (forall m | m in t.rows && m != s.model :: t'.rows[m] == t.rows[m])
        && t'.rows[s.model].scores == cells[s.benchmark := ShowScore(s, meta[s.benchmark], cat.fmt).value])
  }

  lemma {:induction false} StepEffect(t: Table, s: Score, meta: map<string, AlphaBounds>, cat: Catalog)
    requires Step(t, s, meta, cat).Ok?
    ensures StepFacts(t, Step(t, s, meta, cat).value, s, meta, cat)
  {
  }

  lemma {:induction false} StepConsistent(t: Table, s: Score, meta: map<string, AlphaBounds>, cat: Catalog)
    requires Consistent(t, cat)
    requires Step(t, s, meta, cat).Ok?
    ensures Consistent(Step(t, s, meta, cat).value, cat)
  {
    if s.benchmark in meta {
      var t' := Step(t, s, meta, cat).value;
      StepEffect(t, s, meta, cat);
      StepHeader(t, s, meta, cat);
      StepHeaders(t, t', s, meta, cat);
      StepKeepsBookkept(t, t', s, meta, cat);
    }
  }

  /** The row a step writes keeps the header `MakeRow` builds for its model. */
  lemma {:induction false} StepHeader(t: Table, s: Score, meta: map<string, AlphaBounds>, cat: Catalog)
    requires Consistent(t, cat)
    requires Step(t, s, meta, cat).Ok? && s.benchmark in meta
    ensures HasHeader(s.model, Step(t, s, meta, cat).value.rows[s.model], cat)
  {
  }

  /** A step keeps every header: the rows it does not touch are the same rows, and the row
      it writes has its model's header. */
  lemma {:induction false} StepHeaders(t: Table, t': Table, s: Score, meta: map<string, AlphaBounds>, cat: Catalog)
    requires HeadersBuilt(t, cat)
    requires s.benchmark in meta
    requires t'.rows.Keys == t.rows.Keys + {s.model}
    requires forall m | m in t.rows && m != s.model :: t'.rows[m] == t.rows[m]
    requires HasHeader(s.model, t'.rows[s.model], cat)
    ensures HeadersBuilt(t', cat)
  {
    forall m | m in t'.rows ensures HasHeader(m, t'.rows[m], cat) {
      if m != s.model {
        assert m in t.rows;
      }
    }
  }

  /** A step keeps the bookkeeping of `data`. */
  lemma {:induction false} StepKeepsBookkept(t: Table, t': Table, s: Score, meta: map<string, AlphaBounds>, cat: Catalog)
    requires Bookkept(t)
    requires s.benchmark in meta
    requires StepFacts(t, t', s, meta, cat)
    ensures Bookkept(t')
  {
    var cell := ShowScore(s, meta[s.benchmark], cat.fmt).value;
    assert cell.benchmark == s.benchmark;
    forall i, j | 0 <= i < j < |t'.order| ensures t'.order[i] != t'.order[j] {
      if j == |t.order| {
        assert t'.order[i] == t.order[i];
      }
    }
    forall m, b | m in t'.rows && b in t'.rows[m].scores ensures t'.rows[m].scores[b].benchmark == b {
      if m != s.model {
        assert m in t.rows;
      }
    }
  }

  lemma {:induction false} ArrangeConsistent(scores: seq<Score>, meta: map<string, AlphaBounds>, cat: Catalog)
    requires Arrange(scores, meta, cat).Ok?
    ensures Consistent(Arrange(scores, meta, cat).value, cat)
  {
    if scores != [] {
      var init := scores[..|scores| - 1];
      ArrangeConsistent(init, meta, cat);
      StepConsistent(Arrange(init, meta, cat).value, scores[|scores| - 1], meta, cat);
    }
  }

  /** The rows come out in the order their models first appear among the scores that are
      not skipped. */
  lemma {:induction false} ArrangeOrder(scores: seq<Score>, meta: map<string, AlphaBounds>, cat: Catalog)
    requires Arrange(scores, meta, cat).Ok?
    ensures Arrange(scores, meta, cat).value.order == FirstAppearance(RelevantModels(scores, meta.Keys))
  {
    if scores != [] {
      var init := scores[..|scores| - 1];
      var s := scores[|scores| - 1];
      ArrangeOrder(init, meta, cat);
      ArrangeConsistent(init, meta, cat);
      var t := Arrange(init, meta, cat).value;
      StepEffect(t, s, meta, cat);
      var ms := RelevantModels(scores, meta.Keys);
      if s.benchmark in meta {
        assert ms == RelevantModels(init, meta.Keys) + [s.model];
        assert ms[..|ms| - 1] == RelevantModels(init, meta.Keys);
        assert s.model in t.rows <==> s.model in FirstAppearance(RelevantModels(init, meta.Keys));
      } else {
        assert ms == RelevantModels(init, meta.Keys);
      }
    }
  }

  /** A row holds a cell for benchmark `b` exactly when `b` has aggregates and the model has
      a score for `b`; the cell is the one of the model's last score for `b`. */
  ghost predicate CellsAgree(t: Table, scores: seq<Score>, meta: map<string, AlphaBounds>, cat: Catalog) {
    && (forall m, b | m in t.rows :: b in t.rows[m].scores <==> b in meta && LatestScore(scores, m, b).Some?)
    && (forall m, b | m in t.rows && b in t.rows[m].scores ::
          LatestScore(scores, m, b).Some? && b in meta &&
          ShowScore(scores[LatestScore(scores, m, b).value], meta[b], cat.fmt) == Ok(t.rows[m].scores[b]))
  }

  lemma {:induction false} ArrangeCells(scores: seq<Score>, meta: map<string, AlphaBounds>, cat: Catalog)
    requires Arrange(scores, meta, cat).Ok?
    ensures CellsAgree(Arrange(scores, meta, cat).value, scores, meta, cat)
  {
    if scores != [] {
      var init := scores[..|scores| - 1];
      ArrangeCells(init, meta, cat);
      ArrangeRows(init, meta, cat);
      var t := Arrange(init, meta, cat).value;
      StepEffect(t, scores[|scores| - 1], meta, cat);
      CellsAgreeStep(t, Arrange(scores, meta, cat).value, scores, meta, cat);
    }
  }

  /** The cells after one more step agree with the longer score list. */
  lemma {:induction false} CellsAgreeStep(t: Table, t': Table, scores: seq<Score>, meta: map<string, AlphaBounds>, cat: Catalog)
    requires scores != []
    requires CellsAgree(t, scores[..|scores| - 1], meta, cat)
    requires forall m | m !in t.rows :: m !in RelevantModels(scores[..|scores| - 1], meta.Keys)
    requires StepFacts(t, t', scores[|scores| - 1], meta, cat)
    ensures CellsAgree(t', scores, meta, cat)
  {
    forall m, b | m in t'.rows
      ensures b in t'.rows[m].scores <==> b in meta && LatestScore(scores, m, b).Some?
      ensures b in t'.rows[m].scores ==>
        LatestScore(scores, m, b).Some? && b in meta &&
        ShowScore(scores[LatestScore(scores, m, b).value], meta[b], cat.fmt) == Ok(t'.rows[m].scores[b])
    {
      CellAgreesStep(t, t', scores, meta, cat, m, b);
    }
  }

  lemma {:induction false} CellAgreesStep(t: Table, t': Table, scores: seq<Score>, meta: map<string, AlphaBounds>, cat: Catalog, m: string, b: string)
    requires scores != []
    requires CellsAgree(t, scores[..|scores| - 1], meta, cat)
    requires forall m | m !in t.rows :: m !in RelevantModels(scores[..|scores| - 1], meta.Keys)
    requires StepFacts(t, t', scores[|scores| - 1], meta, cat)
    requires m in t'.rows
    ensures b in t'.rows[m].scores <==> b in meta && LatestScore(scores, m, b).Some?
    ensures b in t'.rows[m].scores ==>
      LatestScore(scores, m, b).Some? && b in meta &&
      ShowScore(scores[LatestScore(scores, m, b).value], meta[b], cat.fmt) == Ok(t'.rows[m].scores[b])
  {
    var s := scores[|scores| - 1];
    if m != s.model || b != s.benchmark {
      CellAgreesUntouched(t, t', scores, meta, cat, m, b);
    }
  }

  /** A cell the last score does not write is the one of the table before it. */
  lemma {:induction false} CellAgreesUntouched(t: Table, t': Table, scores: seq<Score>, meta: map<string, AlphaBounds>, cat: Catalog, m: string, b: string)
    requires scores != []
    requires CellsAgree(t, scores[..|scores| - 1], meta, cat)
    requires forall m | m !in t.rows :: m !in RelevantModels(scores[..|scores| - 1], meta.Keys)
    requires StepFacts(t, t', scores[|scores| - 1], meta, cat)
    requires m in t'.rows
    requires m != scores[|scores| - 1].model || b != scores[|scores| - 1].benchmark
    ensures b in t'.rows[m].scores <==> b in meta && LatestScore(scores, m, b).Some?
    ensures b in t'.rows[m].scores ==>
      LatestScore(scores, m, b).Some? && b in meta &&
      ShowScore(scores[LatestScore(scores, m, b).value], meta[b], cat.fmt) == Ok(t'.rows[m].scores[b])
  {
    var init := scores[..|scores| - 1];
    assert LatestScore(scores, m, b) == LatestScore(init, m, b);
    if LatestScore(init, m, b).Some? {
      assert scores[LatestScore(init, m, b).value] == init[LatestScore(init, m, b).value];
    }
  }

  /** Every model among the scores that are not skipped has a row. */
  lemma {:induction false} ArrangeRows(scores: seq<Score>, meta: map<string, AlphaBounds>, cat: Catalog)
    requires Arrange(scores, meta, cat).Ok?
    ensures forall m | m !in Arrange(scores, meta, cat).value.rows :: m !in RelevantModels(scores, meta.Keys)
  {
    ArrangeOrder(scores, meta, cat);
    ArrangeConsistent(scores, meta, cat);
  }

  /** The loop does not fail on score `s`: it is skipped, or it yields a row header and a
      cell. */
  ghost predicate Showable(s: Score, meta: map<string, AlphaBounds>, cat: Catalog) {
    s.benchmark in meta ==> MakeRow(s.model, cat).Ok? && ShowScore(s, meta[s.benchmark], cat.fmt).Ok?
  }

  ghost predicate AllShowable(scores: seq<Score>, meta: map<string, AlphaBounds>, cat: Catalog) {
    forall s | s in scores :: Showable(s, meta, cat)
  }

  /** The loop succeeds exactly when every score it does not skip yields a header and a
      cell. */
  lemma {:induction false} ArrangeOk(scores: seq<Score>, meta: map<string, AlphaBounds>, cat: Catalog)
    ensures Arrange(scores, meta, cat).Ok? <==> AllShowable(scores, meta, cat)
  {
    if scores != [] {
      var init := scores[..|scores| - 1];
      var s := scores[|scores| - 1];
      ArrangeOk(init, meta, cat);
      AllShowableSnoc(scores, meta, cat);
      if Arrange(init, meta, cat).Ok? {
        ArrangeConsistent(init, meta, cat);
        StepOk(Arrange(init, meta, cat).value, s, meta, cat);
      }
    }
  }

  lemma {:induction false} StepOk(t: Table, s: Score, meta: map<string, AlphaBounds>, cat: Catalog)
    requires Consistent(t, cat)
    ensures Step(t, s, meta, cat).Ok? <==> Showable(s, meta, cat)
  {
  }

  lemma {:induction false} AllShowableSnoc(scores: seq<Score>, meta: map<string, AlphaBounds>, cat: Catalog)
    requires scores != []
    ensures AllShowable(scores, meta, cat) <==>
      && AllShowable(scores[..|scores| - 1], meta, cat)
      && Showable(scores[|scores| - 1], meta, cat)
  {
    assert scores == scores[..|scores| - 1] + [scores[|scores| - 1]];
  }
}

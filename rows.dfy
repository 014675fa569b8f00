/** What the view derives from one model and one score: the row header of a model seen
    for the first time (benchmarks/views/index.py:66-80) and the cell of one score
    (benchmarks/views/index.py:82-87). */
module Rows {
  import opened Common
  import opened Sorting
  import opened Text
  import opened Ordering
  import opened Trimming
  import opened Display
  import opened Records

  /** The tables the header is looked up in, the order `sorted` falls back on between two
      meta rows of one category, and the float formatting of `represent`. */
  datatype Catalog = Catalog(
    references: seq<ModelReference>,
    metas: seq<ModelMeta>,
    metaLess: (ModelMeta, ModelMeta) -> bool,
    fmt: FloatFormat)

  /** Position of the first reference of the model `base`: `reference[0]` of the filtered
      query. */
  function FirstReference(refs: seq<ModelReference>, base: string): (r: Option<nat>)
    ensures r.None? <==> forall k | 0 <= k < |refs| :: refs[k].model != base
    ensures r.Some? ==> r.value < |refs| && refs[r.value].model == base
    ensures r.Some? ==> forall k | 0 <= k < r.value :: refs[k].model != base
  {
    if refs == [] then None
    else if refs[0].model == base then Some(0)
    else match FirstReference(refs[1..], base)
      case None => None
      case Some(k) => Some(k + 1)
  }

  /** The meta rows of the model `base`, in table order: each such row as often as in the
      table, every other row dropped. */
  function MetasOf(metas: seq<ModelMeta>, base: string): (r: seq<ModelMeta>)
    ensures |r| <= |metas|
    ensures forall m :: m in r <==> m in metas && m.model == base
    ensures forall m :: multiset(r)[m] == if m.model == base then multiset(metas)[m] else 0
  {
    if metas == [] then []
    else
      var rest := MetasOf(metas[1..], base);
      assert metas == [metas[0]] + metas[1..];
      if metas[0].model == base then [metas[0]] + rest else rest
  }

  /** Filtering a concatenation filters each part; with `MetasOfSingle` this says the filter
      keeps the table order. */
  lemma {:induction false} MetasOfConcat(a: seq<ModelMeta>, b: seq<ModelMeta>, base: string)
    ensures MetasOf(a + b, base) == MetasOf(a, base) + MetasOf(b, base)
  {
    if a == [] {
      assert a + b == b;
    } else {
      var ab := a + b;
      assert ab[0] == a[0] && ab[1..] == a[1..] + b;
      MetasOfConcat(a[1..], b, base);
    }
  }

  /** A single row is kept exactly when it belongs to `base`. */
  lemma {:induction false} MetasOfSingle(m: ModelMeta, base: string)
    ensures MetasOf([m], base) == if m.model == base then [m] else []
  {
    assert [m][1..] == [];
  }

  /** The category a meta row is ordered by, as the identifier function given to `_order`. */
  function MetaIdent(m: ModelMeta): Result<Category> {
    MetaCategory(m.key)
  }

  /** One "key: value" line per metadata row, in row order. */
  function MetaLines(ms: seq<ModelMeta>): (r: seq<string>)
    ensures |r| == |ms|
    ensures forall k | 0 <= k < |ms| :: r[k] == ms[k].key + ": " + ms[k].value
  {
    seq(|ms|, k requires 0 <= k < |ms| => ms[k].key + ": " + ms[k].value)
  }

  /** Every meta row of `ms` has a category. */
  ghost predicate AllCategorised(ms: seq<ModelMeta>) {
    forall k | 0 <= k < |ms| :: MetaCategory(ms[k].key).Ok?
  }

  /** The new `ModelRow` of a model not yet in `data`: its name, the short reference and
      link of the first reference of its base identifier, the meta rows of its base
      identifier in category order joined by newlines, no rank and no cells yet. */
  function MakeRow(model: string, cat: Catalog): (r: Result<DraftRow>)
    ensures r.Ok? <==> AllCategorised(MetasOf(cat.metas, BaseIdentifier(model)))
    ensures r.Err? ==> r.error == NoMatchingPrefix
    ensures r.Ok? ==> r.value.name == model && r.value.rank.None? && r.value.scores == map[]
    ensures r.Ok? ==>
      var ref := FirstReference(cat.references, BaseIdentifier(model));
      && (r.value.referenceIdentifier.None? <==> ref.None?)
      && (r.value.referenceLink.None? <==> ref.None?)
      && (ref.Some? ==> r.value.referenceIdentifier == Some(cat.references[ref.value].shortReference)
                        && r.value.referenceLink == Some(cat.references[ref.value].link))
    ensures r.Ok? && MetasOf(cat.metas, BaseIdentifier(model)) == [] ==> r.value.meta == ""
  {
    var base := BaseIdentifier(model);
    var ref := FirstReference(cat.references, base);
    var own := MetasOf(cat.metas, base);
    match Order(own, MetaIdent, cat.metaLess)
    case Err(e) =>
      var k :| 0 <= k < |own| && SortKey(MetaIdent, own[k]) == Err(e);
      assert MetaCategory(own[k].key).Err?;
      Err(e)
    case Ok(ordered) =>
      assert |ordered| == |multiset(ordered)| == |multiset(own)| == |own|;
      Ok(ModelRow(
        model,
        if ref.Some? then Some(cat.references[ref.value].shortReference) else None,
        if ref.Some? then Some(cat.references[ref.value].link) else None,
        Join("\n", MetaLines(ordered)),
        None,
        map[]))
  }

  /** The meta text splits back into one "key: value" line per meta row of the model, in
      category order (and by the meta order within a category), provided no key or value
      holds a newline. */
  lemma {:induction false} MakeRowMetaLines(model: string, cat: Catalog)
    requires MakeRow(model, cat).Ok?
    requires StrictTotalOn(cat.metaLess, MetasOf(cat.metas, BaseIdentifier(model)))
    requires MetasOf(cat.metas, BaseIdentifier(model)) != []
    requires forall m | m in cat.metas :: '\n' !in m.key && '\n' !in m.value
    ensures exists ordered: seq<ModelMeta> ::
      && multiset(ordered) == multiset(MetasOf(cat.metas, BaseIdentifier(model)))
      && InCategoryOrder(MetaIdent, cat.metaLess, ordered)
      && SplitLines(MakeRow(model, cat).value.meta) == MetaLines(ordered)
  {
    var own := MetasOf(cat.metas, BaseIdentifier(model));
    var ordered := Order(own, MetaIdent, cat.metaLess).value;
    OrderSorted(own, MetaIdent, cat.metaLess);
    assert |ordered| == |multiset(ordered)| == |multiset(own)| == |own|;
    forall m | m in ordered ensures '\n' !in m.key && '\n' !in m.value {
      assert m in multiset(own);
    }
    MetaLinesSingle(ordered);
    SplitJoin(MetaLines(ordered));
  }

  /** Meta rows without newlines give lines without newlines. */
  lemma {:induction false} MetaLinesSingle(ms: seq<ModelMeta>)
    requires forall m | m in ms :: '\n' !in m.key && '\n' !in m.value
    ensures forall k | 0 <= k < |ms| :: '\n' !in MetaLines(ms)[k]
  {
    forall k | 0 <= k < |ms| ensures '\n' !in MetaLines(ms)[k] {
      var m := ms[k];
      assert m in ms;
      assert MetaLines(ms)[k] == m.key + ": " + m.value;
    }
  }

  /** The cell of one score: the text of its ceiled and raw value, its colour from the
      benchmark's bounds and its layer. Colouring may fail. */
  function ShowScore(s: Score, b: AlphaBounds, fmt: FloatFormat): (r: Result<ScoreDisplay>)
    ensures r.Ok? <==> RepresentativeColor(s.scoreCeiled, Some(b.min), Some(b.max)).Ok?
    ensures r.Err? ==> ColorError(r.error)
    ensures r.Ok? ==>
      && r.value.benchmark == s.benchmark && r.value.layer == s.layer
      && r.value.scoreCeiled == Represent(s.scoreCeiled, fmt)
      && r.value.scoreRaw == Represent(s.scoreRaw, fmt)
      && r.value.color == RepresentativeColor(s.scoreCeiled, Some(b.min), Some(b.max)).value
    ensures s.scoreCeiled.None? ==> r.Ok? && r.value.scoreCeiled == "X" && r.value.color == Fixed(NeutralCss)
  {
    match RepresentativeColor(s.scoreCeiled, Some(b.min), Some(b.max))
    case Err(e) => Err(e)
    case Ok(color) =>
      Ok(ScoreDisplay(s.benchmark, Represent(s.scoreRaw, fmt), Represent(s.scoreCeiled, fmt), color, s.layer))
  }

  /** A ceiled score in [0, 1] within bounds that differ gets a cell. */
  lemma {:induction false} ShowScoreOk(s: Score, b: AlphaBounds, fmt: FloatFormat)
    requires s.scoreCeiled.Some? && 0.0 <= s.scoreCeiled.value <= 1.0
    requires b.min <= s.scoreCeiled.value <= b.max && b.min < b.max
    ensures ShowScore(s, b, fmt).Ok?
    ensures ShowScore(s, b, fmt).value.color.Graded?
  {
    RepresentativeColorInRange(s.scoreCeiled.value, b.min, b.max);
  }

  /** When every score of a benchmark is the same, any ceiled score in [0, 1] of that
      benchmark makes the request fail. */
  lemma {:induction false} ShowScoreUniformFails(s: Score, b: AlphaBounds, fmt: FloatFormat)
    requires s.scoreCeiled.Some? && 0.0 <= s.scoreCeiled.value <= 1.0
    requires b.min == b.max
    ensures ShowScore(s, b, fmt) == Err(DivisionByZero)
  {
    var v := s.scoreCeiled.value;
    assert PaletteSlot(Truncate(100.0 * v)).Ok?;
  }
}

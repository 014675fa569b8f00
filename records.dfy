/** The records the view reads from the database and the rows it builds for the template
    (benchmarks/views/index.py:9, 55-58). */
module Records {
  import opened Common
  import opened Display

  /** A `Score` row: the model, the benchmark's name, the raw and the ceiled value (either
      may be missing) and the label of the layer that produced it. */
  datatype Score = Score(
    model: string, benchmark: string, scoreRaw: Option<real>, scoreCeiled: Option<real>, layer: Option<string>)

  /** A `ModelReference` row. */
  datatype ModelReference = ModelReference(model: string, shortReference: string, link: string)

  /** A `ModelMeta` row: one key/value annotation of a model. */
  datatype ModelMeta = ModelMeta(model: string, key: string, value: string)

  /** The `min` and `max` of an entry of `benchmarks_meta`. */
  datatype AlphaBounds = AlphaBounds(min: real, max: real)

  /** `ScoreDisplay`: one cell of the table. */
  datatype ScoreDisplay = ScoreDisplay(
    benchmark: string, scoreRaw: string, scoreCeiled: string, color: CellColor, layer: Option<string>)

  /** `ModelRow`. While scores are gathered `S` is the dict from benchmark name to cell;
      after alignment it is the list of cells in benchmark order. */
  datatype ModelRow<S> = ModelRow(
    name: string, referenceIdentifier: Option<string>, referenceLink: Option<string>,
    meta: string, rank: Option<nat>, scores: S)

  type DraftRow = ModelRow<map<string, ScoreDisplay>>
  type AlignedRow = ModelRow<seq<ScoreDisplay>>
}

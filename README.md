# Leaderboard view model

A Dafny model of the leaderboard page of the brain-score web site: the Django view
`benchmarks/views/index.py`. On each request the view:

- collects the benchmarks that have scores and puts them in the order of the fixed
  taxonomy `benchmark_order`;
- for each benchmark, computes the smallest and largest ceiled score, a missing one counting
  as 0;
- arranges every score into one row per model. A row carries the model's reference, its
  meta annotations in category order, and one coloured cell per benchmark. A placeholder
  fills each benchmark the model was not run on;
- ranks the rows by the text of their 'average' cell;
- strips the lab prefix from every benchmark name and turns every ceiling into text before
  rendering.

The database tables (`Score`, `Benchmark`, `ModelReference`, `ModelMeta`) are parameters of
the model, as sequences of records. Each exception the view lets escape is an `Err` of the
`Common.Error` datatype. The one exception to that is `TypeError` from comparing two model
instances in `sorted`: `_order` takes the order on items as a parameter instead.

Modules, in dependency order:

- `Common`: Option, Result, the errors, and `list.index`.
- `Sorting`: `sorted` over a strict total order.
- `Text`: `str` order, `startswith`, `lstrip('0')`, and `'\n'.join` / `split`.
- `Ordering`: `benchmark_order` and `_order`.
- `Trimming`: the base identifier before `--`, and the lab pattern.
- `Display`: `normalize`, `represent` and `representative_color`.
- `Records`: the rows read and built.
- `Bounds`: the loop filling `benchmarks_meta`.
- `Rows`: a row header and a cell.
- `Arrange`: the loop over all scores filling `data`.
- `Alignment`: cells in benchmark order.
- `Ranking`: the "infer rank" step.
- `Leaderboard`: the `Benchmark` record, `_collect_benchmarks`, `_collect_models` and `view`.

The code's loops are methods proved against functions of their inputs. These are
`Bounds.CollectAlphaBounds`, `Arrange.ArrangeScores` with `Arrange.Visit`,
`Leaderboard.ShortenForDisplay` and `Leaderboard.View`. The view changes the `Benchmark`
records in place, so `Benchmark` is a class with mutable `name` and `ceiling` fields.

Three points of the code are easy to misread; the model follows the code in each:

- Ranks are competition ranks. Equal average texts share a rank, and the next rank skips
  over them (the rank is one plus the first position in the sorted list). They are not
  distinct consecutive ranks.
- Ranks compare the average *texts* as Python strings, not numbers. A missing value is
  shown as "X" and so ranks above every number (see Findings).
- The lab pattern's `.` stops at a newline.

## Model

| member | source | states |
|---|---|---|
| Common.IndexOf | benchmarks/views/index.py:119 | `list.index`: `None` exactly when the item is absent; otherwise the position of its first occurrence |
| Common.IndexOfUnique | benchmarks/views/index.py:119 | an item whose only earlier positions hold other items is found at its own position |
| Sorting.Sort | benchmarks/views/index.py:118 | `sorted` returns a permutation of its input (same multiset, same length) |
| Sorting.SortSorted | benchmarks/views/index.py:118 | under a strict total order the result of `sorted` is sorted |
| Sorting.SortedPermutationsAgree | benchmarks/views/index.py:118 | two sorted permutations of one sequence are equal, so the result does not depend on the sorting algorithm |
| Sorting.SubmultisetDistinct | benchmarks/views/index.py:37 | taking some of the items of a list without repetitions, in any order, gives a list without repetitions |
| Text.StrLessIsLexicographic | benchmarks/views/index.py:111 | the recursive `str` comparison holds exactly when `b` properly extends `a` or they first differ where `a` has the smaller code point |
| Text.StrLessStrictTotal | benchmarks/views/index.py:111 | `<` on strings is irreflexive, transitive and total on any list of strings |
| Text.LStripZeros | benchmarks/views/index.py:135 | `lstrip('0')` returns a suffix; everything removed is '0'; the result does not start with '0' |
| Text.SplitJoin | benchmarks/views/index.py:74 | joining lines without newlines by "\n" and splitting at "\n" gives the lines back |
| Ordering.CategoryIndex | benchmarks/views/index.py:119 | `benchmark_order.index(c)` succeeds exactly for the eight categories and returns the position holding `c` |
| Ordering.SortKeys | benchmarks/views/index.py:119 | the key list succeeds exactly when every value has a key; then key `i` is the key of value `i` |
| Ordering.SortKeysError | benchmarks/views/index.py:119 | a failing key list reports the failure of one of the values |
| Ordering.Order | benchmarks/views/index.py:117-120 | `_order` succeeds exactly when every value's category is in `benchmark_order`; it returns a permutation of the values; a failure is that of some value |
| Ordering.SecondsPermutation | benchmarks/views/index.py:118 | dropping the sort keys of two permuted pair lists leaves permuted value lists |
| Ordering.OrderSorted | benchmarks/views/index.py:117-120 | `_order`'s result is in ascending category position, and in item order within a category |
| Ordering.FirstPrefix | benchmarks/views/index.py:72-73 | the position of the first category that is a string prefixing the key, or `None` when none does |
| Ordering.MetaCategory | benchmarks/views/index.py:72-73 | a meta key's category is the first string entry of `benchmark_order` it starts with; with none, `[0]` fails (`NoMatchingPrefix`) |
| Ordering.MetaSortKey | benchmarks/views/index.py:72-73 | a meta row's sort key exists exactly when some entry prefixes the key, and it is the position of the first such entry |
| Ordering.MetaNeverITTemporal | benchmarks/views/index.py:72-73 | no meta row is ever put in the "IT-temporal" category, since "IT" comes first and prefixes it |
| Trimming.FirstDashes | benchmarks/views/index.py:67 | `re.search('(--)')`: the first position holding "--", or `None` when there is none |
| Trimming.BaseIdentifier | benchmarks/views/index.py:67-68 | the base identifier is the longest prefix with no "--" in it; it ends at the first "--" or at the end of the name |
| Trimming.BaseIdentifierHasNoDashes | benchmarks/views/index.py:67-68 | the base identifier contains no "--" |
| Trimming.BaseIdentifierUnique | benchmarks/views/index.py:67-68 | any prefix that ends at the first "--" or at the end is the base identifier |
| Trimming.BaseIdentifierIdempotent | benchmarks/views/index.py:67-68 | taking the base identifier twice changes nothing |
| Trimming.Line | benchmarks/views/index.py:25 | the longest prefix without a newline (what `.+` can match) |
| Trimming.StripLab | benchmarks/views/index.py:25-27 | the shown name is the captured group wherever `[^\.]+\.(.+)` matches, and the name unchanged wherever it does not |
| Trimming.StripLabSingleLine | benchmarks/views/index.py:25-27 | on a single-line name: the text after the first dot when that dot is neither first nor last, else the name |
| Trimming.StripLabNoDot | benchmarks/views/index.py:25-27 | a name without a dot is left alone |
| Trimming.StripLabTwice | benchmarks/views/index.py:25-27 | "lab.group.task" loses only "lab."; applying the rewrite again would also drop "group." |
| Display.Normalize | benchmarks/views/index.py:123-129 | fails exactly when min == max; otherwise the line through (min, 0.1) and (max, 1.0) |
| Display.NormalizeEndpoints | benchmarks/views/index.py:123-129 | the minimum maps to 0.1 and the maximum to 1.0 |
| Display.NormalizeAffine | benchmarks/views/index.py:123-129 | equal steps in the value give equal steps in the opacity |
| Display.NormalizeRange | benchmarks/views/index.py:123-129 | values between the bounds get opacities in [0.1, 1.0], monotonically |
| Display.Truncate | benchmarks/views/index.py:141 | `int()` truncates toward zero |
| Display.PaletteSlot | benchmarks/views/index.py:142 | `colors[step]` on 101 entries: negative steps count from the end; outside [-101, 100] it fails |
| Display.RepresentativeColor | benchmarks/views/index.py:138-148 | no value gives "background-color: #e0e1e2"; a failure needs a value and is a colouring error |
| Display.RepresentativeColorInRange | benchmarks/views/index.py:138-148 | a value in [0, 1] between distinct bounds gets the entry of its truncated percentage and, as opacity, its normalised value, in [0.1, 1.0] |
| Display.RepresentativeColorEqualBounds | benchmarks/views/index.py:145-146 | a value in [0, 1] coloured between equal bounds divides by zero |
| Display.Represent | benchmarks/views/index.py:132-135 | "X" for no value; below 1 the 3-decimal text without leading zeros; otherwise the 1-decimal text |
| Display.RepresentFraction | benchmarks/views/index.py:135 | 0.452, formatted "0.452", is shown as ".452" |
| Bounds.CeiledValues | benchmarks/views/index.py:47-48 | the list holds the ceiled value, a missing one as 0, of every score of the benchmark and nothing else; empty when there is none |
| Bounds.Min | benchmarks/views/index.py:49 | `min` of a nonempty list is an element no larger than any other |
| Bounds.Max | benchmarks/views/index.py:49 | `max` of a nonempty list is an element no smaller than any other |
| Bounds.BoundsOf | benchmarks/views/index.py:47-51 | fails (`EmptyScores`) exactly when the benchmark has no score; else the least and greatest ceiled values |
| Bounds.CollectAlphaBounds | benchmarks/views/index.py:45-51 | the loop succeeds exactly when every benchmark has a score; the map's keys are the names, each holding that benchmark's least and greatest value |
| Bounds.ScoreWithinBounds | benchmarks/views/index.py:47-49 | every score, a missing one read as 0, lies between its benchmark's bounds |
| Bounds.MissingCountsAsZero | benchmarks/views/index.py:48-49 | a score without a ceiled value pulls its benchmark's minimum to 0 or below |
| Rows.FirstReference | benchmarks/views/index.py:69-70 | `reference[0]` if any: the first reference of the base identifier, `None` exactly when there is none |
| Rows.MetasOf | benchmarks/views/index.py:71 | the meta rows of the base identifier and no others, each as often as in the table |
| Rows.MetasOfConcat | benchmarks/views/index.py:71 | filtering a concatenation filters each part, so the filter keeps the table order |
| Rows.MetasOfSingle | benchmarks/views/index.py:71 | a single meta row is kept exactly when it belongs to the base identifier |
| Rows.MetaLines | benchmarks/views/index.py:74 | one "key: value" line per meta row, in order |
| Rows.MakeRow | benchmarks/views/index.py:66-80 | the header fails exactly when some meta row of the base identifier has no category; otherwise it holds the name, no rank, no cells, and the short reference and link of the first reference |
| Rows.MakeRowMetaLines | benchmarks/views/index.py:71-74 | the meta text splits back into the lines of a category-ordered permutation of the model's meta rows |
| Rows.ShowScore | benchmarks/views/index.py:82-87 | a cell fails exactly when colouring fails; it carries the benchmark, the layer, the ceiled and raw texts and the colour `representative_color` gives; "X" and the neutral colour for a missing value |
| Rows.ShowScoreOk | benchmarks/views/index.py:82-87 | a ceiled value in [0, 1] between distinct bounds gets a graded cell |
| Rows.ShowScoreUniformFails | benchmarks/views/index.py:82-84 | where min == max, any ceiled value in [0, 1] fails the request |
| Arrange.ArrangeScores | benchmarks/views/index.py:60-88 | the loop over the scores yields the fold of one step per score |
| Arrange.Visit | benchmarks/views/index.py:61-88 | one iteration: skip the score, or add the model's header on its first score, then write the cell |
| Arrange.ArrangeErrPersists | benchmarks/views/index.py:61-88 | once an iteration raises, the loop's outcome is that error |
| Arrange.ArrangeErrorKinds | benchmarks/views/index.py:60-88 | the loop can only fail for a meta key without a category or a colouring error |
| Arrange.RelevantModels | benchmarks/views/index.py:61-63 | the models of the scores that are not skipped |
| Arrange.FirstAppearance | benchmarks/views/index.py:66-75 | the models in order of first appearance, each once |
| Arrange.LatestScore | benchmarks/views/index.py:88 | the position of the model's last score for the benchmark, `None` exactly when there is none |
| Arrange.StepEffect | benchmarks/views/index.py:61-88 | a step leaves a skipped score's table alone; otherwise only the model's row changes, its cell for the benchmark is the score's cell, and a new model is appended |
| Arrange.StepConsistent | benchmarks/views/index.py:61-88 | a step keeps the table consistent: keys unique and matching the order, headers as built, cells filed under their benchmark |
| Arrange.StepHeader | benchmarks/views/index.py:66-80 | after a step the model's row carries the header built for it |
| Arrange.StepHeaders | benchmarks/views/index.py:66-88 | a step keeps every row's header |
| Arrange.StepKeepsBookkept | benchmarks/views/index.py:66-88 | a step keeps the keys unique, the keys matching the order, and cells filed under their benchmark |
| Arrange.ArrangeConsistent | benchmarks/views/index.py:60-88 | `data` after the loop is consistent |
| Arrange.ArrangeOrder | benchmarks/views/index.py:60-80 | `data`'s insertion order is the order of each relevant model's first score |
| Arrange.ArrangeCells | benchmarks/views/index.py:82-88 | a row holds a cell for a benchmark exactly when the benchmark has bounds and the model a score on it; the cell is that of the model's last such score |
| Arrange.CellsAgreeStep | benchmarks/views/index.py:82-88 | one step keeps the cells agreeing with the last scores |
| Arrange.CellAgreesStep | benchmarks/views/index.py:82-88 | after a step, one model's cell for one benchmark agrees with the last score |
| Arrange.CellAgreesUntouched | benchmarks/views/index.py:82-88 | a cell the step does not write still agrees with the model's last score on that benchmark |
| Arrange.ArrangeRows | benchmarks/views/index.py:61-75 | every relevant model has a row |
| Arrange.ArrangeOk | benchmarks/views/index.py:60-88 | the loop succeeds exactly when every score it does not skip yields a header and a cell |
| Arrange.StepOk | benchmarks/views/index.py:61-88 | one step succeeds exactly when its score is skipped or yields a header and a cell |
| Arrange.AllShowableSnoc | benchmarks/views/index.py:61 | every score is showable exactly when the earlier ones and the last one are |
| Alignment.Placeholder | benchmarks/views/index.py:94-97 | the "not yet run" cell: empty texts, the neutral colour |
| Alignment.AlignRow | benchmarks/views/index.py:102-104 | one cell per benchmark in benchmark order: the recorded cell or the placeholder; nothing else in the row changes |
| Alignment.AlignRowBenchmarks | benchmarks/views/index.py:102-104 | cell `k` of an aligned row belongs to benchmark `k` |
| Alignment.Align | benchmarks/views/index.py:102-105 | one aligned row per model, in `data`'s order |
| Alignment.AlignedAverage | benchmarks/views/index.py:102-109 | with an 'average' benchmark, a row's average text is its average cell's ceiled text, or "" from the placeholder |
| Alignment.AlignNames | benchmarks/views/index.py:102-105 | the aligned rows keep the models of `data`, in order, each once |
| Alignment.AlignedAveragesOk | benchmarks/views/index.py:102-110 | with an 'average' benchmark, every aligned row has an average |
| Ranking.FirstAverage | benchmarks/views/index.py:108-109 | the position of the first 'average' cell, `None` exactly when there is none |
| Ranking.AverageOf | benchmarks/views/index.py:108-109 | fails (`NoAverageScore`) exactly when no cell is 'average'; otherwise an 'average' cell's ceiled text |
| Ranking.Averages | benchmarks/views/index.py:108-110 | succeeds exactly when every row has an average; then entry `i` is row `i`'s |
| Ranking.AveragesSameCells | benchmarks/views/index.py:108-110 | rows with the same cells have the same averages |
| Ranking.RankedBy | benchmarks/views/index.py:111-113 | ranking succeeds exactly when every row has an average; only the ranks change, and every row gets one |
| Ranking.AssignRanks | benchmarks/views/index.py:107-113 | the source's ranking fails (`NoAverageScore`) exactly when some row has no average; otherwise only the ranks change, and every row gets one |
| Ranking.RankIsCompetition | benchmarks/views/index.py:111-112 | row `i`'s rank is 1 + the number of averages strictly greater than its own, between 1 and the number of rows |
| Ranking.RankBounds | benchmarks/views/index.py:111-112 | every rank is between 1 and the number of rows |
| Ranking.RankTies | benchmarks/views/index.py:111-112 | rows with equal averages share a rank |
| Ranking.RankOrder | benchmarks/views/index.py:111-112 | a strictly greater average gets a strictly smaller rank |
| Ranking.CountAbovePermutation | benchmarks/views/index.py:111-112 | counting greater entries does not depend on the order of the list |
| Ranking.DescendingIndexCountsGreater | benchmarks/views/index.py:111-112 | in the descending sort, a value's first position is the number of greater values |
| Ranking.IndexCountsAbove | benchmarks/views/index.py:112 | in a sorted list, the first position of a value is the number of entries above it |
| Ranking.MissingAverageRanksFirst | benchmarks/views/index.py:108-112 | as written: a model whose average text is "X" (no ceiled value) ranks 1st, ahead of ".900" |
| Ranking.SourceRanks | benchmarks/views/index.py:107-113 | the source's ranks are the competition ranks of the rows' own average texts, compared as strings |
| Ranking.AssignRanksMissingLast | benchmarks/views/index.py:107-113 | the corrected ranking fails exactly when some row has no average; only the ranks change |
| Ranking.MissingLastRanksLast | benchmarks/views/index.py:108-112 | corrected: a row whose average is missing ("" or "X") ranks below every row with a shown average |
| Ranking.MissingLastAgrees | benchmarks/views/index.py:107-113 | without an "X" average the corrected ranking is the source's ranking |
| Ranking.RanksKeepCells | benchmarks/views/index.py:113 | replacing ranks keeps the averages |
| Ranking.CorrectedRanks | benchmarks/views/index.py:111-113 | the corrected ranks are competition ranks of the rows' own averages |
| Ranking.RankedKeys | benchmarks/views/index.py:111-113 | every rank of a ranking is 1 + the number of strictly greater keys |
| Leaderboard.Names | benchmarks/views/index.py:46 | the names of the benchmarks, in order |
| Leaderboard.ScoredNames | benchmarks/views/index.py:36 | the distinct benchmark names of the scores |
| Leaderboard.WithScores | benchmarks/views/index.py:37 | the benchmarks whose name has a score, all of them and no others, each as often as in the table |
| Leaderboard.FilterStep | benchmarks/views/index.py:37 | keeping or dropping the first record keeps the filter's contract |
| Leaderboard.WithScoresConcat | benchmarks/views/index.py:37 | filtering a concatenation filters each part, so the filter keeps the table order |
| Leaderboard.WithScoresSingle | benchmarks/views/index.py:37 | a single record is kept exactly when its name has a score |
| Leaderboard.ParentKey | benchmarks/views/index.py:39 | a benchmark's sort key exists exactly when its parent is in `benchmark_order`; otherwise `UnknownCategory` |
| Leaderboard.OrderByParent | benchmarks/views/index.py:39 | ordering benchmarks by parent succeeds exactly when every parent is known; otherwise `UnknownCategory` |
| Leaderboard.WithScoresParents | benchmarks/views/index.py:37-39 | every kept benchmark has a known parent exactly when every benchmark with a score has one |
| Leaderboard.CollectBenchmarks | benchmarks/views/index.py:33-40 | fails (`UnknownCategory`) exactly when a benchmark with scores has an unknown parent; otherwise a permutation of exactly the benchmarks with scores |
| Leaderboard.OrderedShown | benchmarks/views/index.py:37-39 | the facts of `CollectBenchmarks`, for the filtered list |
| Leaderboard.CollectBenchmarksOrdered | benchmarks/views/index.py:33-40 | the collected benchmarks are in category order and distinct |
| Leaderboard.CollectedRecords | benchmarks/views/index.py:33-40 | the collected records are distinct table records whose ceilings are the stored (`Raw`) values, possibly none |
| Leaderboard.AlignedCellShowsLatest | benchmarks/views/index.py:82-105 | one cell of an aligned row shows the model's last score on that benchmark, or the placeholder |
| Leaderboard.AlignShowsLatest | benchmarks/views/index.py:82-105 | every cell of every aligned row shows the model's last score on that benchmark, or the placeholder |
| Leaderboard.ArrangedRows | benchmarks/views/index.py:60-110 | one aligned row per model in order of first relevant score, with the header `MakeRow` builds for it and the latest cells; with 'average' the averages exist |
| Leaderboard.AlignedHeaders | benchmarks/views/index.py:102-104 | aligning keeps each row's reference, link and meta text, the header `MakeRow` built for its model |
| Leaderboard.RerankedHeaders | benchmarks/views/index.py:113 | rows that differ only in their ranks carry the same headers |
| Leaderboard.InferRanks | benchmarks/views/index.py:107-113 | fails (`NoAverageScore`) exactly when a row has no average; changes nothing in a row but its rank; ranks are the competition ranks of the average texts compared as strings |
| Leaderboard.NoBoundsUnscored | benchmarks/views/index.py:46-49 | a benchmark without bounds has no score |
| Leaderboard.BoundsScored | benchmarks/views/index.py:45-51 | every benchmark has bounds exactly when every benchmark has a score |
| Leaderboard.ShowableAgrees | benchmarks/views/index.py:60-88 | with the bounds of exactly the shown benchmarks, the loop's success condition is that every score on one of them yields a header and a cell |
| Leaderboard.ArrangedWhenShowable | benchmarks/views/index.py:60-88 | the loop over the scores succeeds exactly when every score on a shown benchmark yields a header and a cell |
| Leaderboard.ModelOrderEmpty | benchmarks/views/index.py:60-75 | no model gets a row exactly when no score is on a shown benchmark |
| Leaderboard.NoAverageCell | benchmarks/views/index.py:102-109 | without a benchmark named 'average', an aligned row has no average |
| Leaderboard.AveragesProduced | benchmarks/views/index.py:102-110 | once the table is arranged, the rows have averages exactly when there is an 'average' benchmark or no row |
| Leaderboard.ArrangedAverages | benchmarks/views/index.py:45-110 | once the table is arranged, the rows have averages exactly when the page is produced |
| Leaderboard.UnscoredOutcome | benchmarks/views/index.py:45-51 | a benchmark without bounds makes `_collect_models` fail with `EmptyScores`, and then some benchmark has no score |
| Leaderboard.UnshowableOutcome | benchmarks/views/index.py:60-88 | a failing loop fails `_collect_models` with `NoMatchingPrefix` or a colouring error |
| Leaderboard.RankedOutcome | benchmarks/views/index.py:102-114 | after arranging, `_collect_models` fails only with `NoAverageScore` and without 'average', and succeeds exactly when the page is produced, with the rows of `ModelRows` |
| Leaderboard.CollectModels | benchmarks/views/index.py:43-114 | succeeds exactly when every benchmark has a score, every score on a benchmark yields a header and a cell, and there is an 'average' benchmark or no model to rank; then one row per model in first-score order, with the reference, link and meta text `MakeRow` builds for the model, latest cells, ranks by average text; otherwise `EmptyScores` (some benchmark has no score), `NoMatchingPrefix`, a colouring error, or `NoAverageScore` (no 'average' benchmark) |
| Leaderboard.ShortenForDisplay | benchmarks/views/index.py:24-28 | every collected record loses its lab prefix and gets its ceiling as text |
| Leaderboard.RewriteCollected | benchmarks/views/index.py:24-28 | the collected records are rewritten and every other record of the table is unchanged |
| Leaderboard.View | benchmarks/views/index.py:21-31 | the page is produced exactly when collecting the benchmarks succeeds and `_collect_models` succeeds on their names; otherwise `UnknownCategory` or an error of `_collect_models`; the page holds the collected benchmarks and the model rows; collected records are rewritten for display, others untouched; on failure no record is changed |

## Left out

- Rendering the template, the HTTP request and the ORM queries are left out. The tables are
  sequences given as parameters, in the order the queries return them.
- The `colors` table is left out: the red-to-green range, its power-law warping and the
  RGB/RGBA text. A graded colour is the palette position and the opacity.
- Python's `"{:.3f}"` / `"{:.1f}"` float formatting is abstract (`Display.FloatFormat`).
  Floats are reals, so rounding is not modelled.
- `tqdm` progress bars produce no result and are left out.
- The `error_score` placeholders are built but never used, so they are left out.
- The ceiling stored in `benchmarks_meta` is never read, so it is left out.
- Ordering.Order: the order between two items of one category is a parameter `less`. Python
  compares the items themselves, which raises `TypeError` for two distinct model instances;
  that error is not modelled.
- Ordering.OrderSorted: sortedness is proved only when `less` is a strict total order on the
  items.
- Leaderboard.View: it requires the `Benchmark` records to be distinct objects with stored
  (`Raw`) ceilings, possibly none, as a fresh query returns them. A record rewritten twice would be shortened
  twice.
- Leaderboard.CollectModels: it takes the benchmark names rather than the records, since
  `_collect_models` reads nothing else of them.
- Ranking.AssignRanks: its own contract states success and that only the ranks change. The
  rank values are stated by `Ranking.SourceRanks` and `Ranking.RankIsCompetition`.

## Findings

| source | as written | input that shows it | evidently intended | confidence | as-written member | corrected member |
|---|---|---|---|---|---|---|
| benchmarks/views/index.py:108-112 | ranks compare the average cells' texts as strings, and `represent(None)` is "X", which is greater than every formatted number | two models, one whose 'average' score has no ceiled value (text "X") and one with ".900": the first ranks 1st | a model without an average value ranks last, like one without an average score (text "") | medium, not executed | Ranking.MissingAverageRanksFirst | Ranking.MissingLastRanksLast |

The model of `_collect_models` and `view` keeps the ranking as written
(`Ranking.AssignRanks`). The corrected ranking, `Ranking.AssignRanksMissingLast`, is a
separate member: `Ranking.CorrectedRanks` and `Ranking.MissingLastRanksLast` state what it
gives, and `Ranking.MissingLastAgrees` shows it differs from the written one only where an
average is "X".

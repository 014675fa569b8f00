/** The rank column (benchmarks/views/index.py:107-113): every row's 'average' text is
    looked up, the texts are sorted in descending string order, and a row's rank is one plus
    the position of its text in that list. Equal texts therefore share a rank, and the next
    rank skips over them (competition ranking, as in 1, 2, 2, 4). */
module Ranking {
  import opened Common
  import opened Sorting
  import opened Text
  import opened Records

  /** Position of the first cell of the 'average' benchmark. */
  function FirstAverage(cells: seq<ScoreDisplay>): (r: Option<nat>)
    ensures r.None? <==> forall k | 0 <= k < |cells| :: cells[k].benchmark != "average"
    ensures r.Some? ==> r.value < |cells| && cells[r.value].benchmark == "average"
    ensures r.Some? ==> forall k | 0 <= k < r.value :: cells[k].benchmark != "average"
  {
    if cells == [] then None
    else if cells[0].benchmark == "average" then Some(0)
    else match FirstAverage(cells[1..])
      case None => None
      case Some(k) => Some(k + 1)
  }

  /** A row's average: the shown ceiled score of its first cell on the benchmark named
      'average'; a row without such a cell has none. */
  function AverageOf(cells: seq<ScoreDisplay>): (r: Result<string>)
    ensures r.Err? <==> forall k | 0 <= k < |cells| :: cells[k].benchmark != "average"
    ensures r.Err? ==> r.error == NoAverageScore
    ensures r.Ok? ==> exists k :: 0 <= k < |cells| && cells[k].benchmark == "average" && cells[k].scoreCeiled == r.value
  {
    match FirstAverage(cells)
    case None => Err(NoAverageScore)
    case Some(k) => Ok(cells[k].scoreCeiled)
  }

  /** `average_scores.values()`: the average texts of the rows, in row order. */
  function Averages(rows: seq<AlignedRow>): (r: Result<seq<string>>)
    ensures r.Ok? <==> forall i | 0 <= i < |rows| :: AverageOf(rows[i].scores).Ok?
    ensures r.Err? ==> r.error == NoAverageScore
    ensures r.Ok? ==> |r.value| == |rows|
    ensures r.Ok? ==> forall i | 0 <= i < |rows| :: AverageOf(rows[i].scores) == Ok(r.value[i])
  {
    if rows == [] then Ok([])
    else match AverageOf(rows[0].scores)
      case Err(e) => Err(e)
      case Ok(a) =>
        match Averages(rows[1..])
        case Err(e) => Err(e)
        case Ok(rest) => Ok([a] + rest)
  }

  /** The averages depend on the cells alone. */
  lemma {:induction false} AveragesSameCells(a: seq<AlignedRow>, b: seq<AlignedRow>)
    requires |a| == |b|
    requires forall i | 0 <= i < |a| :: a[i].scores == b[i].scores
    ensures Averages(a) == Averages(b)
  {
    if a != [] {
      AveragesSameCells(a[1..], b[1..]);
    }
  }

  /** The rows come out of a dict keyed by model name, so no two share a name; this is what
      lets the name-keyed dicts of the source be read position by position. */
  ghost predicate DistinctNames(rows: seq<AlignedRow>) {
    forall i, j | 0 <= i < j < |rows| :: rows[i].name != rows[j].name
  }

  /** The text a row is ranked by, given its average text. */
  function Keyed(key: string -> string, avgs: seq<string>): (r: seq<string>)
    ensures |r| == |avgs|
    ensures forall i | 0 <= i < |r| :: r[i] == key(avgs[i])
  {
    seq(|avgs|, i requires 0 <= i < |avgs| => key(avgs[i]))
  }

  /** The source ranks by the average text exactly as shown. */
  function AsShown(text: string): string {
    text
  }

  /** One more than the position of the first occurrence of `v` in `sorted`. */
  function RankIn(sorted: seq<string>, v: string): nat
    requires v in sorted
  {
    IndexOf(sorted, v).value + 1
  }

  /** The rank step: every row gets `RankIn` of its key in the keys sorted in reverse; the
      rows are otherwise unchanged. */
  function RankedBy(rows: seq<AlignedRow>, key: string -> string): (r: Result<seq<AlignedRow>>)
    requires DistinctNames(rows)
    ensures r.Ok? <==> Averages(rows).Ok?
    ensures r.Err? ==> r.error == NoAverageScore
    ensures r.Ok? ==> |r.value| == |rows|
    ensures r.Ok? ==> forall i | 0 <= i < |rows| :: r.value[i].rank.Some? && r.value[i] == rows[i].(rank := r.value[i].rank)
  {
    match Averages(rows)
    case Err(e) => Err(e)
    case Ok(avgs) =>
      var keys := Keyed(key, avgs);
      var sorted := Sort(Descending, keys);
      SortKeeps(keys);
      Ok(WithRanks(rows, seq(|keys|, i requires 0 <= i < |keys| => RankIn(sorted, keys[i]))))
  }

  lemma {:induction false} SortKeeps(keys: seq<string>)
    ensures forall i | 0 <= i < |keys| :: keys[i] in Sort(Descending, keys)
  {
    var sorted := Sort(Descending, keys);
    forall i | 0 <= i < |keys| ensures keys[i] in sorted {
      assert keys[i] in multiset(sorted);
    }
  }

  /** Every row with its rank set, and nothing else changed. */
  function WithRanks(rows: seq<AlignedRow>, ranks: seq<nat>): (r: seq<AlignedRow>)
    requires |ranks| == |rows|
    ensures |r| == |rows|
    ensures forall i | 0 <= i < |rows| :: r[i] == rows[i].(rank := Some(ranks[i]))
  {
    seq(|rows|, i requires 0 <= i < |rows| => rows[i].(rank := Some(ranks[i])))
  }

  /** The ranking as the source writes it. */
  function AssignRanks(rows: seq<AlignedRow>): (r: Result<seq<AlignedRow>>)
    requires DistinctNames(rows)
    ensures r.Ok? <==> Averages(rows).Ok?
    ensures r.Err? ==> r.error == NoAverageScore
    ensures r.Ok? ==> |r.value| == |rows|
    ensures r.Ok? ==> forall i | 0 <= i < |rows| :: r.value[i].rank.Some? && r.value[i] == rows[i].(rank := r.value[i].rank)
  {
    RankedBy(rows, AsShown)
  }

  /** Entries of `s` above `v` in the order `lt`. */
  function CountAbove<T>(lt: (T, T) -> bool, v: T, s: seq<T>): (r: nat)
    ensures r <= |s|
  {
    if s == [] then 0
    else (if lt(v, s[0]) then 1 else 0) + CountAbove(lt, v, s[1..])
  }

  /** Entries of `s` strictly greater than `v` in string order. */
  function CountGreater(v: string, s: seq<string>): nat {
    CountAbove(StrLess, v, s)
  }

  lemma {:induction false} CountAboveConcat<T>(lt: (T, T) -> bool, v: T, s: seq<T>, t: seq<T>)
    ensures CountAbove(lt, v, s + t) == CountAbove(lt, v, s) + CountAbove(lt, v, t)
  {
    if s != [] {
      assert (s + t)[0] == s[0];
      assert (s + t)[1..] == s[1..] + t;
      CountAboveConcat(lt, v, s[1..], t);
    } else {
      assert s + t == t;
    }
  }

  /** The count depends only on the multiset of entries. */
  lemma {:induction false} CountAbovePermutation<T>(lt: (T, T) -> bool, v: T, a: seq<T>, b: seq<T>)
    requires multiset(a) == multiset(b)
    ensures CountAbove(lt, v, a) == CountAbove(lt, v, b)
  {
    if a == [] {
      assert |b| == |multiset(b)| == 0;
    } else {
      var x := a[0];
      assert x in multiset(b);
      var k :| 0 <= k < |b| && b[k] == x;
      var front, back := b[..k], b[k + 1..];
      MultisetRemove(a, b, k);
      CountAbovePermutation(lt, v, a[1..], front + back);
      assert b == front + ([x] + back);
      assert ([x] + back)[1..] == back;
      CountAboveConcat(lt, v, front, [x] + back);
      CountAboveConcat(lt, v, front, back);
    }
  }

  lemma {:induction false} CountAboveAll<T>(lt: (T, T) -> bool, v: T, s: seq<T>)
    requires forall k | 0 <= k < |s| :: lt(v, s[k])
    ensures CountAbove(lt, v, s) == |s|
  {
    if s != [] {
      CountAboveAll(lt, v, s[1..]);
    }
  }

  lemma {:induction false} CountAboveNone<T>(lt: (T, T) -> bool, v: T, s: seq<T>)
    requires forall k | 0 <= k < |s| :: !lt(v, s[k])
    ensures CountAbove(lt, v, s) == 0
  {
    if s != [] {
      CountAboveNone(lt, v, s[1..]);
    }
  }

  /** In a list sorted in reverse, the first occurrence of `v` comes right after the entries
      greater than `v`: `index` counts them. */
  lemma {:induction false} DescendingIndexCountsGreater(keys: seq<string>, v: string)
    requires v in keys
    ensures v in Sort(Descending, keys)
    ensures IndexOf(Sort(Descending, keys), v).value == CountGreater(v, keys)
  {
    var sorted := Sort(Descending, keys);
    assert v in multiset(sorted);
    DescendingStrictTotal(keys);
    SortSorted(Descending, keys);
    StrLessStrictTotal(sorted);
    IndexCountsAbove(StrLess, sorted, v);
    CountAbovePermutation(StrLess, v, sorted, keys);
  }

  /** In a list in descending order of a strict total order, the first occurrence of `v`
      comes right after the entries above `v`. */
  lemma {:induction false} IndexCountsAbove<T>(lt: (T, T) -> bool, s: seq<T>, v: T)
    requires StrictTotalOn(lt, s)
    requires forall i, j | 0 <= i < j < |s| :: !lt(s[i], s[j])
    requires v in s
    ensures IndexOf(s, v).value == CountAbove(lt, v, s)
  {
    var i := IndexOf(s, v).value;
    var before, after := s[..i], s[i + 1..];
    assert s == before + [v] + after;
    forall k | 0 <= k < |before| ensures lt(v, before[k]) {
      assert before[k] == s[k] != v;
      assert !lt(s[k], s[i]);
    }
    CountAboveAll(lt, v, before);
    forall k | 0 <= k < |after| ensures !lt(v, after[k]) {
      assert after[k] == s[i + 1 + k];
    }
    CountAboveNone(lt, v, after);
    CountAboveConcat(lt, v, before, [v]);
    CountAboveConcat(lt, v, before + [v], after);
  }

  /** The rank of a row is one plus the number of rows whose key is strictly greater. */
  lemma {:induction false} RankIsCompetition(rows: seq<AlignedRow>, key: string -> string, avgs: seq<string>, ranked: seq<AlignedRow>, i: nat)
    requires DistinctNames(rows)
    requires Averages(rows) == Ok(avgs) && RankedBy(rows, key) == Ok(ranked) && i < |rows|
    ensures ranked[i].rank == Some(1 + CountGreater(Keyed(key, avgs)[i], Keyed(key, avgs)))
    ensures 1 <= ranked[i].rank.value <= |rows|
  {
    var keys := Keyed(key, avgs);
    var sorted := Sort(Descending, keys);
    SortKeeps(keys);
    var ranks := seq(|keys|, j requires 0 <= j < |keys| => RankIn(sorted, keys[j]));
    assert ranked == WithRanks(rows, ranks);
    assert keys[i] in keys;
    DescendingIndexCountsGreater(keys, keys[i]);
    CountGreaterBelowLength(keys[i], keys);
  }

  lemma {:induction false} CountGreaterBelowLength(v: string, s: seq<string>)
    requires v in s
    ensures CountGreater(v, s) < |s|
  {
    if s[0] == v {
      StrLessIrreflexive(v);
    } else {
      CountGreaterBelowLength(v, s[1..]);
    }
  }

  /** Every rank lies between 1 and the number of rows. */
  lemma {:induction false} RankBounds(rows: seq<AlignedRow>, key: string -> string, i: nat)
    requires DistinctNames(rows)
    requires RankedBy(rows, key).Ok? && i < |rows|
    ensures 1 <= RankedBy(rows, key).value[i].rank.value <= |rows|
  {
    RankIsCompetition(rows, key, Averages(rows).value, RankedBy(rows, key).value, i);
  }

  /** Rows with equal keys share a rank. */
  lemma {:induction false} RankTies(rows: seq<AlignedRow>, key: string -> string, i: nat, j: nat)
    requires DistinctNames(rows)
    requires RankedBy(rows, key).Ok? && i < |rows| && j < |rows|
    requires key(Averages(rows).value[i]) == key(Averages(rows).value[j])
    ensures RankedBy(rows, key).value[i].rank == RankedBy(rows, key).value[j].rank
  {
    RankIsCompetition(rows, key, Averages(rows).value, RankedBy(rows, key).value, i);
    RankIsCompetition(rows, key, Averages(rows).value, RankedBy(rows, key).value, j);
  }

  /** Raising the threshold removes at least the entries equal to the new threshold. */
  lemma {:induction false} CountGreaterMonotone(a: string, b: string, s: seq<string>)
    requires StrLess(a, b)
    ensures CountGreater(b, s) + (if b in s then 1 else 0) <= CountGreater(a, s)
  {
    if s != [] {
      CountGreaterMonotone(a, b, s[1..]);
      assert s == [s[0]] + s[1..];
      if s[0] == b {
        StrLessIrreflexive(b);
      } else if StrLess(b, s[0]) {
        StrLessTransitive(a, b, s[0]);
      }
    }
  }

  /** A row with a greater key gets a strictly better (smaller) rank. */
  lemma {:induction false} RankOrder(rows: seq<AlignedRow>, key: string -> string, i: nat, j: nat)
    requires DistinctNames(rows)
    requires RankedBy(rows, key).Ok? && i < |rows| && j < |rows|
    requires StrLess(key(Averages(rows).value[j]), key(Averages(rows).value[i]))
    ensures RankedBy(rows, key).value[i].rank.value < RankedBy(rows, key).value[j].rank.value
  {
    var keys := Keyed(key, Averages(rows).value);
    RankIsCompetition(rows, key, Averages(rows).value, RankedBy(rows, key).value, i);
    RankIsCompetition(rows, key, Averages(rows).value, RankedBy(rows, key).value, j);
    assert keys[i] in keys;
    CountGreaterMonotone(keys[j], keys[i], keys);
  }

  /** A row whose only cell is an 'average' cell showing `text`. */
  function AverageRow(name: string, text: string): (r: AlignedRow)
    ensures AverageOf(r.scores) == Ok(text)
  {
    ModelRow(name, None, None, "", None, [ScoreDisplay("average", text, text, Display.Fixed(Display.NeutralCss), None)])
  }

  /** The averages of two rows. */
  lemma {:induction false} PairAverages(a: AlignedRow, b: AlignedRow, x: string, y: string)
    requires AverageOf(a.scores) == Ok(x) && AverageOf(b.scores) == Ok(y)
    ensures Averages([a, b]) == Ok([x, y])
  {
    var rows := [a, b];
    assert forall i | 0 <= i < |rows| :: AverageOf(rows[i].scores).Ok?;
    var v := Averages(rows).value;
    assert AverageOf(rows[0].scores) == Ok(v[0]) && AverageOf(rows[1].scores) == Ok(v[1]);
    assert v == [x, y];
  }

  /** A model whose average ceiled score is `None` shows "X", and "X" sorts above every
      digit and '.', so the source ranks that model first: here against a model at 0.9. */
  lemma {:induction false} MissingAverageRanksFirst()
    ensures var rows := [AverageRow("m1", "X"), AverageRow("m2", ".900")];
      && AssignRanks(rows).Ok?
      && AssignRanks(rows).value[0].rank == Some(1)
      && AssignRanks(rows).value[1].rank == Some(2)
  {
    var rows := [AverageRow("m1", "X"), AverageRow("m2", ".900")];
    var avgs := ["X", ".900"];
    PairAverages(rows[0], rows[1], "X", ".900");
    var keys := Keyed(AsShown, avgs);
    assert keys == avgs;
    StrLessIrreflexive("X");
    StrLessIrreflexive(".900");
    assert StrLess(".900", "X") && !StrLess("X", ".900");
    assert CountGreater("X", keys) == 0;
    assert CountGreater(".900", keys) == 1;
    var ranked := AssignRanks(rows).value;
    RankIsCompetition(rows, AsShown, avgs, ranked, 0);
    RankIsCompetition(rows, AsShown, avgs, ranked, 1);
  }

  /** The key the ranking is meant to use: a missing value ("X") is ranked like a missing
      score (""), below every shown number. */
  function MissingLast(text: string): (r: string)
    ensures text != "X" ==> r == text
    ensures text == "X" ==> r == ""
  {
    if text == "X" then "" else text
  }

  /** The ranking with the corrected key. The view's model keeps the source's ranking,
      `AssignRanks`; this one shows what the corrected ranking would give. */
  function AssignRanksMissingLast(rows: seq<AlignedRow>): (r: Result<seq<AlignedRow>>)
    requires DistinctNames(rows)
    ensures r.Ok? <==> Averages(rows).Ok?
    ensures r.Err? ==> r.error == NoAverageScore
    ensures r.Ok? ==> |r.value| == |rows|
    ensures r.Ok? ==> forall i | 0 <= i < |rows| :: r.value[i].rank.Some? && r.value[i] == rows[i].(rank := r.value[i].rank)
  {
    RankedBy(rows, MissingLast)
  }

  /** With the corrected key, a row whose average is missing ("X") or not yet run ("") is
      ranked after every row that shows a number. */
  lemma {:induction false} MissingLastRanksLast(rows: seq<AlignedRow>, i: nat, j: nat)
    requires DistinctNames(rows)
    requires AssignRanksMissingLast(rows).Ok? && i < |rows| && j < |rows|
    requires Averages(rows).value[i] in {"", "X"}
    requires Averages(rows).value[j] !in {"", "X"}
    ensures AssignRanksMissingLast(rows).value[j].rank.value < AssignRanksMissingLast(rows).value[i].rank.value
  {
    RankOrder(rows, MissingLast, j, i);
  }

  /** Where no average is "X" the corrected ranking is the source's. */
  lemma {:induction false} MissingLastAgrees(rows: seq<AlignedRow>)
    requires DistinctNames(rows)
    requires Averages(rows).Ok?
    requires forall i | 0 <= i < |rows| :: Averages(rows).value[i] != "X"
    ensures AssignRanksMissingLast(rows) == AssignRanks(rows)
  {
    var avgs := Averages(rows).value;
    assert Keyed(MissingLast, avgs) == Keyed(AsShown, avgs);
  }

  /** Rows that differ only in their ranks have the same averages. */
  lemma {:induction false} RanksKeepCells(a: seq<AlignedRow>, b: seq<AlignedRow>)
    requires |a| == |b|
    requires forall i | 0 <= i < |a| :: b[i] == a[i].(rank := b[i].rank)
    ensures Averages(a) == Averages(b)
  {
    forall j | 0 <= j < |a| ensures a[j].scores == b[j].scores {
    }
    AveragesSameCells(a, b);
  }

  /** Competition ranks by `key`: each rank is one more than the number of rows whose
      average ranks strictly higher, and lies between 1 and the number of rows. */
  ghost predicate CompetitionRanked(rows: seq<AlignedRow>, key: string -> string, avgs: seq<string>) {
    && |avgs| == |rows|
    && forall i | 0 <= i < |rows| ::
         && rows[i].rank == Some(1 + CountGreater(Keyed(key, avgs)[i], Keyed(key, avgs)))
         && 1 <= rows[i].rank.value <= |rows|
  }

  /** Competition ranks by the corrected key. */
  ghost predicate CorrectlyRanked(rows: seq<AlignedRow>, avgs: seq<string>) {
    CompetitionRanked(rows, MissingLast, avgs)
  }

  /** Competition ranks by the shown text, as the source ranks. */
  ghost predicate RankedAsShown(rows: seq<AlignedRow>, avgs: seq<string>) {
    CompetitionRanked(rows, AsShown, avgs)
  }

  /** The source's ranking ranks the rows by the text of their own averages. */
  lemma {:induction false} SourceRanks(aligned: seq<AlignedRow>, rows: seq<AlignedRow>)
    requires DistinctNames(aligned)
    requires AssignRanks(aligned) == Ok(rows)
    ensures Averages(aligned).Ok? && RankedAsShown(rows, Averages(aligned).value)
  {
    RankedKeys(aligned, AsShown, Averages(aligned).value, rows);
  }

  /** The corrected ranking ranks the rows by their own averages. */
  lemma {:induction false} CorrectedRanks(aligned: seq<AlignedRow>, rows: seq<AlignedRow>)
    requires DistinctNames(aligned)
    requires AssignRanksMissingLast(aligned) == Ok(rows)
    ensures Averages(aligned).Ok? && CorrectlyRanked(rows, Averages(aligned).value)
  {
    RankedKeys(aligned, MissingLast, Averages(aligned).value, rows);
  }

  /** Every rank of the rank step is its competition rank. */
  lemma {:induction false} RankedKeys(rows: seq<AlignedRow>, key: string -> string, avgs: seq<string>, ranked: seq<AlignedRow>)
    requires DistinctNames(rows)
    requires Averages(rows) == Ok(avgs) && RankedBy(rows, key) == Ok(ranked)
    ensures CompetitionRanked(ranked, key, avgs)
  {
    forall i | 0 <= i < |ranked|
      ensures ranked[i].rank == Some(1 + CountGreater(Keyed(key, avgs)[i], Keyed(key, avgs)))
      ensures 1 <= ranked[i].rank.value <= |ranked|
    {
      RankIsCompetition(rows, key, avgs, ranked, i);
    }
  }
}

/** Option, Result and the failures the leaderboard view can raise. */
module Common {

  datatype Option<+T> = None | Some(value: T)

  /** The exceptions the view lets escape; each aborts the whole request. */
  datatype Error =
    | UnknownCategory         // `benchmark_order.index(...)` raises ValueError
    | NoMatchingPrefix        // `[...][0]` over the matching meta prefixes raises IndexError
    | EmptyScores             // `min()` / `max()` of an empty list raise ValueError
    | PaletteIndexOutOfRange  // `colors[step]` raises IndexError
    | DivisionByZero          // `normalize` divides by `min_value - max_value == 0`
    | MissingAlphaMax         // `alpha_min` given without `alpha_max`: TypeError
    | NoAverageScore          // `[...][0]` over a row's 'average' cells raises IndexError

  datatype Result<+T> = Ok(value: T) | Err(error: Error)

  /** Position of the first occurrence of `x` in `s`, as Python's `list.index`;
      `None` where `list.index` raises. */
  function IndexOf<T(==)>(s: seq<T>, x: T): (r: Option<nat>)
    ensures r.None? <==> x !in s
    ensures r.Some? ==> r.value < |s| && s[r.value] == x && x !in s[..r.value]
  {
    if s == [] then None
    else if s[0] == x then Some(0)
    else match IndexOf(s[1..], x)
      case None => None
      case Some(i) =>
        assert s[..i + 1] == [s[0]] + s[1..][..i];
        Some(i + 1)
  }

  /** The first-occurrence property pins the index down. */
  lemma {:induction false} IndexOfUnique<T>(s: seq<T>, x: T, k: nat)
    requires k < |s| && s[k] == x && x !in s[..k]
    ensures IndexOf(s, x) == Some(k)
  {
  }
}

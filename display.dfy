/** How one score is shown: its text (`represent`, benchmarks/views/index.py:132-135) and its
    cell colour (`representative_color` and `normalize`, benchmarks/views/index.py:123-129,
    138-148). Python floats are modelled as `real`. */
module Display {
  import opened Common
  import opened Text

  /** `color_None`, the background of a cell without a value. */
  const ColorNone := "#e0e1e2"

  /** What `representative_color(None, ...)` returns. */
  const NeutralCss := "background-color: " + ColorNone

  /** Entries in the warped red-to-green `colors` table. */
  const PaletteSize := 101

  /** A cell colour: a fixed CSS declaration, or the `colors` entry at `slot` with the
      opacity `alpha` (the RGB text built from them is not modelled). */
  datatype CellColor = Fixed(css: string) | Graded(slot: nat, alpha: real)

  /** Python's `"{:.3f}".format` and `"{:.1f}".format` on floats, left abstract. */
  datatype FloatFormat = FloatFormat(fixed3: real -> string, fixed1: real -> string)

  /** `normalize(value, min_value, max_value)`, computed by slope and intercept as the source
      does; the ensures gives the two-point form it is meant to be. */
  function Normalize(value: real, minValue: real, maxValue: real): (r: Result<real>)
    ensures r.Err? <==> minValue == maxValue
    ensures r.Err? ==> r.error == DivisionByZero
    ensures r.Ok? ==> r.value == 0.1 + 0.9 * (value - minValue) / (maxValue - minValue)
  {
    if minValue - maxValue == 0.0 then Err(DivisionByZero)
    else
      var slope := -0.9 / (minValue - maxValue);
      var intercept := 0.1 - slope * minValue;
      Ok(slope * value + intercept)
  }

  /** The minimum is sent to 0.1 and the maximum to 1.0. */
  lemma {:induction false} NormalizeEndpoints(minValue: real, maxValue: real)
    requires minValue != maxValue
    ensures Normalize(minValue, minValue, maxValue) == Ok(0.1)
    ensures Normalize(maxValue, minValue, maxValue) == Ok(1.0)
  {
  }

  /** Equal steps in the value give equal steps in the opacity: the map is affine. */
  lemma {:induction false} NormalizeAffine(v: real, w: real, minValue: real, maxValue: real)
    requires minValue != maxValue
    ensures Normalize(w, minValue, maxValue).value - Normalize(v, minValue, maxValue).value
            == 0.9 * (w - v) / (maxValue - minValue)
  {
    var d := maxValue - minValue;
    calc {
      Normalize(w, minValue, maxValue).value - Normalize(v, minValue, maxValue).value;
      0.9 * (w - minValue) / d - 0.9 * (v - minValue) / d;
      0.9 * (w - v) / d;
    }
  }

  /** Values between the bounds get an opacity between 0.1 and 1.0, larger for larger values. */
  lemma {:induction false} NormalizeRange(v: real, w: real, minValue: real, maxValue: real)
    requires minValue < maxValue
    requires minValue <= v <= w <= maxValue
    ensures 0.1 <= Normalize(v, minValue, maxValue).value <= Normalize(w, minValue, maxValue).value <= 1.0
  {
    var d := maxValue - minValue;
    assert 0.0 <= (v - minValue) / d <= (w - minValue) / d <= 1.0 by {
      assert (v - minValue) / d <= (w - minValue) / d by {
        assert (w - minValue) / d - (v - minValue) / d == (w - v) / d;
      }
      assert (w - minValue) / d <= d / d;
    }
  }

  /** Python's `int()` on a float: truncation toward zero. */
  function Truncate(x: real): (r: int)
    ensures 0.0 <= x ==> r as real <= x < r as real + 1.0
    ensures x < 0.0 ==> r as real - 1.0 < x <= r as real
  {
    if x >= 0.0 then x.Floor else -((-x).Floor)
  }

  /** `colors[step]` on the 101-entry table: negative indexes count from the end, and an
      index outside [-101, 100] fails. */
  function PaletteSlot(step: int): (r: Result<nat>)
    ensures r.Ok? <==> -PaletteSize <= step < PaletteSize
    ensures r.Err? ==> r.error == PaletteIndexOutOfRange
    ensures r.Ok? ==> r.value < PaletteSize && (r.value == step || r.value == step + PaletteSize)
  {
    if 0 <= step < PaletteSize then Ok(step)
    else if -PaletteSize <= step < 0 then Ok(step + PaletteSize)
    else Err(PaletteIndexOutOfRange)
  }

  /** The ways colouring a value can fail. */
  predicate ColorError(e: Error) {
    e == PaletteIndexOutOfRange || e == DivisionByZero || e == MissingAlphaMax
  }

  /** The colour of a cell with ceiled score `value` against its benchmark's bounds. */
  function RepresentativeColor(value: Option<real>, alphaMin: Option<real>, alphaMax: Option<real>): (r: Result<CellColor>)
    ensures value.None? ==> r == Ok(Fixed(NeutralCss))
    ensures r.Err? ==> value.Some? && ColorError(r.error)
  {
    match value
    case None => Ok(Fixed(NeutralCss))
    case Some(v) =>
      match PaletteSlot(Truncate(100.0 * v))
      case Err(e) => Err(e)
      case Ok(slot) =>
        var alpha :=
          if alphaMin.None? then Ok(100.0 * v)
          else if alphaMax.None? then Err(MissingAlphaMax)
          else Normalize(v, alphaMin.value, alphaMax.value);
        match alpha
        case Err(e) => Err(e)
        case Ok(a) => Ok(Graded(slot, a))
  }

  /** A ceiled score in [0, 1] between distinct bounds gets the table entry of its
      percentage and, as opacity, its normalised value, which lies in [0.1, 1.0]; it never
      fails. */
  lemma {:induction false} RepresentativeColorInRange(v: real, minValue: real, maxValue: real)
    requires 0.0 <= v <= 1.0
    requires minValue <= v <= maxValue && minValue < maxValue
    ensures RepresentativeColor(Some(v), Some(minValue), Some(maxValue)).Ok?
    ensures var c := RepresentativeColor(Some(v), Some(minValue), Some(maxValue)).value;
      && c.Graded?
      && c.slot as real <= 100.0 * v < c.slot as real + 1.0
      && Normalize(v, minValue, maxValue).Ok?
      && c.alpha == Normalize(v, minValue, maxValue).value
      && 0.1 <= c.alpha <= 1.0
  {
    NormalizeRange(v, v, minValue, maxValue);
  }

  /** Where every score of a benchmark is the same value, colouring that value divides by
      zero: the whole request fails. */
  lemma {:induction false} RepresentativeColorEqualBounds(v: real)
    requires 0.0 <= v <= 1.0
    ensures RepresentativeColor(Some(v), Some(v), Some(v)) == Err(DivisionByZero)
  {
  }

  /** `represent(value)`: "X" for no value; below 1 the three-decimal text without its
      leading zeros; otherwise the one-decimal text. */
  function Represent(value: Option<real>, fmt: FloatFormat): (r: string)
    ensures value.None? ==> r == "X"
    ensures value.Some? && value.value >= 1.0 ==> r == fmt.fixed1(value.value)
    ensures value.Some? && value.value < 1.0 ==>
      var s := fmt.fixed3(value.value);
      && |r| <= |s| && r == s[|s| - |r|..]
      && (forall i | 0 <= i < |s| - |r| :: s[i] == '0')
      && (r == [] || r[0] != '0')
  {
    match value
    case None => "X"
    case Some(v) => if v < 1.0 then LStripZeros(fmt.fixed3(v)) else fmt.fixed1(v)
  }

  /** The leading zero of a fraction is dropped: 0.452 is shown as ".452". */
  lemma {:induction false} RepresentFraction(fmt: FloatFormat)
    requires fmt.fixed3(0.452) == "0.452"
    ensures Represent(Some(0.452), fmt) == ".452"
  {
    assert "0.452"[1..] == ".452";
    assert LStripZeros("0.452") == LStripZeros(".452");
  }
}

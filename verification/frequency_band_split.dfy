/** The mask builder of the frequency splitter. For an `h`-by-`w` grid it
    measures every cell's distance from the center cell, normalizes it by the
    center-to-corner distance, and turns it into three soft band weights
    (low, mid, high) through a sigmoid whose steepness is `10 / overlap`.
    Tensors are sequences of rows of reals; `sigmoid` and `sqrt` are
    parameters constrained by the predicates of RealFunctions.
 */
module FrequencyBandSplit {
  import opened RealFunctions
  import opened MaskGeometry

  /** A 2-D mask: a sequence of rows. */
  type Grid = seq<seq<real>>

  /** `g` has `h` rows of `w` columns each. */
  predicate IsGrid(g: Grid, h: nat, w: nat) {
    |g| == h && forall y | 0 <= y < h :: |g[y]| == w
  }

  /** The three bands, in the order the masks are returned. */
  datatype Band = Low | Mid | High

  /** Inputs the soft-mask model leaves outside its domain. With a zero
      overlap the Python code divides every sigmoid argument by zero and its
      masks become hard 0/1 steps, NaN where a distance equals a threshold
      (modelled separately by `ZeroOverlapValue`). On a 1-by-1 grid it
      divides the only distance, 0, by a zero corner distance, and every
      weight is NaN. */
  datatype MaskError = ZeroOverlap | ZeroMaxDist

  datatype Result<T> = Ok(value: T) | Err(error: MaskError)

  /** Radial distance of cell `(y, x)` from the center, as a fraction of the
      center-to-corner distance. */
  function DistNorm(sqrt: real -> real, h: nat, w: nat, y: nat, x: nat): (d: real)
    requires IsSqrt(sqrt)
    requires InGrid(h, w, y, x)
    requires MaxDistSq(h, w) > 0
    ensures 0.0 <= d <= 1.0
    ensures d == 0.0 <==> IsCenter(h, w, y, x)
    ensures d == 1.0 <==> DistSq(h, w, y, x) == MaxDistSq(h, w)
  {
    var dist, maxDist := DistSq(h, w, y, x) as real, MaxDistSq(h, w) as real;
    DistSqBounded(h, w, y, x);
    SqrtRatio(sqrt, dist, maxDist);
    sqrt(dist) / sqrt(maxDist)
  }

  /** The normalized distance equals a non-negative `c` exactly when the
      squared offset is `c²` times the squared corner distance. */
  lemma DistNormIs(sqrt: real -> real, h: nat, w: nat, y: nat, x: nat, c: real)
    requires IsSqrt(sqrt)
    requires InGrid(h, w, y, x)
    requires MaxDistSq(h, w) > 0
    requires 0.0 <= c
    ensures DistNorm(sqrt, h, w, y, x) == c <==> DistSq(h, w, y, x) as real == c * c * (MaxDistSq(h, w) as real)
  {
    SqrtRatioSquares(sqrt, DistSq(h, w, y, x) as real, MaxDistSq(h, w) as real, c);
  }

  /** A sigmoid argument: `t / overlap * 10`, i.e. `t` times the steepness.
      Multiplying back by the overlap recovers `10 t`, and with a positive
      overlap the argument has the sign of `t`. */
  function Scaled(t: real, overlap: real): (s: real)
    requires overlap != 0.0
    ensures s * overlap == t * 10.0
    ensures 0.0 < overlap ==> (0.0 < s <==> 0.0 < t) && (s < 0.0 <==> t < 0.0)
  {
    assert t / overlap * overlap == t;
    t / overlap * 10.0
  }

  /** With a positive overlap, scaling preserves order. */
  lemma ScaledMonotone(t1: real, t2: real, overlap: real)
    requires 0.0 < overlap
    requires t1 <= t2
    ensures Scaled(t1, overlap) <= Scaled(t2, overlap)
  {
    assert t2 / overlap - t1 / overlap == (t2 - t1) / overlap;
  }

  /** The weight of `band` at normalized distance `d`. */
  function MaskValue(band: Band, sigmoid: real -> real, lowEnd: real, midEnd: real,
                     overlap: real, d: real): (v: real)
    requires IsSigmoid(sigmoid)
    requires overlap != 0.0
    ensures 0.0 < v < 1.0
  {
    match band
    case Low => sigmoid(Scaled(lowEnd - d, overlap))
    case Mid =>
      var rise, fall := sigmoid(Scaled(d - lowEnd + overlap, overlap)), sigmoid(Scaled(midEnd - d, overlap));
      assert 0.0 < rise * fall < fall by {
        assert rise * fall < 1.0 * fall;
      }
      rise * fall
    case High => sigmoid(Scaled(d - midEnd + overlap, overlap))
  }

  /** The `h`-by-`w` mask of one band. */
  function Mask(band: Band, sigmoid: real -> real, sqrt: real -> real, h: nat, w: nat,
                lowEnd: real, midEnd: real, overlap: real): (g: Grid)
    requires IsSigmoid(sigmoid) && IsSqrt(sqrt)
    requires overlap != 0.0
    requires GridDefined(h, w)
    ensures IsGrid(g, h, w)
    ensures forall y: nat, x: nat | InGrid(h, w, y, x) ::
              g[y][x] == MaskValue(band, sigmoid, lowEnd, midEnd, overlap, DistNorm(sqrt, h, w, y, x))
  {
    seq(h, (y: int) requires 0 <= y < h =>
      seq(w, (x: int) requires 0 <= x < w =>
        MaskValue(band, sigmoid, lowEnd, midEnd, overlap, DistNorm(sqrt, h, w, y, x))))
  }

  /** The mask builder: the low, mid and high masks, in that order, each of
      shape `h`-by-`w` with every weight strictly between 0 and 1. */
  function CreateFrequencyMasks(sigmoid: real -> real, sqrt: real -> real, h: nat, w: nat,
                                lowEnd: real, midEnd: real, overlap: real): (masks: seq<Grid>)
    requires IsSigmoid(sigmoid) && IsSqrt(sqrt)
    requires overlap != 0.0
    requires GridDefined(h, w)
    ensures |masks| == 3
    ensures IsGrid(masks[0], h, w) && IsGrid(masks[1], h, w) && IsGrid(masks[2], h, w)
    ensures forall k, y: nat, x: nat | 0 <= k < 3 && InGrid(h, w, y, x) :: 0.0 < masks[k][y][x] < 1.0
    ensures forall y: nat, x: nat | InGrid(h, w, y, x) ::
              && masks[0][y][x] == MaskValue(Low, sigmoid, lowEnd, midEnd, overlap, DistNorm(sqrt, h, w, y, x))
              && masks[1][y][x] == MaskValue(Mid, sigmoid, lowEnd, midEnd, overlap, DistNorm(sqrt, h, w, y, x))
              && masks[2][y][x] == MaskValue(High, sigmoid, lowEnd, midEnd, overlap, DistNorm(sqrt, h, w, y, x))
  {
    [ Mask(Low, sigmoid, sqrt, h, w, lowEnd, midEnd, overlap),
      Mask(Mid, sigmoid, sqrt, h, w, lowEnd, midEnd, overlap),
      Mask(High, sigmoid, sqrt, h, w, lowEnd, midEnd, overlap) ]
  }

  /** The mask builder on every input. The Python code raises no error, but
      on a 1-by-1 grid every weight is NaN and with a zero overlap the soft
      masks degenerate into steps (see `ZeroOverlapValue`); the model reports
      both as errors, the grid check first, as the corner distance is
      computed before the overlap is used. */
  function BuildMasks(sigmoid: real -> real, sqrt: real -> real, h: nat, w: nat,
                      lowEnd: real, midEnd: real, overlap: real): (r: Result<seq<Grid>>)
    requires IsSigmoid(sigmoid) && IsSqrt(sqrt)
    ensures r.Err? <==> (h == 1 && w == 1) || overlap == 0.0
    ensures r == Err(ZeroMaxDist) <==> h == 1 && w == 1
    ensures r.Ok? ==> r.value == CreateFrequencyMasks(sigmoid, sqrt, h, w, lowEnd, midEnd, overlap)
  {
    GridDefinedIff(h, w);
    if !GridDefined(h, w) then Err(ZeroMaxDist)
    else if overlap == 0.0 then Err(ZeroOverlap)
    else Ok(CreateFrequencyMasks(sigmoid, sqrt, h, w, lowEnd, midEnd, overlap))
  }

  /** The parameter ranges the host interface declares for the splitter:
      `low_freq_end` in [0.05, 0.5], `mid_freq_end` in [0.1, 0.8] and
      `overlap` in [0.0, 0.3]. Both thresholds then lie strictly inside the
      range (0, 1) of the normalized distance, and the overlap is never
      negative. */
  function HostRange(lowEnd: real, midEnd: real, overlap: real): (ok: bool)
    ensures ok ==> 0.0 < lowEnd < 1.0 && 0.0 < midEnd < 1.0 && 0.0 <= overlap
  {
    && 0.05 <= lowEnd <= 0.5
    && 0.1 <= midEnd <= 0.8
    && 0.0 <= overlap <= 0.3
  }

  /** A weight of the Python code once IEEE arithmetic leaves the reals: a
      number, or NaN. */
  datatype Ieee = Num(value: real) | NaN

  /** `sigmoid(t / 0.0 * 10)` in IEEE arithmetic. The argument is +inf for a
      positive `t`, -inf for a negative one and NaN for zero, and the sigmoid
      maps these to 1, 0 and NaN. */
  function StepSigmoid(t: real): (r: Ieee)
    ensures r.NaN? <==> t == 0.0
    ensures r.Num? ==> r.value == 0.0 || r.value == 1.0
  {
    if 0.0 < t then Num(1.0) else if t < 0.0 then Num(0.0) else NaN
  }

  /** IEEE product: NaN when either factor is NaN. */
  function Times(a: Ieee, b: Ieee): Ieee {
    if a.NaN? || b.NaN? then NaN else Num(a.value * b.value)
  }

  /** The weight of `band` at normalized distance `d` as the Python code
      computes it for a zero overlap: a hard 0/1 step at each threshold, and
      NaN on a cell whose distance equals a threshold it tests. */
  function ZeroOverlapValue(band: Band, lowEnd: real, midEnd: real, d: real): (r: Ieee)
    ensures r.NaN? <==> match band
                        case Low => d == lowEnd
                        case Mid => d == lowEnd || d == midEnd
                        case High => d == midEnd
    ensures r.Num? ==> r.value == 0.0 || r.value == 1.0
  {
    match band
    case Low => StepSigmoid(lowEnd - d)
    case Mid => Times(StepSigmoid(d - lowEnd + 0.0), StepSigmoid(midEnd - d))
    case High => StepSigmoid(d - midEnd + 0.0)
  }

  /** Away from the thresholds, and with `low_end < mid_end`, the zero-overlap
      weights form a brick-wall partition: exactly one band has weight 1,
      chosen by where `d` lies, and the weights sum to 1. */
  lemma ZeroOverlapPartition(lowEnd: real, midEnd: real, d: real)
    requires lowEnd < midEnd
    requires d != lowEnd && d != midEnd
    ensures var low, mid, high := ZeroOverlapValue(Low, lowEnd, midEnd, d),
                                  ZeroOverlapValue(Mid, lowEnd, midEnd, d),
                                  ZeroOverlapValue(High, lowEnd, midEnd, d);
            && low.Num? && mid.Num? && high.Num?
            && low.value + mid.value + high.value == 1.0
            && (low.value == 1.0 <==> d < lowEnd)
            && (mid.value == 1.0 <==> lowEnd < d < midEnd)
            && (high.value == 1.0 <==> midEnd < d)
  {
  }

  /** No cell of the 64-by-64 grid lies exactly at normalized distance 0.15
      or 0.4: that would need a squared offset of 46.08 or 327.68. */
  lemma NoTiesOn64Grid(sqrt: real -> real, y: nat, x: nat)
    requires IsSqrt(sqrt)
    requires InGrid(64, 64, y, x)
    ensures DistNorm(sqrt, 64, 64, y, x) != 0.15
    ensures DistNorm(sqrt, 64, 64, y, x) != 0.4
  {
    var k := DistSq(64, 64, y, x);
    assert MaxDistSq(64, 64) == 2048;
    DistNormIs(sqrt, 64, 64, y, x, 0.15);
    DistNormIs(sqrt, 64, 64, y, x, 0.4);
    if k <= 46 {
      assert k as real <= 46.0;
    } else if k <= 327 {
      assert 47.0 <= k as real <= 327.0;
    } else {
      assert 328.0 <= k as real;
    }
  }

  /** The declared range admits an overlap of 0. The model's mask builder
      reports it as `ZeroOverlap`, while the Python code silently switches to
      hard 0/1 masks: with the default thresholds on a 64-by-64 grid every
      weight is a number, the low weight is 1 at the center and 0 at the
      corner, and the high weight is 1 at the corner. */
  lemma HostRangeAdmitsZeroOverlap(sigmoid: real -> real, sqrt: real -> real)
    requires IsSigmoid(sigmoid) && IsSqrt(sqrt)
    ensures HostRange(0.15, 0.4, 0.0)
    ensures BuildMasks(sigmoid, sqrt, 64, 64, 0.15, 0.4, 0.0) == Err(ZeroOverlap)
    ensures forall band: Band, y: nat, x: nat | InGrid(64, 64, y, x) ::
              ZeroOverlapValue(band, 0.15, 0.4, DistNorm(sqrt, 64, 64, y, x)).Num?
    ensures ZeroOverlapValue(Low, 0.15, 0.4, DistNorm(sqrt, 64, 64, 32, 32)) == Num(1.0)
    ensures ZeroOverlapValue(Low, 0.15, 0.4, DistNorm(sqrt, 64, 64, 0, 0)) == Num(0.0)
    ensures ZeroOverlapValue(High, 0.15, 0.4, DistNorm(sqrt, 64, 64, 0, 0)) == Num(1.0)
  {
    assert Center(64) == 32 && MaxDistSq(64, 64) == 2048;
    forall band: Band, y: nat, x: nat | InGrid(64, 64, y, x)
      ensures ZeroOverlapValue(band, 0.15, 0.4, DistNorm(sqrt, 64, 64, y, x)).Num?
    {
      NoTiesOn64Grid(sqrt, y, x);
    }
    DistSqMaxIff(64, 64, 0, 0);
  }

  /** Ties do occur on other grids. A cell whose squared offset is a quarter
      of the squared corner distance sits at normalized distance 0.5, the
      largest admitted `low_end`; with that threshold and a zero overlap the
      Python code's low and mid weights there are NaN. Cell `(1, 0)` of a
      4-by-1 grid is such a cell. */
  lemma ZeroOverlapNaNAtTie(sqrt: real -> real, h: nat, w: nat, y: nat, x: nat)
    requires IsSqrt(sqrt)
    requires InGrid(h, w, y, x)
    requires 0 < MaxDistSq(h, w)
    ensures HostRange(0.5, 0.8, 0.0)
    ensures MaxDistSq(h, w) == 4 * DistSq(h, w, y, x) ==>
              && DistNorm(sqrt, h, w, y, x) == 0.5
              && ZeroOverlapValue(Low, 0.5, 0.8, DistNorm(sqrt, h, w, y, x)) == NaN
              && ZeroOverlapValue(Mid, 0.5, 0.8, DistNorm(sqrt, h, w, y, x)) == NaN
  {
    DistNormIs(sqrt, h, w, y, x, 0.5);
  }

  /** Cell `(1, 0)` of a 4-by-1 grid is one row from the center `(2, 0)`, a
      quarter of the squared corner distance 4. */
  lemma QuarterCellOn4By1()
    ensures InGrid(4, 1, 1, 0)
    ensures MaxDistSq(4, 1) == 4 && DistSq(4, 1, 1, 0) == 1
  {
    assert Center(4) == 2 && Center(1) == 0;
  }

  /** The range with the overlap's lower bound raised to one step (0.01). */
  predicate CorrectedHostRange(lowEnd: real, midEnd: real, overlap: real) {
    && 0.05 <= lowEnd <= 0.5
    && 0.1 <= midEnd <= 0.8
    && 0.01 <= overlap <= 0.3
  }

  /** Under the corrected range every grid except the 1-by-1 one yields masks,
      the range stays inside the declared one, and the overlap is positive, as
      the monotonicity lemmas below require. */
  lemma CorrectedHostRangeBuilds(sigmoid: real -> real, sqrt: real -> real, h: nat, w: nat,
                                 lowEnd: real, midEnd: real, overlap: real)
    requires IsSigmoid(sigmoid) && IsSqrt(sqrt)
    requires CorrectedHostRange(lowEnd, midEnd, overlap)
    ensures BuildMasks(sigmoid, sqrt, h, w, lowEnd, midEnd, overlap).Ok? <==> !(h == 1 && w == 1)
    ensures HostRange(lowEnd, midEnd, overlap)
    ensures 0.0 < overlap
  {
  }

  /** With a positive overlap the low mask never grows with distance. */
  lemma LowMaskNonIncreasing(sigmoid: real -> real, lowEnd: real, midEnd: real, overlap: real,
                             d1: real, d2: real)
    requires IsSigmoid(sigmoid)
    requires 0.0 < overlap
    requires d1 <= d2
    ensures MaskValue(Low, sigmoid, lowEnd, midEnd, overlap, d2)
            <= MaskValue(Low, sigmoid, lowEnd, midEnd, overlap, d1)
  {
    ScaledMonotone(lowEnd - d2, lowEnd - d1, overlap);
  }

  /** With a positive overlap the high mask never shrinks with distance. */
  lemma HighMaskNonDecreasing(sigmoid: real -> real, lowEnd: real, midEnd: real, overlap: real,
                              d1: real, d2: real)
    requires IsSigmoid(sigmoid)
    requires 0.0 < overlap
    requires d1 <= d2
    ensures MaskValue(High, sigmoid, lowEnd, midEnd, overlap, d1)
            <= MaskValue(High, sigmoid, lowEnd, midEnd, overlap, d2)
  {
    ScaledMonotone(d1 - midEnd + overlap, d2 - midEnd + overlap, overlap);
  }

  /** The normalized distance orders cells as their squared distances do. */
  lemma DistNormMonotone(sqrt: real -> real, h: nat, w: nat, y1: nat, x1: nat, y2: nat, x2: nat)
    requires IsSqrt(sqrt)
    requires InGrid(h, w, y1, x1) && InGrid(h, w, y2, x2)
    requires MaxDistSq(h, w) > 0
    requires DistSq(h, w, y1, x1) <= DistSq(h, w, y2, x2)
    ensures DistNorm(sqrt, h, w, y1, x1) <= DistNorm(sqrt, h, w, y2, x2)
  {
    SqrtRatioMonotone(sqrt, DistSq(h, w, y1, x1) as real, DistSq(h, w, y2, x2) as real, MaxDistSq(h, w) as real);
  }

  /** Across the grid, a cell farther from the center never has a larger low
      weight nor a smaller high weight than a nearer cell. */
  lemma MasksMonotoneInDistance(sigmoid: real -> real, sqrt: real -> real, h: nat, w: nat,
                                lowEnd: real, midEnd: real, overlap: real,
                                y1: nat, x1: nat, y2: nat, x2: nat)
    requires IsSigmoid(sigmoid) && IsSqrt(sqrt)
    requires 0.0 < overlap
    requires GridDefined(h, w)
    requires InGrid(h, w, y1, x1) && InGrid(h, w, y2, x2)
    requires DistSq(h, w, y1, x1) <= DistSq(h, w, y2, x2)
    ensures var masks := CreateFrequencyMasks(sigmoid, sqrt, h, w, lowEnd, midEnd, overlap);
            && masks[0][y2][x2] <= masks[0][y1][x1]
            && masks[2][y1][x1] <= masks[2][y2][x2]
  {
    DistNormMonotone(sqrt, h, w, y1, x1, y2, x2);
    var d1, d2 := DistNorm(sqrt, h, w, y1, x1), DistNorm(sqrt, h, w, y2, x2);
    LowMaskNonIncreasing(sigmoid, lowEnd, midEnd, overlap, d1, d2);
    HighMaskNonDecreasing(sigmoid, lowEnd, midEnd, overlap, d1, d2);
  }

  /** The three weights at normalized distance 0, the center's. */
  lemma MaskValueAtZero(sigmoid: real -> real, lowEnd: real, midEnd: real, overlap: real)
    requires IsSigmoid(sigmoid)
    requires overlap != 0.0
    ensures MaskValue(Low, sigmoid, lowEnd, midEnd, overlap, 0.0) == sigmoid(lowEnd / overlap * 10.0)
    ensures MaskValue(Mid, sigmoid, lowEnd, midEnd, overlap, 0.0)
            == sigmoid((overlap - lowEnd) / overlap * 10.0) * sigmoid(midEnd / overlap * 10.0)
    ensures MaskValue(High, sigmoid, lowEnd, midEnd, overlap, 0.0) == sigmoid((overlap - midEnd) / overlap * 10.0)
  {
    assert lowEnd - 0.0 == lowEnd && 0.0 - lowEnd + overlap == overlap - lowEnd;
    assert midEnd - 0.0 == midEnd && 0.0 - midEnd + overlap == overlap - midEnd;
  }

  /** The three weights at normalized distance 1, the corner's. */
  lemma MaskValueAtOne(sigmoid: real -> real, lowEnd: real, midEnd: real, overlap: real)
    requires IsSigmoid(sigmoid)
    requires overlap != 0.0
    ensures MaskValue(Low, sigmoid, lowEnd, midEnd, overlap, 1.0) == sigmoid((lowEnd - 1.0) / overlap * 10.0)
    ensures MaskValue(Mid, sigmoid, lowEnd, midEnd, overlap, 1.0)
            == sigmoid((1.0 - lowEnd + overlap) / overlap * 10.0) * sigmoid((midEnd - 1.0) / overlap * 10.0)
    ensures MaskValue(High, sigmoid, lowEnd, midEnd, overlap, 1.0) == sigmoid((1.0 - midEnd + overlap) / overlap * 10.0)
  {
  }

  /** At the center cell the normalized distance is 0, which fixes all three
      weights there. */
  lemma MasksAtCenter(sigmoid: real -> real, sqrt: real -> real, h: nat, w: nat,
                      lowEnd: real, midEnd: real, overlap: real)
    requires IsSigmoid(sigmoid) && IsSqrt(sqrt)
    requires overlap != 0.0
    requires 0 < h && 0 < w && GridDefined(h, w)
    ensures var masks := CreateFrequencyMasks(sigmoid, sqrt, h, w, lowEnd, midEnd, overlap);
            var cy, cx := Center(h), Center(w);
            && masks[0][cy][cx] == sigmoid(lowEnd / overlap * 10.0)
            && masks[1][cy][cx] == sigmoid((overlap - lowEnd) / overlap * 10.0) * sigmoid(midEnd / overlap * 10.0)
            && masks[2][cy][cx] == sigmoid((overlap - midEnd) / overlap * 10.0)
  {
    CenterInGrid(h, w);
    assert DistNorm(sqrt, h, w, Center(h), Center(w)) == 0.0;
    MaskValueAtZero(sigmoid, lowEnd, midEnd, overlap);
  }

  /** With a positive overlap, no cell has a larger low weight than the
      center cell. */
  lemma LowPeaksAtCenter(sigmoid: real -> real, sqrt: real -> real, h: nat, w: nat,
                         lowEnd: real, midEnd: real, overlap: real)
    requires IsSigmoid(sigmoid) && IsSqrt(sqrt)
    requires 0.0 < overlap
    requires 0 < h && 0 < w && GridDefined(h, w)
    ensures var masks := CreateFrequencyMasks(sigmoid, sqrt, h, w, lowEnd, midEnd, overlap);
            forall y: nat, x: nat | InGrid(h, w, y, x) :: masks[0][y][x] <= masks[0][Center(h)][Center(w)]
  {
    var masks := CreateFrequencyMasks(sigmoid, sqrt, h, w, lowEnd, midEnd, overlap);
    var cy, cx := Center(h), Center(w);
    CenterInGrid(h, w);
    forall y: nat, x: nat | InGrid(h, w, y, x)
      ensures masks[0][y][x] <= masks[0][cy][cx]
    {
      MasksMonotoneInDistance(sigmoid, sqrt, h, w, lowEnd, midEnd, overlap, cy, cx, y, x);
    }
  }

  /** At the corner cell `(0, 0)` the normalized distance is 1, which fixes
      all three weights there. */
  lemma MasksAtCorner(sigmoid: real -> real, sqrt: real -> real, h: nat, w: nat,
                      lowEnd: real, midEnd: real, overlap: real)
    requires IsSigmoid(sigmoid) && IsSqrt(sqrt)
    requires overlap != 0.0
    requires 0 < h && 0 < w && GridDefined(h, w)
    ensures var masks := CreateFrequencyMasks(sigmoid, sqrt, h, w, lowEnd, midEnd, overlap);
            && masks[0][0][0] == sigmoid((lowEnd - 1.0) / overlap * 10.0)
            && masks[1][0][0] == sigmoid((1.0 - lowEnd + overlap) / overlap * 10.0) * sigmoid((midEnd - 1.0) / overlap * 10.0)
            && masks[2][0][0] == sigmoid((1.0 - midEnd + overlap) / overlap * 10.0)
  {
    DistSqMaxIff(h, w, 0, 0);
    assert DistNorm(sqrt, h, w, 0, 0) == 1.0;
    MaskValueAtOne(sigmoid, lowEnd, midEnd, overlap);
  }

  /** With a positive overlap, no cell has a larger high weight than the
      corner cell `(0, 0)`. */
  lemma HighPeaksAtCorner(sigmoid: real -> real, sqrt: real -> real, h: nat, w: nat,
                          lowEnd: real, midEnd: real, overlap: real)
    requires IsSigmoid(sigmoid) && IsSqrt(sqrt)
    requires 0.0 < overlap
    requires 0 < h && 0 < w && GridDefined(h, w)
    ensures var masks := CreateFrequencyMasks(sigmoid, sqrt, h, w, lowEnd, midEnd, overlap);
            forall y: nat, x: nat | InGrid(h, w, y, x) :: masks[2][y][x] <= masks[2][0][0]
  {
    var masks := CreateFrequencyMasks(sigmoid, sqrt, h, w, lowEnd, midEnd, overlap);
    DistSqMaxIff(h, w, 0, 0);
    forall y: nat, x: nat | InGrid(h, w, y, x)
      ensures masks[2][y][x] <= masks[2][0][0]
    {
      DistSqBounded(h, w, y, x);
      MasksMonotoneInDistance(sigmoid, sqrt, h, w, lowEnd, midEnd, overlap, y, x, 0, 0);
    }
  }

  /** The default settings on a 64-by-64 grid: the low weight at the center is
      `sigmoid(15)` and the high weight at the corner is `sigmoid(70)`, both
      the largest values of their masks. */
  lemma DefaultsOn64Grid(sigmoid: real -> real, sqrt: real -> real)
    requires IsSigmoid(sigmoid) && IsSqrt(sqrt)
    ensures var masks := CreateFrequencyMasks(sigmoid, sqrt, 64, 64, 0.15, 0.4, 0.1);
            && masks[0][32][32] == sigmoid(15.0)
            && masks[2][0][0] == sigmoid(70.0)
            && forall y: nat, x: nat | InGrid(64, 64, y, x) ::
                 masks[0][y][x] <= sigmoid(15.0) && masks[2][y][x] <= sigmoid(70.0)
  {
    assert Center(64) == 32 && MaxDistSq(64, 64) == 2048;
    assert 0.15 / 0.1 * 10.0 == 15.0;
    assert (1.0 - 0.4 + 0.1) / 0.1 * 10.0 == 70.0;
    MasksAtCenter(sigmoid, sqrt, 64, 64, 0.15, 0.4, 0.1);
    LowPeaksAtCenter(sigmoid, sqrt, 64, 64, 0.15, 0.4, 0.1);
    MasksAtCorner(sigmoid, sqrt, 64, 64, 0.15, 0.4, 0.1);
    HighPeaksAtCorner(sigmoid, sqrt, 64, 64, 0.15, 0.4, 0.1);
  }
}

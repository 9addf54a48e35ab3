# Frequency band split and combine, in Dafny

This project models the two pieces of logic of the frequency-split nodes in
`freqsep.py` that can be stated without floating-point detail:

- the **mask builder** (`FrequencyBandSplit.create_frequency_masks`). For an
  `h`-by-`w` grid it takes the center cell `(h // 2, w // 2)`, measures each
  cell's Euclidean distance from it, divides by the center-to-corner distance
  `sqrt(center_h² + center_w²)`, and turns that normalized distance `d` into
  three soft weights: `low = sigmoid((low_end - d) / overlap * 10)`,
  `mid = sigmoid((d - low_end + overlap) / overlap * 10) * sigmoid((mid_end - d) / overlap * 10)`
  and `high = sigmoid((d - mid_end + overlap) / overlap * 10)`. The masks come
  back as the list `[low, mid, high]`.
- the **band combiner** (`FrequencyBandCombine.combine_frequency`). With the
  method `"weighted_blend"` it returns the weighted average of the three band
  tensors when the weight total is positive, and otherwise silently falls back
  to their plain mean. With any other method name it returns their sum and
  ignores the weights.

Modules:

- `RealFunctions` (`real_functions.dfy`). `sigmoid` and `sqrt` are not
  defined. Every operation that needs them takes them as parameters of type
  `real -> real`. Two predicates constrain them: `IsSigmoid` gives a range in
  (0, 1) and non-decreasing values, and `IsSqrt` gives a non-negative root of
  every non-negative real. The monotonicity of the root and its zero set are
  proved from `IsSqrt`.
- `MaskGeometry` (`mask_geometry.dfy`): the exact integer part. It holds the
  center index, the per-cell offsets, the squared distance and the squared
  corner distance.
- `FrequencyBandSplit` (`frequency_band_split.dfy`): the normalized distance,
  the three mask formulas, the mask grids, and their properties.
- `FrequencyBandCombine` (`frequency_band_combine.dfy`): the combiner, on
  tensors flattened to `seq<real>`, since every operation is element-wise.

Floats are modelled as mathematical reals. The arithmetic follows the code's
operator order, `t / overlap * 10`.

Three behaviours of the code are worth stating up front:

- Any method name other than `"weighted_blend"` sums the bands. There is no
  branch that rejects an unknown name (freqsep.py:78-89).
- The sigmoid arguments divide by `overlap` before the factor 10. So the
  default settings (`low_end = 0.15`, `mid_end = 0.4`, `overlap = 0.1`) give
  `sigmoid(15)` for the low weight at the center and `sigmoid(70)` for the
  high weight at the corner.
- An empty grid (`h == 0` or `w == 0`) gives empty masks. Only the 1-by-1
  grid divides by a zero corner distance.

## Model

| member | source | states |
|---|---|---|
| `MaskGeometry.Center` | freqsep.py:41 | `h // 2` is the half of `h` rounded down: `2c ≤ h ≤ 2c + 1`, and it is a valid index on a non-empty axis. |
| `MaskGeometry.Offset` | freqsep.py:46-47 | Inside the axis, a cell's offset from the center never exceeds the center index in absolute value. |
| `MaskGeometry.DistSq` | freqsep.py:46-49 | The squared radius `x_centered² + y_centered²` is 0 exactly at the center cell `(h//2, w//2)`. |
| `MaskGeometry.MaxDistSq` | freqsep.py:48 | The squared corner distance `center_h² + center_w²` is 0 exactly when `h ≤ 1` and `w ≤ 1`. |
| `MaskGeometry.GridDefinedIff` | freqsep.py:48-49 | The division on line 49 is defined on every cell exactly when the grid is not 1-by-1. Empty grids have no cell to divide. |
| `MaskGeometry.DistSqBounded` | freqsep.py:41-49 | For every cell, `(x - w//2)² + (y - h//2)²` is at most `center_h² + center_w²`. So no cell lies farther out than the corner distance used for normalization. |
| `MaskGeometry.DistSqMaxIff` | freqsep.py:41-48 | A cell reaches the corner distance exactly when its row is 0 or `2·(h//2)` and its column is 0 or `2·(w//2)`. This includes cell `(0, 0)`. |
| `MaskGeometry.CenterInGrid` | freqsep.py:41-42 | On a non-empty grid the center `(h//2, w//2)` is a cell of the grid, at squared distance 0. |
| `RealFunctions.SqrtMonotone` | freqsep.py:48-49 | The root used for both distances preserves order. |
| `RealFunctions.SqrtZeroIff` | freqsep.py:48-49 | The root is 0 exactly at 0 and is positive on positive arguments. So a non-zero squared corner distance gives a non-zero divisor. |
| `FrequencyBandSplit.DistNorm` | freqsep.py:41-49 | `dist_norm` lies in [0, 1]. It is 0 exactly at the center and 1 exactly where the squared offset equals the squared corner distance. |
| `FrequencyBandSplit.DistNormIs` | freqsep.py:48-49 | `dist_norm` equals a non-negative `c` exactly when the squared radius is `c²` times the squared corner distance. |
| `RealFunctions.SqrtRatioSquares` | freqsep.py:48-49 | A ratio of two roots equals a non-negative `c` exactly when the ratio of the radicands is `c²`. |
| `FrequencyBandSplit.DistNormMonotone` | freqsep.py:49 | A cell with a larger squared offset never has a smaller `dist_norm`. |
| `FrequencyBandSplit.Scaled` | freqsep.py:52-54 | The sigmoid argument `t / overlap * 10`, multiplied back by `overlap`, is `10 t`. With a positive overlap it has the sign of `t`. |
| `FrequencyBandSplit.MaskValue` | freqsep.py:52-54 | Each of the three weights lies strictly between 0 and 1 at any distance. For the mid weight this holds because it is a product of two sigmoids. |
| `FrequencyBandSplit.Mask` | freqsep.py:42-54 | A band's mask has `h` rows of `w` columns. Each cell holds that band's weight at the cell's normalized distance. |
| `FrequencyBandSplit.CreateFrequencyMasks` | freqsep.py:40-56 | Exactly three masks come back, each `h` by `w`. Every weight lies in (0, 1). Elements 0, 1 and 2 are the low, mid and high weights of every cell, in that order. |
| `FrequencyBandSplit.BuildMasks` | freqsep.py:40-56 | Masks exist exactly when the grid is not 1-by-1 and the overlap is not 0. The 1-by-1 grid gives `ZeroMaxDist` and a zero overlap gives `ZeroOverlap`. Otherwise the result is the masks above. |
| `FrequencyBandSplit.LowMaskNonIncreasing` | freqsep.py:52 | With a positive overlap, the low weight never increases as `dist_norm` grows. |
| `FrequencyBandSplit.HighMaskNonDecreasing` | freqsep.py:54 | With a positive overlap, the high weight never decreases as `dist_norm` grows. |
| `FrequencyBandSplit.MasksMonotoneInDistance` | freqsep.py:46-54 | Take any two cells of the grid. The one farther from the center has a low weight no larger and a high weight no smaller than the nearer one. |
| `FrequencyBandSplit.MaskValueAtZero` | freqsep.py:52-54 | At `d = 0` the weights are `sigmoid(low_end / overlap * 10)`, `sigmoid((overlap - low_end) / overlap * 10) · sigmoid(mid_end / overlap * 10)` and `sigmoid((overlap - mid_end) / overlap * 10)`. |
| `FrequencyBandSplit.MaskValueAtOne` | freqsep.py:52-54 | At `d = 1` the weights are the formulas with `1` in place of `dist_norm`. |
| `FrequencyBandSplit.MasksAtCenter` | freqsep.py:41-54 | At the center cell the low weight is `sigmoid(low_end / overlap * 10)`. The mid and high weights are the formulas at `d = 0`. |
| `FrequencyBandSplit.LowPeaksAtCenter` | freqsep.py:41-52 | With a positive overlap, no cell has a larger low weight than the center cell. |
| `FrequencyBandSplit.MasksAtCorner` | freqsep.py:41-54 | At cell `(0, 0)` the high weight is `sigmoid((1 - mid_end + overlap) / overlap * 10)`. The low and mid weights are the formulas at `d = 1`. |
| `FrequencyBandSplit.HighPeaksAtCorner` | freqsep.py:41-54 | With a positive overlap, no cell has a larger high weight than cell `(0, 0)`. |
| `FrequencyBandSplit.DefaultsOn64Grid` | freqsep.py:10-12 | With the default parameters on a 64-by-64 grid, the low weight at `(32, 32)` is `sigmoid(15)` and the high weight at `(0, 0)` is `sigmoid(70)`. Each is the largest value of its mask. |
| `FrequencyBandSplit.HostRange` | freqsep.py:10-12 | Inside the declared ranges both thresholds lie strictly between 0 and 1, the range of `dist_norm`, and the overlap is never negative. |
| `FrequencyBandSplit.ZeroOverlapValue` | freqsep.py:52-54 | With `overlap = 0` each weight is 0 or 1, a hard step at its thresholds. It is NaN exactly where `dist_norm` equals a threshold that band tests: `low_end` for low, either threshold for mid, `mid_end` for high. |
| `FrequencyBandSplit.ZeroOverlapPartition` | freqsep.py:52-54 | With `overlap = 0`, `low_end < mid_end` and no tie, exactly one band has weight 1 and the weights sum to 1: low below `low_end`, mid between the thresholds, high above `mid_end`. |
| `FrequencyBandSplit.NoTiesOn64Grid` | freqsep.py:41-49 | No cell of a 64-by-64 grid lies at `dist_norm` 0.15 or 0.4, because that would need a squared radius of 46.08 or 327.68. |
| `FrequencyBandSplit.HostRangeAdmitsZeroOverlap` | freqsep.py:12 | The declared range admits `overlap = 0`. With the default thresholds on a 64-by-64 grid, the code's weights are then all numbers and all hard 0/1 steps: low is 1 at the center and 0 at the corner, and high is 1 at the corner. The model's builder reports `ZeroOverlap` for this input. |
| `FrequencyBandSplit.ZeroOverlapNaNAtTie` | freqsep.py:10-12 | On any grid cell, if the squared radius is a quarter of the squared corner distance, then `dist_norm = 0.5`. With `low_end = 0.5` (admitted) and `overlap = 0`, its low and mid weights are NaN. |
| `FrequencyBandSplit.QuarterCellOn4By1` | freqsep.py:41-48 | Cell `(1, 0)` of a 4-by-1 grid has squared radius 1 and the grid's squared corner distance is 4. So this cell is a tie of the kind above. |
| `FrequencyBandSplit.CorrectedHostRangeBuilds` | freqsep.py:10-12 | Raise the overlap's lower bound to one step (0.01). Then every grid except 1-by-1 yields masks, and the overlap is positive as the monotonicity lemmas need. |
| `FrequencyBandCombine.CombineFrequency` | freqsep.py:77-91 | The output has the inputs' length. With `"weighted_blend"` and a positive total, each element is `(l·lw + m·mw + h·hw) / (lw + mw + hw)`. With a total ≤ 0 it is `(l + m + h) / 3`. With any other method it is `l + m + h`. |
| `FrequencyBandCombine.CombineElement` | freqsep.py:78-89 | For one element: a blend with a positive total, multiplied back by the total, is the weighted sum. The fallback, tripled, is the plain sum. Any other method gives the plain sum. |
| `FrequencyBandCombine.BlendWithinBandRange` | freqsep.py:67-86 | With weights in the host's range (none negative), every blended element lies between the least and the greatest of the three band elements, in both branches. |
| `FrequencyBandCombine.BlendIdempotent` | freqsep.py:78-86 | Blending three copies of one tensor returns that tensor, for every choice of weights, fallback included. |
| `FrequencyBandCombine.BlendScaleInvariant` | freqsep.py:80-84 | Multiplying all three weights by one positive factor does not change the blend. |
| `FrequencyBandCombine.FallbackIsEqualWeightBlend` | freqsep.py:80-86 | The fallback taken when the total is ≤ 0 gives the same result as a blend with any three equal positive weights. |
| `FrequencyBandCombine.SumIgnoresWeights` | freqsep.py:78-89 | Any method other than `"weighted_blend"` gives the same result for every choice of weights. That result is three times the fallback mean. |

## Left out

- `split_frequency` (freqsep.py:21-38) is not modelled: the forward and inverse 2-D FFT, the multiply by each mask in the frequency domain, and the discarded imaginary part. These are library numerics over complex floats with no definition in the repository.
- Moving the masks to the input's device and adding batch and channel axes with `unsqueeze` (freqsep.py:33). This is tensor plumbing.
- Host-plugin metadata (`INPUT_TYPES`, `RETURN_TYPES`, `FUNCTION`, `CATEGORY`, node mappings). This has no behaviour. The splitter's declared ranges appear as `HostRange`, and the combiner's weight range (freqsep.py:67-69) appears as the non-negative weights `BlendWithinBandRange` requires.
- The concrete values of `sigmoid` and `sqrt`, and float32 rounding. Reals stand in for floats; the only IEEE values modelled are the infinities and NaN of a zero overlap, in `ZeroOverlapValue`.
- RealFunctions.IsSigmoid: states range (0, 1) and non-decreasing values only. It omits strict increase and symmetry. A float32 sigmoid saturates to exactly 1.0 for large arguments, so even the open upper bound holds only of the real-valued function.
- FrequencyBandSplit.BuildMasks: the code raises no error for a zero overlap or a 1-by-1 grid. A zero overlap gives hard 0/1 masks with NaN at exact ties; these are modelled separately by `ZeroOverlapValue`, and the soft-mask builder treats the input as outside its domain. A 1-by-1 grid divides 0 by 0 and every weight is NaN; reals cannot represent this, so the model reports an error value.
- The approximate claims that the three masks sum to about 1, and that the bands sum to about the original. They are not exact and depend on transcendental values.
- FrequencyBandCombine.CombineFrequency: requires three tensors of equal length. Tensor broadcasting of different but compatible shapes, and the error for incompatible ones, are not modelled.

## Findings

| source | as written | input that shows it | evidently intended | confidence | as-written member | corrected member |
|---|---|---|---|---|---|---|
| freqsep.py:12 | `overlap` is declared with minimum 0.0, and lines 52-54 divide by it | `overlap = 0.0` with `low_freq_end = 0.15`, `mid_freq_end = 0.4` on a 64-by-64 latent: every sigmoid argument is ±inf, and the soft masks silently become hard 0/1 steps. With `low_freq_end = 0.5` on a 4-by-1 latent, the cell at the threshold gets NaN low and mid weights (`ZeroOverlapNaNAtTie`) | a positive minimum (one step, 0.01), so that every admitted overlap gives soft masks | medium, not executed | `FrequencyBandSplit.HostRangeAdmitsZeroOverlap` | `FrequencyBandSplit.CorrectedHostRangeBuilds` |

# Quantitative MRI post-processing nodes: B0 drift correction and T2* set-up

This project models, in Dafny, the logic of two GPI pipeline nodes of the
repository and proves properties of it:

- **B0 drift correction** (`general/GPI/B0driftCorr_GPI.py`). `validate`
  refuses a correction dynamic beyond the total number of dynamics. `compute`
  works only when the Compute toggle is on. It lays out the linear f0 drift
  series `linspace(f0_min, f0_max, total_dyns)` and subscripts it with
  `corr_dyn - 1` using Python indexing. It then subtracts that one drift value
  from every voxel of the B0 map and publishes the result. Module
  `B0DriftCorr` models this with pure functions. `B0DriftCorr.Run` composes
  the two as the GPI framework does: compute runs only when validate returns
  0 (the framework convention recorded at general/GPI/Preprocess_GPI.py:37-38).
  The B0 lemmas are stated about `Run`. The B0 map is a flat
  row-major `seq<real>`, because the subtraction does not depend on the shape.
- **T2\* node set-up** (`general/GPI/ComputeT2star_GPI.py`). The model covers
  the rank guard in `validate` and the unpacking of the shape into
  `e, z, y, x`. It covers the construction of the echo-time array `TE_arr`,
  modelled as a method over `array<real>` with its loop. It also covers the
  zero-initialised output maps and the per-voxel initial guess
  `(max(signal), 30.0)`. Module `ComputeT2star` holds these.
- Module `NumPy` holds the Python and NumPy primitives both nodes use. These
  are Python subscripts (negative indices count from the end and out-of-range
  ones raise), `range`, `numpy.zeros`, `numpy.linspace`, `numpy.amax` and
  elementwise arithmetic.

Arithmetic is exact (`real`), not IEEE floating point. Widget values are plain
parameters. Their spin-box ranges appear as `WidgetRanges` predicates, and only
the lemmas that need those ranges assume them.

Points where the code behaves differently from what a reader might expect:

- The code accepts correction dynamic 0, and the subscript `-1` then picks the
  last dynamic (general/GPI/B0driftCorr_GPI.py:29, 42, 65).
- The `TE_arr` loop never completes, and the `deltaTE` widget allows 0
  (general/GPI/ComputeT2star_GPI.py:28, 66), so even the repaired schedule is
  only non-decreasing.
- The code never compares the `# Echoes` widget with the unpacked extent `e`,
  so the model keeps the two separate.

## Model

| member | source | states |
|---|---|---|
| `NumPy.At` | general/GPI/B0driftCorr_GPI.py:65 | a Python subscript `s[i]` succeeds exactly when `-len(s) <= i < len(s)`, and raises otherwise; when it succeeds it returns the element at the normalised position (`i`, or `i + len(s)` for a negative `i`) |
| `NumPy.Normalize` | general/GPI/B0driftCorr_GPI.py:65 | a legal subscript designates a position below the length, either `i` itself or `i + len` for a negative `i` |
| `NumPy.AtMinusOne` | general/GPI/B0driftCorr_GPI.py:65 | `s[-1]` is the last element of a non-empty sequence and raises on an empty one |
| `NumPy.Range` | general/GPI/ComputeT2star_GPI.py:66 | `range(lo, hi)` has `max(hi - lo, 0)` elements and its k-th element is `lo + k` |
| `NumPy.Zeros` | general/GPI/ComputeT2star_GPI.py:57 | `np.zeros(n)` has `n` entries, all zero |
| `NumPy.LinSpace` | general/GPI/B0driftCorr_GPI.py:62 | `linspace(lo, hi, n)` has exactly `n` samples, the first is `lo`, and with two or more samples the last is `hi` (endpoint included) |
| `NumPy.LinSpaceStep` | general/GPI/B0driftCorr_GPI.py:62 | consecutive samples differ by the constant step `(hi - lo) / (n - 1)` |
| `NumPy.LinSpaceMonotone` | general/GPI/B0driftCorr_GPI.py:62 | for `lo <= hi` a later sample of the drift series is never below an earlier one |
| `NumPy.LinSpaceBetween` | general/GPI/B0driftCorr_GPI.py:62 | for `lo <= hi` the samples never decrease and all lie in `[lo, hi]` |
| `NumPy.Map` | general/GPI/B0driftCorr_GPI.py:66 | a vectorised elementwise operation keeps the length and applies the operation to each element at the same position |
| `NumPy.AMax` | general/GPI/ComputeT2star_GPI.py:79 | `np.amax` of a non-empty vector is one of its elements and no element exceeds it |
| `B0DriftCorr.Validate` | general/GPI/B0driftCorr_GPI.py:37-49 | validate returns 1 exactly when the correction dynamic exceeds the total dynamics, and 0 otherwise (equality passes) |
| `B0DriftCorr.Compute` | general/GPI/B0driftCorr_GPI.py:51-71 | nothing is set exactly when the toggle is off; the run raises exactly when the toggle is on and `corr_dyn - 1` is not a legal subscript of the series; a published map has the input's length and each voxel is the input voxel minus the selected series value |
| `B0DriftCorr.SelectionAfterValidation` | general/GPI/B0driftCorr_GPI.py:42-65 | once validate passes and `corr_dyn >= 0`, the subscript `corr_dyn - 1` is legal exactly when `total_dyns > 0`, and it selects position `corr_dyn - 1`, or the last position for `corr_dyn = 0` |
| `B0DriftCorr.PublishedIsUniformShift` | general/GPI/B0driftCorr_GPI.py:59-69 | a published map comes only from a run with the toggle on, at least one dynamic and an accepted correction dynamic; it has the input's shape and is the input shifted by one drift value taken from the series |
| `B0DriftCorr.ToggleOffPublishesNothing` | general/GPI/B0driftCorr_GPI.py:59-69 | with the toggle off a run is either refused or sets nothing |
| `B0DriftCorr.BeyondTotalIsRefused` | general/GPI/B0driftCorr_GPI.py:42-44 | a correction dynamic beyond the total is refused before compute, whatever the toggle |
| `B0DriftCorr.FirstDynamicRemovesMinimum` | general/GPI/B0driftCorr_GPI.py:62-66 | `corr_dyn = 1` subtracts `f0_min` from every voxel |
| `B0DriftCorr.LastDynamicRemovesMaximum` | general/GPI/B0driftCorr_GPI.py:42-66 | `corr_dyn = total_dyns` passes validate and subtracts `f0_max`, except with one dynamic, where it subtracts `f0_min` |
| `B0DriftCorr.DefaultDynamicActsAsLast` | general/GPI/B0driftCorr_GPI.py:29-65 | the widget default `corr_dyn = 0` passes validate and gives the same outcome as `corr_dyn = total_dyns` (subscript `-1` is the last dynamic) |
| `B0DriftCorr.NoDynamicsCannotSelect` | general/GPI/B0driftCorr_GPI.py:28-65 | with `total_dyns = 0` and `corr_dyn = 0`, validate passes but the empty series raises at subscript `-1` |
| `B0DriftCorr.AcceptedRunPublishes` | general/GPI/B0driftCorr_GPI.py:42-69 | within the widget ranges and with the toggle on, a run publishes exactly when `corr_dyn <= total_dyns` and `total_dyns >= 1`; it raises exactly when both are 0 |
| `B0DriftCorr.CorrectionTwice` | general/GPI/B0driftCorr_GPI.py:66 | correcting the corrected map subtracts the drift again (twice the drift in all); for a non-zero drift and a non-empty map this differs from correcting once |
| `B0DriftCorr.ValidateIntended` | general/GPI/B0driftCorr_GPI.py:42 | the intended guard yields 0 or 1 and passes exactly when `1 <= corr_dyn <= total_dyns` |
| `B0DriftCorr.IntendedSelectsDynamic` | general/GPI/B0driftCorr_GPI.py:42-66 | under the intended guard `1 <= corr_dyn <= total_dyns` a zero dynamic or an empty series is refused, and every accepted run subtracts exactly the `corr_dyn`-th (1-based) drift sample |
| `ComputeT2star.Validate` | general/GPI/ComputeT2star_GPI.py:38-46 | validate returns 1 exactly when data is present and its rank is neither 3 nor 4; absent data returns 0 |
| `ComputeT2star.UnpackShape` | general/GPI/ComputeT2star_GPI.py:56 | `e, z, y, x = data.shape` succeeds exactly for rank 4, and the four extents are the shape in order |
| `ComputeT2star.AcceptedShapeUnpacks` | general/GPI/ComputeT2star_GPI.py:42-56 | an input validate accepts gets past the unpacking exactly when its rank is 4; every accepted 3-D input fails there |
| `ComputeT2star.ValidateIntended` | general/GPI/ComputeT2star_GPI.py:42 | the rank-4 guard yields 0 or 1 and refuses exactly the present inputs whose rank is not 4 |
| `ComputeT2star.IntendedValidationUnpacks` | general/GPI/ComputeT2star_GPI.py:56 | the rank-4 guard accepts a present input exactly when it can be unpacked |
| `ComputeT2star.OutputMapsFollowSpatialShape` | general/GPI/ComputeT2star_GPI.py:56-60 | the `T2star` and `fitcov` maps of an unpacked input have its spatial shape `(z, y, x)` and hold only zeros |
| `ComputeT2star.LoopOver` | general/GPI/ComputeT2star_GPI.py:66-67 | the loop `TE_arr[i] = TE_arr[i-1] + deltaTE` never changes the array's length when it completes |
| `ComputeT2star.BuildSchedule` | general/GPI/ComputeT2star_GPI.py:57-67 | filling `TE_arr` in an array (zeros, `TE_arr[0] = TE1`, then the loop over the given indices with Python subscripts) ends exactly as the specification function `ScheduleOutcome` says: the same array, or the same IndexError at the same subscript with the same partial contents |
| `ComputeT2star.IntendedSchedule` | general/GPI/ComputeT2star_GPI.py:57-58 | the intended schedule has one entry per echo (the length of `np.zeros(echoes)`) and starts at `TE1` |
| `ComputeT2star.IntendedScheduleStep` | general/GPI/ComputeT2star_GPI.py:67 | each entry of the intended schedule is its predecessor plus `deltaTE`, the step the loop body writes |
| `ComputeT2star.LiteralLoopNeverCompletes` | general/GPI/ComputeT2star_GPI.py:57-67 | iterating the tuple `(2, echoes)` always raises at subscript `echoes`; at that point `TE_arr[0] = TE1`, `TE_arr[1]` is still 0, `TE_arr[2]` (if present) is `deltaTE`, and all else is 0 |
| `ComputeT2star.LiteralDiffersFromIntended` | general/GPI/ComputeT2star_GPI.py:57-67 | with two or more echoes and `TE1` or `deltaTE` positive, the array left by the literal loop differs from the intended schedule at index 1 |
| `ComputeT2star.ExtendSchedule` | general/GPI/ComputeT2star_GPI.py:67 | writing `TE_arr[k-1] + deltaTE` at `k` extends a prefix that agrees with the intended schedule by one entry |
| `ComputeT2star.RangeLoopCompletes` | general/GPI/ComputeT2star_GPI.py:66-67 | iterating `range(k, n)` over an array whose first `k` entries follow `TE1 + i*deltaTE` completes it to the intended schedule |
| `ComputeT2star.RangeLoopBuildsIntended` | general/GPI/ComputeT2star_GPI.py:57-67 | with at least one echo, iterating `range(1, echoes)` builds exactly the intended schedule |
| `ComputeT2star.BuildScheduleAsWritten` | general/GPI/ComputeT2star_GPI.py:57-67 | the node's own construction never completes: it raises at subscript `echoes`, leaving `TE_arr[1] = 0` and `TE_arr[2] = deltaTE` |
| `ComputeT2star.BuildScheduleIntended` | general/GPI/ComputeT2star_GPI.py:57-67 | the construction with `range(1, echoes)` returns the intended schedule for every echo count of at least 1, and raises at subscript 0 when there are no echoes |
| `ComputeT2star.IntendedPairOrder` | general/GPI/ComputeT2star_GPI.py:67 | for a non-negative `deltaTE`, entry `i <= j` is at most entry `j`, and strictly below it exactly when `i < j` and `deltaTE > 0` |
| `ComputeT2star.IntendedScheduleOrder` | general/GPI/ComputeT2star_GPI.py:27-30 | within the widget ranges the intended schedule is non-negative and non-decreasing; with two or more echoes it is strictly increasing exactly when `deltaTE > 0` |
| `ComputeT2star.InitialGuess` | general/GPI/ComputeT2star_GPI.py:77-79 | the initial guess exists exactly for a non-empty echo vector; its T2\* is 30.0 and its S0 is one of the samples and at least every sample |

## Left out

- The nonlinear least-squares fit is not modelled. This covers `curve_fit` with the `'lm'` method, the forward model `a*sin(...)*exp(-x/b)` (general/GPI/ComputeT2star_GPI.py:63-64, 80) and the unpacking of its result. These are a foreign library call and transcendental floating-point numerics.
- The voxel loop (general/GPI/ComputeT2star_GPI.py:74-78) is not modelled. As written it iterates over integers (`for k in z`). Only its per-voxel initial guess is modelled.
- Line 59 of general/GPI/ComputeT2star_GPI.py calls `zeros` without the `np.` prefix. As written this raises a NameError before the echo-time loop is reached. The model reads it as `np.zeros`, the way line 60 reads, and studies the loop on its own.
- The flip-angle lookup (general/GPI/ComputeT2star_GPI.py:53) uses a key that no widget has. It runs before the shape unpacking (line 56) and the `TE_arr` construction (lines 57-67), so if it fails, compute stops before anything the model studies. The model reads line 53 as not failing; its value only feeds the fit.
- Lines 40 and 50 of general/GPI/ComputeT2star_GPI.py read the `mgedat` input with the widget accessor `getVal`, while the B0 node reads its ports with `getData` (general/GPI/B0driftCorr_GPI.py:38, 52). The model reads both lines as the port's array: `ComputeT2star.Validate`, `ComputeT2star.UnpackShape` and `ComputeT2star.BuildScheduleAsWritten` take that array's shape. As written, compute may stop at line 50 or 53, before line 56.
- The optional `mask` input is declared but never used. Nothing in the code is concurrent. No masking, parallelism or failure sentinel is claimed.
- general/GPI/Preprocess_GPI.py is not part of this model. It picks the `BNIspiral` sub-dictionary of its header input and, depending on a widget, writes the `spINOUT_ON` flag into it; it also writes a fixed `RES_CM` value into its parameter input. Both writes go into the caller's dictionaries in place (general/GPI/Preprocess_GPI.py:57-62). It has no logic worth a contract.
- The GPI framework surface is not modelled: widgets, ports, `getVal`/`getData`/`setData`, `execType`, logging and `print`. Widget values are parameters, and publishing on the output port is the `Published` outcome.
- Floating-point rounding in `linspace` and the subtraction is not modelled, and neither is the float32/double distinction. `np.int`, an alias that NumPy has removed, is read as plain integer conversion. `np.double` is read as the identity.
- The B0 map and the output maps are modelled as flat or nested sequences, not as NumPy arrays with a shape attribute. A NumPy array is fully described by its shape and row-major contents, so only the representation changes.
- ComputeT2star.LoopOver: its own contract states only that a completed loop keeps the array's length. What the loop leaves behind is proved about it in `ComputeT2star.LiteralLoopNeverCompletes` and `ComputeT2star.RangeLoopCompletes`.

## Findings

| source | as written | input that shows it | evidently intended | confidence | as-written member | corrected member |
|---|---|---|---|---|---|---|
| general/GPI/ComputeT2star_GPI.py:66 | `for i in (2,echoes)` iterates a two-element tuple instead of a range | `echoes = 5`: `TE_arr[2]` becomes `deltaTE`, `TE_arr[1]` stays 0, then `TE_arr[5]` raises IndexError | iterate `range(1, echoes)`, giving `TE1 + i*deltaTE` | high, not executed | `ComputeT2star.LiteralLoopNeverCompletes` | `ComputeT2star.RangeLoopBuildsIntended` |
| general/GPI/B0driftCorr_GPI.py:42 | validate only refuses `corr_dyn > total_dyns` | `corr_dyn = 0` (the default) with `total_dyns = 200` silently corrects with the last drift value; `total_dyns = 0` with `corr_dyn = 0` passes and then raises IndexError at line 65 | refuse unless `1 <= corr_dyn <= total_dyns` | medium, not executed | `B0DriftCorr.DefaultDynamicActsAsLast` | `B0DriftCorr.IntendedSelectsDynamic` |
| general/GPI/ComputeT2star_GPI.py:42 | validate accepts rank 3 and rank 4 | a 3-D input of shape `(10, 64, 64)` passes validate, then raises ValueError when unpacked at line 56 | guard and compute must agree on the rank. The model's correction accepts rank 4 only, since compute has no 3-D path. The docstring (general/GPI/ComputeT2star_GPI.py:12) promises 3-D input with echoes in the last dimension, so adding a 3-D path to compute is an equally plausible fix; line 56, unlike the docstring, unpacks `e` first | medium, not executed | `ComputeT2star.AcceptedShapeUnpacks` | `ComputeT2star.IntendedValidationUnpacks` |

# Spline to Gaussians: a verified model of the fitting core

The two scripts `spline2gaussians-leastsquares.py` and `spline2gaussians.py`
approximate a pair potential u(r) by a sum of signed Gaussians
B_i exp(-K_i r^2). The potential is given as a cubic spline over [0, rcut].
Each script:

1. samples the spline on a radial grid;
2. (least-squares script only) replaces the hard core with a linear wall.
   The anchor is the sample just after the last one above
   MaxPairEne = kB * TempSet * MaxPairEnekBT (20 by default). Every sample
   before the anchor is overwritten by the tangent line at the anchor, even
   one at or below the threshold that lies between flagged samples. The
   derivative is replaced by the anchor's only at the flagged samples;
3. weights every sample by its normalised Boltzmann factor
   exp(-u) / sum(exp(-u));
4. fits the parameter vector [B_0, K_0, B_1, K_1, ...] by bounded least
   squares on the weighted residual w * (u_gauss - u_spline). Even-numbered
   Gaussians are repulsive (B >= 0), odd-numbered ones attractive (B <= 0),
   and K >= 0. The least-squares script caps a repulsive B at the curve
   maximum u_max; the other script leaves it uncapped.

The fit runs in one of two modes:

- staged (the default): one solve for every term count 1..n. The first seed
  is [u_max, 1]. Each later seed is the previous optimum followed by [0, 0].
- single-shot: one solve from a caller-supplied vector, which must hold
  exactly 2n values.

The model is split into these modules:

- `Common`: result types, error kinds, extended reals, sums and maxima.
- `PotentialCurve`: sampling, and the in-place hard-core correction on two
  arrays.
- `GaussianMixture`: the mixture, its evaluation loop and the residual.
- `Boltzmann`: the weights.
- `BoundsPolicy`: the parity bounds, as a function and as the list-building
  loop.
- `StagedFitter`: the staged loop, the single-shot path and the mode switch.
- `LeastSquaresScript` and `PlainScript`: the two scripts end to end.

Four things are inputs rather than modelled code:

- The spline evaluator: its value and its derivative are functions of the
  radius.
- The exponential: only its positivity is used.
- The least-squares solver: the only assumption is that it returns a vector
  as long as its initial guess, stated as the subset type `Solver`.
- The grid `np.linspace(0, rcut, N)`: a sequence of radii.

Every exception that the scripts' own code raises is a `FitError`. The
solver's own errors are not among them (see Left out).

- `AnchorBeyondGrid`: the last sample is above the threshold, so
  `rs[i]` at line 74 indexes past the grid.
- `EmptyGrid`: `np.max` of an empty curve.
- `NeedInitialValues` and `WrongNumberOfInitialValues`: the two raised
  exceptions of single-shot mode.
- `NoStagesRun`: staged mode with n <= 0. No stage runs, so `xopt` is never
  bound and the final `getUgauss(xopt, rs, n)` fails with a NameError.
- `FloatAsRange`: the float handed to `range` in `spline2gaussians.py`. Only
  the as-written count returns it; the drivers use the corrected count. See
  Findings and Left out.

Neither script checks its configuration: n <= 0, an empty knot list, and
a non-positive cutoff or sample count are not rejected up front. Neither
script detects degenerate weights (all near zero or not finite) either.
The model follows the code, so n <= 0 is never rejected as such. In staged
mode it fails only through the unbound `xopt` (NoStagesRun). In single-shot
mode n < 0 always fails the length check (WrongNumberOfInitialValues), and
n = 0 passes only with an empty vector.

## Model

| member | source | states |
|---|---|---|
| Common.Max | spline2gaussians-leastsquares.py:87 | u_max is a sample of the curve and no sample exceeds it |
| Common.SumOfPositives | spline2gaussians-leastsquares.py:81 | the partition function sum(exp(-u)) of a non-empty curve is positive, so the division in weight is defined |
| Common.SumScale | spline2gaussians-leastsquares.py:81 | dividing every entry by z divides the sum by z |
| PotentialCurve.Sample | spline2gaussians-leastsquares.py:60-65 | the sampling loop yields the spline value at every grid point, in grid order |
| PotentialCurve.DefaultThresholdIsTwenty | spline2gaussians-leastsquares.py:55-67 | with the defaults kB = 1 and TempSet = 1 the threshold MaxPairEne is MaxPairEnekBT, 20 |
| PotentialCurve.Where | spline2gaussians-leastsquares.py:69 | np.where(u > MaxPairEne): exactly the indices of samples above the threshold, in increasing order |
| PotentialCurve.ExtrapolateWall | spline2gaussians-leastsquares.py:74 | the slice assignment overwrites u[:i] with the line through (rs[i], u[i]) of slope du[i] and leaves u[i:] alone |
| PotentialCurve.CopyAnchorDerivative | spline2gaussians-leastsquares.py:75-76 | every flagged derivative becomes du[i] and every other derivative is kept |
| PotentialCurve.CorrectHardCore | spline2gaussians-leastsquares.py:67-77 | raises (arrays untouched) exactly when the last sample is above the threshold; otherwise the arrays end as the hard-core correction of their old contents |
| PotentialCurve.GetUspline | spline2gaussians-leastsquares.py:55-77 | fails exactly when the hard core reaches the cutoff; otherwise returns the correction of the sampled value and derivative curves |
| PotentialCurve.LastFlaggedIsLastAbove | spline2gaussians-leastsquares.py:71-72 | i = ind[-1] + 1 is the first index after which no sample exceeds the threshold |
| PotentialCurve.NothingAboveLeavesCurve | spline2gaussians-leastsquares.py:70 | with no sample above the threshold the curve and its derivative are unchanged |
| PotentialCurve.CorrectionClearsTrustedRegion | spline2gaussians-leastsquares.py:72-74 | from the anchor on every corrected sample is the original one and at most the threshold |
| PotentialCurve.CorrectionIsTangentWall | spline2gaussians-leastsquares.py:73-74 | below the anchor the curve is the tangent line at the anchor; the anchor's value and derivative are kept |
| PotentialCurve.FlaggedDerivativesTakeAnchor | spline2gaussians-leastsquares.py:75-76 | a derivative is replaced by the anchor's exactly where the sample was above the threshold |
| GaussianMixture.EvaluateMixture | spline2gaussians-leastsquares.py:47-53 | the accumulation loop gives the sum of the first n Gaussians at every grid point |
| GaussianMixture.ZeroAmplitudesGiveZeroCurve | spline2gaussians-leastsquares.py:47-53 | with every amplitude B zero the mixture is the zero curve |
| GaussianMixture.MixtureReadsPrefix | spline2gaussians-leastsquares.py:49-51 | n terms read only the first 2n parameters |
| GaussianMixture.AppendedZeroTermChangesNothing | spline2gaussians-leastsquares.py:126-127 | appending the term [0, 0] to an n-term vector leaves the curve unchanged |
| GaussianMixture.GaussianCount | spline2gaussians-leastsquares.py:43 | int(len(x)/2) is the largest n with 2n <= len(x) |
| GaussianMixture.Residual | spline2gaussians-leastsquares.py:41-45 | obj is w * (mixture - target) pointwise, and a residual with non-zero weight vanishes exactly where the mixture meets the target |
| GaussianMixture.WarmSeedReproducesFit | spline2gaussians-leastsquares.py:41-45 | obj sees the same curve at a warm-started seed as at the previous optimum |
| GaussianMixture.TrueDivide | spline2gaussians.py:34 | Python 3's `/` on two ints yields a float, the exact quotient |
| GaussianMixture.GaussianCountAsWritten | spline2gaussians.py:34-40 | the count len(x)/2 handed to range fails for every x |
| GaussianMixture.StageZeroSeedRejectedAsWritten | spline2gaussians.py:34-40 | the stage-0 seed [u_max, 1] is rejected as written; the corrected count gives one term |
| Boltzmann.BoltzmannFactors | spline2gaussians-leastsquares.py:80 | exp(-u) has one positive factor per sample |
| Boltzmann.Weights | spline2gaussians-leastsquares.py:79-82 | one positive weight per sample, summing to 1 on a non-empty curve |
| Boltzmann.WeightsProportional | spline2gaussians-leastsquares.py:79-82 | any two weights stand in the ratio of their Boltzmann factors |
| Common.ScaleKeepsOrder | spline2gaussians-leastsquares.py:81 | dividing by the positive partition function keeps the order of the factors |
| Boltzmann.WeightsFollowFactors | spline2gaussians-leastsquares.py:79-82 | a smaller Boltzmann factor never gets a larger weight |
| BoundsPolicy.Bounds | spline2gaussians-leastsquares.py:91-102 | the bounds of n terms hold 2n lower and 2n upper entries |
| BoundsPolicy.GetBounds | spline2gaussians-leastsquares.py:91-102 | the list-building loop produces the component-wise parity bounds |
| BoundsPolicy.TermBox | spline2gaussians-leastsquares.py:96-101 | term i is boxed in [0, u_max] x [0, inf) when i is even and (-inf, 0] x [0, inf) when odd |
| BoundsPolicy.BoundsPrefix | spline2gaussians-leastsquares.py:117-118 | the bounds of m terms are a prefix of those of n >= m terms |
| BoundsPolicy.BoxesOpen | spline2gaussians-leastsquares.py:94-98 | every interval is non-degenerate exactly when the repulsive cap is absent or u_max > 0 |
| BoundsPolicy.FirstSeedWithin | spline2gaussians-leastsquares.py:118-120 | the first seed [u_max, 1] lies in the one-term box exactly when u_max >= 0 |
| BoundsPolicy.WarmSeedWithin | spline2gaussians-leastsquares.py:118-127 | a previous optimum inside its box gives a warm seed inside the next box |
| StagedFitter.FirstSeed | spline2gaussians-leastsquares.py:119-120 | the first seed is [u_max, 1], and it lies in the one-term box of either script exactly when u_max >= 0 |
| StagedFitter.WarmSeed | spline2gaussians-leastsquares.py:126-127 | the warm seed is the previous optimum followed by [0, 0] |
| StagedFitter.StagedFit | spline2gaussians-leastsquares.py:116-135 | one stage per term count 1..n, each with the bounds of i+1 terms, the first or warm seed and the solver's answer; the result is the last optimum (2n values), or NoStagesRun when n <= 0 |
| StagedFitter.ExtendTrace | spline2gaussians-leastsquares.py:117-132 | appending the next stage keeps every earlier stage valid |
| StagedFitter.SingleShotFit | spline2gaussians-leastsquares.py:137-148 | a missing or wrong-length initial vector is rejected; otherwise one solve from it in the bounds of n terms |
| StagedFitter.Fit | spline2gaussians-leastsquares.py:116-148 | the mode switch: succeeds exactly when staged with n > 0, or single-shot with a 2n-value vector, and returns 2n parameters |
| StagedFitter.FitTarget | spline2gaussians-leastsquares.py:85-89 | an empty curve fails at np.max; otherwise the fit runs with the curve's weights and maximum |
| LeastSquaresScript.FitSpline | spline2gaussians-leastsquares.py:85-148 | the hard-core corrected spline is the target; bounds are capped at its maximum |
| PlainScript.FitSpline | spline2gaussians.py:73-114 | the raw sampled spline is the target and repulsive amplitudes are uncapped; the objective uses the corrected Gaussian count |
| PotentialCurve.Sampled | spline2gaussians.py:75-78 | the target curve has one sample per grid point |

## Left out

- PlainScript.FitSpline: models spline2gaussians.py with the corrected Gaussian count `int(len(x)/2)`. As written, the script raises TypeError the first time `least_squares` (lines 97 and 113) evaluates `obj`, because `range(len(x)/2)` rejects a float. That happens whenever a solve would run. The as-written behaviour is `GaussianMixture.GaussianCountAsWritten` (see Findings), and no driver returns `FloatAsRange`.
- Argument parsing (argparse and the regular-expression split of the knots and of `-x0`) is not modelled. The knots only reach the spline, and `-x0` reaches the model as a parsed vector.
- The spline evaluator (`spline.Spline`, its `Val` and `DVal`) is not part of this model. Its value and derivative are function inputs.
- The least-squares solver is abstract. The model does not capture its convergence or its cost. It does not capture its own ValueErrors either: a degenerate box (lower not below upper, which happens for u_max <= 0 in the capped script) or a seed outside the box. Nor does it say whether the optimum lies in the box. `BoxesOpen`, `FirstSeedWithin` and `WarmSeedWithin` state when those solver preconditions hold.
- Floating point is not modelled: rounding, overflow and NaN are absent, and reals are exact. The exponential is any positive function, so the model does not capture that numpy's `exp` can underflow to 0 and make the weights 0/0.
- The grid `np.linspace(0, rcut, N)` is an input. The model does not assume it is increasing or evenly spaced.
- Printing, plotting and the final curve plot (lines 103-114 and 154-164; spline2gaussians.py lines 60-71 and 120-130) are left out. So is the reported cost (`gauss.cost` in one script, `gauss.fun[0]` in the other).
- StagedFitter.InitialGuess: `Missing` stands for both an absent `-x0` and an empty string. The source raises a TypeError from `len(None)` for the first and the "Need initial values" exception for the second. Both are modelled as NeedInitialValues.
- Boltzmann.WeightsFollowFactors: stated relative to the Boltzmann factors, not the energies, because the exponential's monotonicity is not assumed.
- `weight` takes the grid `rs` as an argument but never uses it, so the model drops that argument.
- In staged mode `-x0` is ignored, as in the source.

## Findings

| source | as written | input that shows it | evidently intended | confidence | as-written member | corrected member |
|---|---|---|---|---|---|---|
| spline2gaussians.py:34 | `n = len(x)/2` is Python 3 true division, so n is a float. `range(n)` in getU (line 40) then raises TypeError for every parameter vector, so no fit can run | the stage-0 seed [u_max, 1.0]: len 2 gives n = 1.0 | integer division, `int(len(x)/2)` as in spline2gaussians-leastsquares.py:43 | high, not executed | GaussianMixture.GaussianCountAsWritten | GaussianMixture.GaussianCount |

/** The two entry points, minus argument parsing, printing and plotting:
    build the target curve, its weights and its maximum on the grid, then fit.
    The grid (np.linspace(0, rcut, N)) and the spline built from the knots
    are inputs. */
module LeastSquaresScript {
  import opened Common
  import opened PotentialCurve
  import opened Boltzmann
  import opened BoundsPolicy
  import opened StagedFitter

  /** spline2gaussians-leastsquares.py: the target is the hard-core corrected
      spline, the weights and u_max come from it, and repulsive amplitudes are
      capped at u_max. */
  method FitSpline(rs: seq<real>, val: real -> real, dval: real -> real, n: int, staged: bool,
                   x0: InitialGuess, solve: Solver, exp: real -> Positive)
    returns (r: Result<seq<real>, FitError>, u: seq<real>, du: seq<real>, trace: seq<Stage>)
    ensures HardCoreReachesCutoff(Sampled(rs, val), DefaultThreshold) ==> r == Failure(AnchorBeyondGrid)
    ensures !HardCoreReachesCutoff(Sampled(rs, val), DefaultThreshold) ==>
      IsHardCoreCorrection(rs, Sampled(rs, val), Sampled(rs, dval), DefaultThreshold, u, du)
    ensures !HardCoreReachesCutoff(Sampled(rs, val), DefaultThreshold) && |rs| == 0 ==> r == Failure(EmptyGrid)
    ensures !HardCoreReachesCutoff(Sampled(rs, val), DefaultThreshold) && |rs| > 0 ==>
      |u| == |rs| &&
      FitOutcome(FitProblem(Weights(u, exp), rs, u), CappedAtMaximum, Max(u), n, staged, x0, solve, r, trace)
    ensures r.Success? ==> |r.value| == 2 * n
  {
    var curve := GetUspline(rs, val, dval, DefaultThreshold);
    if curve.Failure? {
      return Failure(curve.error), [], [], [];
    }
    u, du := curve.value.0, curve.value.1;
    r, trace := FitTarget(rs, u, CappedAtMaximum, n, staged, x0, solve, exp);
  }
}

module PlainScript {
  import opened Common
  import opened PotentialCurve
  import opened Boltzmann
  import opened BoundsPolicy
  import opened StagedFitter

  /** spline2gaussians.py: the target is the raw sampled spline (no hard-core
      correction), u_max is its raw maximum, and repulsive amplitudes are not
      capped. The solver's objective is taken with the corrected Gaussian
      count (GaussianMixture.GaussianCount); as written the script's count is
      a float that range() rejects (GaussianMixture.GaussianCountAsWritten). */
  method FitSpline(rs: seq<real>, val: real -> real, n: int, staged: bool,
                   x0: InitialGuess, solve: Solver, exp: real -> Positive)
    returns (r: Result<seq<real>, FitError>, u: seq<real>, trace: seq<Stage>)
    ensures u == Sampled(rs, val)
    ensures |rs| == 0 ==> r == Failure(EmptyGrid)
    ensures |rs| > 0 ==>
      FitOutcome(FitProblem(Weights(u, exp), rs, u), Unbounded, Max(u), n, staged, x0, solve, r, trace)
    ensures r.Success? ==> |r.value| == 2 * n
  {
    u := Sample(rs, val);
    r, trace := FitTarget(rs, u, Unbounded, n, staged, x0, solve, exp);
  }
}

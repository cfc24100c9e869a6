/** The fitting driver of both scripts: in staged mode one solver call per
    term count 1..n, each warm-started from the previous optimum; in
    single-shot mode one solver call from a caller-supplied vector. */
module StagedFitter {
  import opened Common
  import opened BoundsPolicy
  import opened Boltzmann

  /** What the objective is computed from: weights, grid and target curve
      (the extra arguments handed to the solver alongside obj). */
  datatype FitProblem = FitProblem(weights: seq<real>, grid: seq<real>, target: seq<real>)

  /** The bounded least-squares solver, seen only through the one property the
      fit relies on: it returns a vector as long as its initial guess. That
      property is an assumption about the external solver. */
  type Solver = solve: (FitProblem, seq<real>, Box) -> seq<real>
    | forall p, x0, b :: |solve(p, x0, b)| == |x0|
    witness (p: FitProblem, x0: seq<real>, b: Box) => x0

  /** One solver call: its box, its initial guess and the optimum it returned. */
  datatype Stage = Stage(box: Box, seed: seq<real>, optimum: seq<real>)

  /** The seed of the first stage: B = u_max, K = 1. */
  function FirstSeed(uMax: real): (x0: seq<real>)
    ensures |x0| == 2 && x0[0] == uMax && x0[1] == 1.0
    ensures Within(x0, Bounds(RepulsiveCap.Unbounded, uMax, 1)) <==> uMax >= 0.0
    ensures Within(x0, Bounds(CappedAtMaximum, uMax, 1)) <==> uMax >= 0.0
  {
    FirstSeedWithin(RepulsiveCap.Unbounded, uMax);
    FirstSeedWithin(CappedAtMaximum, uMax);
    [uMax, 1.0]
  }

  /** The seed of a later stage: the previous optimum with a new term [0, 0]. */
  function WarmSeed(previous: seq<real>): (x0: seq<real>)
    ensures |x0| == |previous| + 2
    ensures x0[..|previous|] == previous && x0[|previous|] == 0.0 && x0[|previous| + 1] == 0.0
  {
    previous + [0.0, 0.0]
  }

  /** Stage k of a trace is what the staged loop runs at step k: the bounds of
      k+1 terms, the first or the warm-started seed, and the solver's answer. */
  predicate StageFollows(problem: FitProblem, cap: RepulsiveCap, uMax: real, solve: Solver,
                         trace: seq<Stage>, k: nat)
    requires k < |trace|
  {
    trace[k].box == Bounds(cap, uMax, k + 1) &&
    trace[k].seed == (if k == 0 then FirstSeed(uMax) else WarmSeed(trace[k - 1].optimum)) &&
    trace[k].optimum == solve(problem, trace[k].seed, trace[k].box)
  }

  /** The staged loop: for stage i = 0 .. n-1 build the bounds of i+1 terms,
      seed, solve, and keep the optimum for the next stage. */
  method StagedFit(problem: FitProblem, cap: RepulsiveCap, uMax: real, n: int, solve: Solver)
    returns (r: Result<seq<real>, FitError>, trace: seq<Stage>)
    ensures |trace| == if n > 0 then n else 0
    ensures forall i :: 0 <= i < |trace| ==> StageFollows(problem, cap, uMax, solve, trace, i)
    ensures forall i :: 0 <= i < |trace| ==>
      |trace[i].seed| == |trace[i].box.lower| == |trace[i].optimum| == 2 * (i + 1)
    ensures r == if n > 0 then Success(trace[n - 1].optimum) else Failure(NoStagesRun)
    ensures r.Success? ==> |r.value| == 2 * n
  {
    var stages: nat := if n > 0 then n else 0;
    var xopt: seq<real> := [];
    trace := [];
    for i := 0 to stages
      invariant |trace| == i
      invariant |xopt| == 2 * i
      invariant i > 0 ==> xopt == trace[i - 1].optimum
      invariant forall k :: 0 <= k < i ==> StageFollows(problem, cap, uMax, solve, trace, k)
      invariant forall k :: 0 <= k < i ==>
        |trace[k].seed| == |trace[k].box.lower| == |trace[k].optimum| == 2 * (k + 1)
    {
      var box := GetBounds(cap, uMax, i + 1);
      var x0 := if i == 0 then FirstSeed(uMax) else WarmSeed(xopt);
      xopt := solve(problem, x0, box);
      ExtendTrace(problem, cap, uMax, solve, trace, Stage(box, x0, xopt));
      trace := trace + [Stage(box, x0, xopt)];
    }
    if stages == 0 {
      return Failure(NoStagesRun), trace;
    }
    r := Success(xopt);
  }

  /** Appending the stage that follows a trace keeps every earlier stage. */
  lemma ExtendTrace(problem: FitProblem, cap: RepulsiveCap, uMax: real, solve: Solver,
                    trace: seq<Stage>, next: Stage)
    requires forall k :: 0 <= k < |trace| ==> StageFollows(problem, cap, uMax, solve, trace, k)
    requires StageFollows(problem, cap, uMax, solve, trace + [next], |trace|)
    ensures forall k :: 0 <= k <= |trace| ==> StageFollows(problem, cap, uMax, solve, trace + [next], k)
  {
    forall k | 0 <= k < |trace|
      ensures StageFollows(problem, cap, uMax, solve, trace + [next], k)
    {
      assert StageFollows(problem, cap, uMax, solve, trace, k);
      assert (trace + [next])[k] == trace[k];
      assert k > 0 ==> (trace + [next])[k - 1] == trace[k - 1];
    }
  }

  /** The initial vector of single-shot mode: absent (or empty), or given. */
  datatype InitialGuess = Missing | Given(values: seq<real>)

  /** Single-shot mode: reject a missing initial vector or one whose length is
      not 2n, otherwise solve once in the bounds of n terms. */
  function SingleShotFit(problem: FitProblem, cap: RepulsiveCap, uMax: real, n: int,
                         x0: InitialGuess, solve: Solver): (r: Result<Stage, FitError>)
    ensures x0.Missing? ==> r == Failure(NeedInitialValues)
    ensures x0.Given? && |x0.values| != 2 * n ==> r == Failure(WrongNumberOfInitialValues)
    ensures r.Success? <==> x0.Given? && |x0.values| == 2 * n
    ensures r.Success? ==>
      r.value.seed == x0.values && r.value.box == Bounds(cap, uMax, n) &&
      |r.value.optimum| == |r.value.box.lower| == 2 * n &&
      r.value.optimum == solve(problem, x0.values, r.value.box)
  {
    match x0
    case Missing => Failure(NeedInitialValues)
    case Given(values) =>
      if |values| != 2 * n then Failure(WrongNumberOfInitialValues)
      else
        var box := Bounds(cap, uMax, n);
        Success(Stage(box, values, solve(problem, values, box)))
  }

  /** What a fitting run returns: in staged mode the trace of the staged loop
      and its last optimum, in single-shot mode the one stage SingleShotFit
      gives, or the error either mode raises. */
  predicate FitOutcome(problem: FitProblem, cap: RepulsiveCap, uMax: real, n: int, staged: bool,
                       x0: InitialGuess, solve: Solver, r: Result<seq<real>, FitError>, trace: seq<Stage>)
  {
    if staged then
      |trace| == (if n > 0 then n else 0) &&
      (forall i :: 0 <= i < |trace| ==> StageFollows(problem, cap, uMax, solve, trace, i)) &&
      r == (if n > 0 then Success(trace[n - 1].optimum) else Failure(NoStagesRun))
    else
      match SingleShotFit(problem, cap, uMax, n, x0, solve)
      case Success(stage) => r == Success(stage.optimum) && trace == [stage]
      case Failure(e) => r == Failure(e) && trace == []
  }

  /** `if not args.nostage`: run the staged loop, otherwise one solver call. */
  method Fit(problem: FitProblem, cap: RepulsiveCap, uMax: real, n: int, staged: bool,
             x0: InitialGuess, solve: Solver)
    returns (r: Result<seq<real>, FitError>, trace: seq<Stage>)
    ensures FitOutcome(problem, cap, uMax, n, staged, x0, solve, r, trace)
    ensures r.Success? ==> |r.value| == 2 * n
    ensures r.Success? <==> if staged then n > 0 else x0.Given? && |x0.values| == 2 * n
  {
    if staged {
      r, trace := StagedFit(problem, cap, uMax, n, solve);
    } else {
      var single := SingleShotFit(problem, cap, uMax, n, x0, solve);
      match single
      case Success(stage) =>
        r, trace := Success(stage.optimum), [stage];
      case Failure(e) =>
        r, trace := Failure(e), [];
    }
  }

  /** The lines shared by both scripts once the target curve is known: its
      maximum (np.max, which rejects an empty curve), its weights, and the fit. */
  method FitTarget(rs: seq<real>, u: seq<real>, cap: RepulsiveCap, n: int, staged: bool,
                   x0: InitialGuess, solve: Solver, exp: real -> Positive)
    returns (r: Result<seq<real>, FitError>, trace: seq<Stage>)
    requires |u| == |rs|
    ensures |u| == 0 ==> r == Failure(EmptyGrid)
    ensures |u| > 0 ==> FitOutcome(FitProblem(Weights(u, exp), rs, u), cap, Max(u), n, staged, x0, solve, r, trace)
    ensures r.Success? ==> |r.value| == 2 * n
  {
    if |u| == 0 {
      return Failure(EmptyGrid), [];
    }
    var uMax := Max(u);
    var w := Weights(u, exp);
    r, trace := Fit(FitProblem(w, rs, u), cap, uMax, n, staged, x0, solve);
  }
}

/** The sum of signed Gaussians B_i * exp(-K_i * r^2) over a flattened
    parameter vector [B_0, K_0, B_1, K_1, ...] (getUgauss in
    spline2gaussians-leastsquares.py, getU in spline2gaussians.py), and the
    Boltzmann-weighted residual handed to the solver (obj in both files).
    The exponential is a parameter: only its positivity is assumed. */
module GaussianMixture {
  import opened Common

  /** B of term i. */
  function Amplitude(x: seq<real>, i: nat): real
    requires 2 * i < |x|
  {
    x[2 * i]
  }

  /** K of term i. */
  function InverseWidth(x: seq<real>, i: nat): real
    requires 2 * i + 1 < |x|
  {
    x[2 * i + 1]
  }

  /** One Gaussian term B * exp(-K * r^2) at radius r. */
  function Gaussian(b: real, k: real, r: real, exp: real -> Positive): real {
    b * exp(-k * r * r)
  }

  /** The first n terms of the mixture evaluated at radius r. */
  function Mixture(x: seq<real>, n: nat, r: real, exp: real -> Positive): real
    requires 2 * n <= |x|
  {
    if n == 0 then 0.0
    else Mixture(x, n - 1, r, exp) + Gaussian(Amplitude(x, n - 1), InverseWidth(x, n - 1), r, exp)
  }

  /** The loop of getUgauss: start from the zero curve and add one term per
      iteration, the term evaluated at every grid point at once. */
  method EvaluateMixture(x: seq<real>, rs: seq<real>, n: nat, exp: real -> Positive)
    returns (u: seq<real>)
    requires 2 * n <= |x|
    ensures |u| == |rs|
    ensures forall j :: 0 <= j < |rs| ==> u[j] == Mixture(x, n, rs[j], exp)
  {
    u := seq(|rs|, _ => 0.0);
    for i := 0 to n
      invariant |u| == |rs|
      invariant forall j :: 0 <= j < |rs| ==> u[j] == Mixture(x, i, rs[j], exp)
    {
      var b, k := x[2 * i], x[2 * i + 1];
      u := seq(|rs|, j requires 0 <= j < |rs| => u[j] + Gaussian(b, k, rs[j], exp));
    }
  }

  /** With every amplitude zero the mixture is the zero curve. */
  lemma {:induction false} ZeroAmplitudesGiveZeroCurve(x: seq<real>, n: nat, r: real, exp: real -> Positive)
    requires 2 * n <= |x|
    requires forall i :: 0 <= i < n ==> Amplitude(x, i) == 0.0
    ensures Mixture(x, n, r, exp) == 0.0
  {
    if n > 0 {
      ZeroAmplitudesGiveZeroCurve(x, n - 1, r, exp);
    }
  }

  /** The first n terms read only the first 2n parameters. */
  lemma {:induction false} MixtureReadsPrefix(x: seq<real>, y: seq<real>, n: nat, r: real, exp: real -> Positive)
    requires 2 * n <= |x| && 2 * n <= |y|
    requires x[..2 * n] == y[..2 * n]
    ensures Mixture(x, n, r, exp) == Mixture(y, n, r, exp)
  {
    if n > 0 {
      assert x[..2 * (n - 1)] == x[..2 * n][..2 * (n - 1)];
      assert y[..2 * (n - 1)] == y[..2 * n][..2 * (n - 1)];
      assert x[2 * n - 2] == x[..2 * n][2 * n - 2] && x[2 * n - 1] == x[..2 * n][2 * n - 1];
      assert y[2 * n - 2] == y[..2 * n][2 * n - 2] && y[2 * n - 1] == y[..2 * n][2 * n - 1];
      assert Amplitude(x, n - 1) == Amplitude(y, n - 1) && InverseWidth(x, n - 1) == InverseWidth(y, n - 1);
      MixtureReadsPrefix(x, y, n - 1, r, exp);
    }
  }

  /** Appending a term [B, K] = [0, 0] to an n-term vector gives the same curve:
      the warm-started seed of a stage reproduces the previous stage's fit. */
  lemma AppendedZeroTermChangesNothing(x: seq<real>, n: nat, r: real, exp: real -> Positive)
    requires |x| == 2 * n
    ensures Mixture(x + [0.0, 0.0], n + 1, r, exp) == Mixture(x, n, r, exp)
  {
    assert (x + [0.0, 0.0])[..2 * n] == x[..2 * n];
    MixtureReadsPrefix(x + [0.0, 0.0], x, n, r, exp);
    assert Amplitude(x + [0.0, 0.0], n) == 0.0;
  }

  /** The number of Gaussians in obj of spline2gaussians-leastsquares.py:
      int(len(x)/2), which for a length rounds down. */
  function GaussianCount(x: seq<real>): (n: nat)
    ensures 2 * n <= |x| < 2 * n + 2
  {
    |x| / 2
  }

  /** obj: the Boltzmann-weighted residual w * (u_gauss - u_spline) of the
      mixture with GaussianCount(x) terms against the target curve. */
  method Residual(x: seq<real>, w: seq<real>, rs: seq<real>, target: seq<real>, exp: real -> Positive)
    returns (res: seq<real>)
    requires |w| == |rs| == |target|
    ensures |res| == |rs|
    ensures forall j :: 0 <= j < |rs| ==>
      res[j] == w[j] * (Mixture(x, GaussianCount(x), rs[j], exp) - target[j])
    ensures forall j :: 0 <= j < |rs| && w[j] != 0.0 ==>
      (res[j] == 0.0 <==> Mixture(x, GaussianCount(x), rs[j], exp) == target[j])
  {
    var u := EvaluateMixture(x, rs, GaussianCount(x), exp);
    res := seq(|rs|, j requires 0 <= j < |rs| => w[j] * (u[j] - target[j]));
    forall j | 0 <= j < |rs| && w[j] != 0.0
      ensures res[j] == 0.0 <==> u[j] == target[j]
    {
      assert res[j] == w[j] * (u[j] - target[j]);
    }
  }

  /** The curve obj evaluates at a warm-started seed (an even-length previous
      optimum with [0, 0] appended) is the curve of the previous optimum, so
      by Residual's contract the two residual vectors are equal. */
  lemma WarmSeedReproducesFit(x: seq<real>, r: real, exp: real -> Positive)
    requires |x| % 2 == 0
    ensures Mixture(x + [0.0, 0.0], GaussianCount(x + [0.0, 0.0]), r, exp)
         == Mixture(x, GaussianCount(x), r, exp)
  {
    var n := GaussianCount(x);
    assert |x| == 2 * n && GaussianCount(x + [0.0, 0.0]) == n + 1;
    AppendedZeroTermChangesNothing(x, n, r, exp);
  }

  /** A Python number: what `/` and int() produce. */
  datatype PyNumber = PyInt(i: int) | PyFloat(f: real)

  /** Python 3's `/` on two ints: always a float. */
  function TrueDivide(a: int, b: int): (q: PyNumber)
    requires b != 0
    ensures q.PyFloat? && q.f * b as real == a as real
  {
    PyFloat(a as real / b as real)
  }

  /** The length of range(n): an int gives max(n, 0) iterations, a float is a
      TypeError. */
  function RangeLength(n: PyNumber): (r: Result<nat, FitError>)
    ensures r.Success? <==> n.PyInt?
    ensures r.Success? ==> r.value == if n.i > 0 then n.i else 0
  {
    match n
    case PyInt(i) => Success(if i > 0 then i else 0)
    case PyFloat(_) => Failure(FloatAsRange)
  }

  /** obj of spline2gaussians.py as written: n = len(x)/2 is handed to
      range(n) in getU, which rejects it whatever x is. */
  function GaussianCountAsWritten(x: seq<real>): (r: Result<nat, FitError>)
    ensures r == Failure(FloatAsRange)
  {
    RangeLength(TrueDivide(|x|, 2))
  }

  /** The stage-0 seed [u_max, 1] is rejected as written, while the corrected
      count gives the one term it holds. */
  lemma StageZeroSeedRejectedAsWritten(uMax: real)
    ensures GaussianCountAsWritten([uMax, 1.0]).Failure?
    ensures RangeLength(PyInt(GaussianCount([uMax, 1.0]))) == Success(1)
  {
  }
}

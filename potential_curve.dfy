/** Sampling the spline potential on the radial grid and correcting its hard
    core (getUspline in spline2gaussians-leastsquares.py; the sampling loop of
    spline2gaussians.py). The spline evaluator is external: its value and
    derivative are passed in as functions of the radius. */
module PotentialCurve {
  import opened Common

  /** The defaults of getUspline: MaxPairEnekBT = 20, kB = 1, TempSet = 1. */
  const DefaultMaxPairEnekBT: real := 20.0
  const DefaultKB: real := 1.0
  const DefaultTempSet: real := 1.0

  /** The energy above which a sample counts as part of the hard core. */
  function MaxPairEnergy(maxPairEnekBT: real, kB: real, tempSet: real): real {
    kB * tempSet * maxPairEnekBT
  }

  const DefaultThreshold: real := MaxPairEnergy(DefaultMaxPairEnekBT, DefaultKB, DefaultTempSet)

  /** With the default arguments the hard core starts above 20 (in units of kT). */
  lemma DefaultThresholdIsTwenty()
    ensures DefaultThreshold == 20.0
    ensures forall enekBT: real :: MaxPairEnergy(enekBT, DefaultKB, DefaultTempSet) == enekBT
  {
  }

  /** f sampled at every grid point. */
  function Sampled(rs: seq<real>, f: real -> real): (s: seq<real>)
    ensures |s| == |rs|
  {
    seq(|rs|, j requires 0 <= j < |rs| => f(rs[j]))
  }

  /** The loop that appends one evaluation of the spline per grid point. */
  method Sample(rs: seq<real>, f: real -> real) returns (s: seq<real>)
    ensures s == Sampled(rs, f)
  {
    s := [];
    for j := 0 to |rs|
      invariant s == Sampled(rs[..j], f)
    {
      assert Sampled(rs[..j + 1], f) == Sampled(rs[..j], f) + [f(rs[j])];
      s := s + [f(rs[j])];
    }
    assert rs[..|rs|] == rs;
  }

  /** The indices of the samples above t, in increasing order (np.where(s > t)[0]). */
  function Where(s: seq<real>, t: real): (ind: seq<nat>)
    ensures forall k :: 0 <= k < |ind| ==> ind[k] < |s| && s[ind[k]] > t
    ensures forall j {:trigger j in ind} :: 0 <= j < |s| && s[j] > t ==> j in ind
    ensures forall k, l :: 0 <= k < l < |ind| ==> ind[k] < ind[l]
  {
    if |s| == 0 then []
    else
      var front := Where(s[..|s| - 1], t);
      if s[|s| - 1] > t then front + [|s| - 1] else front
  }

  /** One past the last flagged index: the first sample of the trusted region. */
  function Anchor(ind: seq<nat>): nat
    requires ind != []
  {
    ind[|ind| - 1] + 1
  }

  /** The last sample is flagged, so the anchor would lie past the end of the grid. */
  predicate HardCoreReachesCutoff(u0: seq<real>, t: real) {
    var ind := Where(u0, t);
    ind != [] && Anchor(ind) == |u0|
  }

  /** (u, du) is the hard-core correction of the sampled curve (u0, du0) at
      threshold t: below the anchor the values lie on the straight line through
      the anchor sample with the anchor's derivative as slope, from the anchor on
      they are the samples, and every flagged derivative is the anchor's. */
  ghost predicate IsHardCoreCorrection(rs: seq<real>, u0: seq<real>, du0: seq<real>, t: real,
                                       u: seq<real>, du: seq<real>)
    requires |rs| == |u0| == |du0|
  {
    var ind := Where(u0, t);
    |u| == |u0| && |du| == |du0| &&
    if ind == [] then u == u0 && du == du0
    else
      var i := Anchor(ind);
      i < |rs| &&
      (forall j :: 0 <= j < i ==> u[j] == (rs[i] - rs[j]) * -du0[i] + u0[i]) &&
      (forall j :: i <= j < |u| ==> u[j] == u0[j]) &&
      (forall j :: 0 <= j < |du| ==> du[j] == if j in ind then du0[i] else du0[j])
  }

  /** The slice assignment u[:i] = (rs[i] - rs[:i]) * -du[i] + u[i]: every value
      before index i is overwritten with the straight line through the anchor. */
  method ExtrapolateWall(rs: seq<real>, u: array<real>, i: nat, anchorDu: real)
    requires i < |rs| == u.Length
    modifies u
    ensures forall j :: 0 <= j < i ==> u[j] == (rs[i] - rs[j]) * -anchorDu + old(u[i])
    ensures forall j :: i <= j < u.Length ==> u[j] == old(u[j])
  {
    var anchorR, anchorU := rs[i], u[i];
    for j := 0 to i
      invariant forall k :: 0 <= k < j ==> u[k] == (anchorR - rs[k]) * -anchorDu + anchorU
      invariant forall k :: j <= k < u.Length ==> u[k] == old(u[k])
    {
      u[j] := (anchorR - rs[j]) * -anchorDu + anchorU;
    }
  }

  /** The loop `for j in ind: du[j] = du[i]`. */
  method CopyAnchorDerivative(du: array<real>, ind: seq<nat>, anchorDu: real)
    requires forall k :: 0 <= k < |ind| ==> ind[k] < du.Length
    modifies du
    ensures forall j :: 0 <= j < du.Length ==> du[j] == if j in ind then anchorDu else old(du[j])
  {
    for k := 0 to |ind|
      invariant forall j :: 0 <= j < du.Length ==> du[j] == if j in ind[..k] then anchorDu else old(du[j])
    {
      assert ind[..k + 1] == ind[..k] + [ind[k]];
      du[ind[k]] := anchorDu;
    }
    assert ind[..|ind|] == ind;
  }

  /** The hard-core correction, in place on the value and derivative arrays. */
  method CorrectHardCore(rs: seq<real>, u: array<real>, du: array<real>, threshold: real)
    returns (status: Outcome<FitError>)
    requires u != du
    requires |rs| == u.Length == du.Length
    modifies u, du
    ensures status == if HardCoreReachesCutoff(old(u[..]), threshold) then Fail(AnchorBeyondGrid) else Pass
    ensures status.Fail? ==> u[..] == old(u[..]) && du[..] == old(du[..])
    ensures status.Pass? ==> IsHardCoreCorrection(rs, old(u[..]), old(du[..]), threshold, u[..], du[..])
  {
    ghost var u0, du0 := u[..], du[..];
    var ind := Where(u[..], threshold);
    if ind == [] {
      return Pass;
    }
    var i := ind[|ind| - 1] + 1;
    if i == |rs| {
      return Fail(AnchorBeyondGrid);
    }
    var anchorDu := du[i];
    ExtrapolateWall(rs, u, i, anchorDu);
    ghost var u1 := u[..];
    assert forall j :: 0 <= j < i ==> u1[j] == (rs[i] - rs[j]) * -du0[i] + u0[i];
    CopyAnchorDerivative(du, ind, anchorDu);
    assert u[..] == u1;
    CorrectionFromParts(rs, u0, du0, threshold, u[..], du[..]);
    status := Pass;
  }

  /** The two steps of the correction, stated index by index, make up the whole. */
  lemma CorrectionFromParts(rs: seq<real>, u0: seq<real>, du0: seq<real>, t: real,
                            u: seq<real>, du: seq<real>)
    requires |rs| == |u0| == |du0| == |u| == |du|
    requires Where(u0, t) != [] && Anchor(Where(u0, t)) < |rs|
    requires var i := Anchor(Where(u0, t));
      (forall j :: 0 <= j < i ==> u[j] == (rs[i] - rs[j]) * -du0[i] + u0[i]) &&
      (forall j :: i <= j < |u| ==> u[j] == u0[j]) &&
      (forall j :: 0 <= j < |du| ==> du[j] == if j in Where(u0, t) then du0[i] else du0[j])
    ensures IsHardCoreCorrection(rs, u0, du0, t, u, du)
  {
  }

  /** getUspline: sample value and derivative, then correct the hard core. */
  method GetUspline(rs: seq<real>, val: real -> real, dval: real -> real, threshold: real)
    returns (r: Result<(seq<real>, seq<real>), FitError>)
    ensures r.Failure? <==> HardCoreReachesCutoff(Sampled(rs, val), threshold)
    ensures r.Failure? ==> r.error == AnchorBeyondGrid
    ensures r.Success? ==>
      IsHardCoreCorrection(rs, Sampled(rs, val), Sampled(rs, dval), threshold, r.value.0, r.value.1)
  {
    var u0 := Sample(rs, val);
    var du0 := Sample(rs, dval);
    var u := new real[|rs|](j requires 0 <= j < |rs| => u0[j]);
    var du := new real[|rs|](j requires 0 <= j < |rs| => du0[j]);
    assert u[..] == u0 && du[..] == du0;
    var status := CorrectHardCore(rs, u, du, threshold);
    if status.Fail? {
      return Failure(status.error);
    }
    r := Success((u[..], du[..]));
  }

  /** The last flagged index is the last sample above the threshold. */
  lemma LastFlaggedIsLastAbove(s: seq<real>, t: real)
    requires Where(s, t) != []
    ensures forall j :: Anchor(Where(s, t)) <= j < |s| ==> s[j] <= t
  {
    var ind := Where(s, t);
    forall j | Anchor(ind) <= j < |s|
      ensures s[j] <= t
    {
      assert forall k :: 0 <= k < |ind| ==> ind[k] <= ind[|ind| - 1];
    }
  }

  /** With no sample above the threshold the correction changes nothing. */
  lemma NothingAboveLeavesCurve(rs: seq<real>, u0: seq<real>, du0: seq<real>, t: real,
                                u: seq<real>, du: seq<real>)
    requires |rs| == |u0| == |du0|
    requires forall j :: 0 <= j < |u0| ==> u0[j] <= t
    requires IsHardCoreCorrection(rs, u0, du0, t, u, du)
    ensures u == u0 && du == du0
  {
  }

  /** After a correction every sample from the anchor on is at or below the
      threshold, and it is the sample itself. */
  lemma CorrectionClearsTrustedRegion(rs: seq<real>, u0: seq<real>, du0: seq<real>, t: real,
                                      u: seq<real>, du: seq<real>)
    requires |rs| == |u0| == |du0|
    requires IsHardCoreCorrection(rs, u0, du0, t, u, du)
    requires Where(u0, t) != []
    ensures forall j :: Anchor(Where(u0, t)) <= j < |u| ==> u[j] == u0[j] && u[j] <= t
  {
    LastFlaggedIsLastAbove(u0, t);
  }

  /** The corrected curve is a straight wall below the anchor, tangent to the
      curve at the anchor: each wall value is the anchor value plus the anchor
      derivative times the distance from the anchor, and the anchor's own value
      and derivative are kept. */
  lemma CorrectionIsTangentWall(rs: seq<real>, u0: seq<real>, du0: seq<real>, t: real,
                                u: seq<real>, du: seq<real>)
    requires |rs| == |u0| == |du0|
    requires IsHardCoreCorrection(rs, u0, du0, t, u, du)
    requires Where(u0, t) != []
    ensures var i := Anchor(Where(u0, t));
      i < |rs| && u[i] == u0[i] && du[i] == du0[i] &&
      forall j :: 0 <= j < i ==> u[j] == u[i] + du[i] * (rs[j] - rs[i])
  {
    var ind := Where(u0, t);
    var i := Anchor(ind);
    assert forall k :: 0 <= k < |ind| ==> ind[k] <= ind[|ind| - 1];
    assert i !in ind;
    assert u[i] == u0[i] && du[i] == du0[i];
    forall j | 0 <= j < i
      ensures u[j] == u[i] + du[i] * (rs[j] - rs[i])
    {
      assert u[j] == (rs[i] - rs[j]) * -du0[i] + u0[i];
      assert (rs[i] - rs[j]) * -du0[i] == du0[i] * (rs[j] - rs[i]);
    }
  }

  /** The derivative is replaced exactly at the samples above the threshold. */
  lemma FlaggedDerivativesTakeAnchor(rs: seq<real>, u0: seq<real>, du0: seq<real>, t: real,
                                     u: seq<real>, du: seq<real>)
    requires |rs| == |u0| == |du0|
    requires IsHardCoreCorrection(rs, u0, du0, t, u, du)
    requires Where(u0, t) != []
    ensures var i := Anchor(Where(u0, t));
      forall j :: 0 <= j < |du| ==> du[j] == if u0[j] > t then du0[i] else du0[j]
  {
  }
}

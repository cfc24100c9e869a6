/** The box constraints of the fit (getBounds in both scripts). Term i of the
    parameter vector occupies components 2i (its amplitude B) and 2i+1 (its
    inverse width K). Even terms are repulsive (B >= 0), odd terms attractive
    (B <= 0), and K >= 0 for every term. The two scripts differ only in the
    upper bound of a repulsive amplitude. */
module BoundsPolicy {
  import opened Common

  /** Where a repulsive amplitude stops: at the curve maximum
      (spline2gaussians-leastsquares.py) or nowhere (spline2gaussians.py). */
  datatype RepulsiveCap = CappedAtMaximum | Unbounded

  /** Lower and upper bounds, one of each per component of the parameter vector. */
  datatype Box = Box(lower: seq<ExtReal>, upper: seq<ExtReal>)

  predicate IsRepulsive(term: nat) {
    term % 2 == 0
  }

  function RepulsiveCeiling(cap: RepulsiveCap, uMax: real): ExtReal {
    match cap
    case CappedAtMaximum => Fin(uMax)
    case Unbounded => PosInf
  }

  /** The lower bound of component k. */
  function LowerAt(k: nat): ExtReal {
    if k % 2 == 1 || IsRepulsive(k / 2) then Fin(0.0) else NegInf
  }

  /** The upper bound of component k. */
  function UpperAt(cap: RepulsiveCap, uMax: real, k: nat): ExtReal {
    if k % 2 == 1 then PosInf
    else if IsRepulsive(k / 2) then RepulsiveCeiling(cap, uMax)
    else Fin(0.0)
  }

  /** The bounds of an n-term fit, component by component. */
  function Bounds(cap: RepulsiveCap, uMax: real, n: nat): (b: Box)
    ensures |b.lower| == |b.upper| == 2 * n
  {
    Box(seq(2 * n, (k: nat) => LowerAt(k)), seq(2 * n, (k: nat) => UpperAt(cap, uMax, k)))
  }

  /** getBounds: extend both lists by one pair per term. */
  method GetBounds(cap: RepulsiveCap, uMax: real, n: nat) returns (b: Box)
    ensures b == Bounds(cap, uMax, n)
  {
    var lower: seq<ExtReal> := [];
    var upper: seq<ExtReal> := [];
    for i := 0 to n
      invariant Box(lower, upper) == Bounds(cap, uMax, i)
    {
      if i % 2 == 0 {
        lower := lower + [Fin(0.0), Fin(0.0)];
        upper := upper + [RepulsiveCeiling(cap, uMax), PosInf];
      } else {
        lower := lower + [NegInf, Fin(0.0)];
        upper := upper + [Fin(0.0), PosInf];
      }
      assert lower == Bounds(cap, uMax, i + 1).lower;
      assert upper == Bounds(cap, uMax, i + 1).upper;
    }
    b := Box(lower, upper);
  }

  /** The box of term i: [0, ceiling] x [0, +inf) when repulsive,
      (-inf, 0] x [0, +inf) when attractive. */
  lemma TermBox(cap: RepulsiveCap, uMax: real, n: nat, i: nat)
    requires i < n
    ensures var b := Bounds(cap, uMax, n);
      b.lower[2 * i + 1] == Fin(0.0) && b.upper[2 * i + 1] == PosInf &&
      (i % 2 == 0 ==> b.lower[2 * i] == Fin(0.0) && b.upper[2 * i] == RepulsiveCeiling(cap, uMax)) &&
      (i % 2 == 1 ==> b.lower[2 * i] == NegInf && b.upper[2 * i] == Fin(0.0))
  {
    assert (2 * i) / 2 == i && (2 * i + 1) / 2 == i;
  }

  /** The bounds of a smaller fit are a prefix of those of a larger one: adding
      terms never changes the boxes of the earlier terms. */
  lemma BoundsPrefix(cap: RepulsiveCap, uMax: real, m: nat, n: nat)
    requires m <= n
    ensures Bounds(cap, uMax, m).lower == Bounds(cap, uMax, n).lower[..2 * m]
    ensures Bounds(cap, uMax, m).upper == Bounds(cap, uMax, n).upper[..2 * m]
  {
  }

  /** x lies in the box b. */
  predicate Within(x: seq<real>, b: Box) {
    |x| == |b.lower| == |b.upper| &&
    forall k :: 0 <= k < |x| ==> AtMost(b.lower[k], Fin(x[k])) && AtMost(Fin(x[k]), b.upper[k])
  }

  /** Every component's interval is non-degenerate (lower strictly below upper)
      exactly when a repulsive cap, if there is one, is positive. */
  lemma BoxesOpen(cap: RepulsiveCap, uMax: real, n: nat)
    requires n > 0
    ensures (forall k :: 0 <= k < 2 * n ==> Below(Bounds(cap, uMax, n).lower[k], Bounds(cap, uMax, n).upper[k]))
        <==> (cap == Unbounded || uMax > 0.0)
  {
    var b := Bounds(cap, uMax, n);
    if cap == CappedAtMaximum && uMax <= 0.0 {
      assert !Below(b.lower[0], b.upper[0]);
    }
  }

  /** The first stage's seed [u_max, 1] lies in its box exactly when u_max >= 0. */
  lemma FirstSeedWithin(cap: RepulsiveCap, uMax: real)
    ensures Within([uMax, 1.0], Bounds(cap, uMax, 1)) <==> uMax >= 0.0
  {
    var b := Bounds(cap, uMax, 1);
    assert b.lower[0] == Fin(0.0) && b.upper[1] == PosInf;
  }

  /** If the previous optimum lies in its box, the warm-started seed lies in
      the next stage's box (for a capped fit, when the cap is not negative). */
  lemma WarmSeedWithin(cap: RepulsiveCap, uMax: real, x: seq<real>, n: nat)
    requires cap == CappedAtMaximum ==> uMax >= 0.0
    requires Within(x, Bounds(cap, uMax, n))
    ensures Within(x + [0.0, 0.0], Bounds(cap, uMax, n + 1))
  {
    var b, b' := Bounds(cap, uMax, n), Bounds(cap, uMax, n + 1);
    var y := x + [0.0, 0.0];
    BoundsPrefix(cap, uMax, n, n + 1);
    TermBox(cap, uMax, n + 1, n);
    forall k | 0 <= k < |y|
      ensures AtMost(b'.lower[k], Fin(y[k])) && AtMost(Fin(y[k]), b'.upper[k])
    {
      if k < 2 * n {
        assert b'.lower[k] == b.lower[k] && b'.upper[k] == b.upper[k];
      }
    }
  }
}

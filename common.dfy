/** Value types shared by every component of the fitter: optional and failing
    results, the ways a fitting run aborts, positive reals (the range of the
    exponential), reals extended with the two infinities (solver bounds), and
    the sum and maximum of a sampled curve. */
module Common {

  datatype Option<+T> = None | Some(value: T)

  datatype Result<+T, +E> = Success(value: T) | Failure(error: E)

  datatype Outcome<+E> = Pass | Fail(error: E)

  /** Every way a run of either fitting script stops with an exception. */
  datatype FitError =
    | AnchorBeyondGrid            // the last sample is above the hard-core threshold, so the anchor index is past the grid
    | EmptyGrid                   // the maximum of a curve with no samples is undefined
    | NeedInitialValues           // single-shot mode without an initial parameter vector
    | WrongNumberOfInitialValues  // single-shot mode with an initial vector whose length is not 2n
    | NoStagesRun                 // staged mode with n <= 0: no stage runs, so no optimum is ever bound
    | FloatAsRange                // a float passed where range() needs an integer

  /** The values the exponential takes. */
  type Positive = r: real | r > 0.0 witness 1.0

  /** A real bound, or "no bound" below or above. */
  datatype ExtReal = NegInf | Fin(v: real) | PosInf

  /** a <= b on the extended reals. */
  predicate AtMost(a: ExtReal, b: ExtReal) {
    match (a, b)
    case (NegInf, _) => true
    case (_, PosInf) => true
    case (Fin(x), Fin(y)) => x <= y
    case _ => false
  }

  /** a < b on the extended reals. */
  predicate Below(a: ExtReal, b: ExtReal) {
    match (a, b)
    case (NegInf, NegInf) => false
    case (NegInf, _) => true
    case (Fin(x), Fin(y)) => x < y
    case (Fin(_), PosInf) => true
    case _ => false
  }

  function Sum(s: seq<real>): real {
    if |s| == 0 then 0.0 else s[0] + Sum(s[1..])
  }

  /** Every entry of s divided by c. */
  function Scale(s: seq<real>, c: real): (r: seq<real>)
    requires c != 0.0
    ensures |r| == |s|
  {
    seq(|s|, j requires 0 <= j < |s| => s[j] / c)
  }

  /** Dividing by a positive constant keeps the order of any two entries. */
  lemma ScaleKeepsOrder(s: seq<real>, c: real, j: nat, k: nat)
    requires c > 0.0
    requires j < |s| && k < |s| && s[j] <= s[k]
    ensures Scale(s, c)[j] <= Scale(s, c)[k]
  {
    var a, b := s[j], s[k];
    assert a / c <= b / c;
  }

  lemma {:induction false} SumOfPositives(s: seq<real>)
    requires |s| > 0
    requires forall j :: 0 <= j < |s| ==> s[j] > 0.0
    ensures Sum(s) > 0.0
  {
    if |s| > 1 {
      SumOfPositives(s[1..]);
    }
  }

  lemma {:induction false} SumScale(s: seq<real>, c: real)
    requires c != 0.0
    ensures Sum(Scale(s, c)) == Sum(s) / c
  {
    if |s| > 0 {
      assert Scale(s, c)[1..] == Scale(s[1..], c);
      SumScale(s[1..], c);
      assert Sum(Scale(s, c)) == s[0] / c + Sum(s[1..]) / c;
    }
  }

  /** The largest entry of a non-empty curve. */
  function Max(s: seq<real>): (m: real)
    requires |s| > 0
    ensures m in s
    ensures forall k :: 0 <= k < |s| ==> s[k] <= m
  {
    if |s| == 1 then s[0]
    else
      var rest := Max(s[1..]);
      if s[0] >= rest then s[0] else rest
  }
}

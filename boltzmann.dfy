/** The Boltzmann weights of the fit (weight in both scripts): each sample's
    factor exp(-u) divided by the sum of all factors. */
module Boltzmann {
  import opened Common

  /** exp(-u_j) for every sample. */
  function BoltzmannFactors(u: seq<real>, exp: real -> Positive): (e: seq<real>)
    ensures |e| == |u|
    ensures forall j :: 0 <= j < |e| ==> e[j] > 0.0
  {
    seq(|u|, j requires 0 <= j < |u| => exp(-u[j]) as real)
  }

  /** w = exp(-u) / sum(exp(-u)). With no samples the sum is zero and numpy
      divides an empty array, which gives the empty array. */
  function Weights(u: seq<real>, exp: real -> Positive): (w: seq<real>)
    ensures |w| == |u|
    ensures forall j :: 0 <= j < |w| ==> w[j] > 0.0
    ensures |u| > 0 ==> Sum(w) == 1.0
  {
    var e := BoltzmannFactors(u, exp);
    if |u| == 0 then []
    else
      SumOfPositives(e);
      var z := Sum(e);
      SumScale(e, z);
      PositiveQuotients(e, z);
      assert z / z == 1.0;
      Scale(e, z)
  }

  lemma PositiveQuotients(e: seq<real>, z: real)
    requires z > 0.0
    requires forall j :: 0 <= j < |e| ==> e[j] > 0.0
    ensures forall j :: 0 <= j < |e| ==> Scale(e, z)[j] > 0.0
  {
    forall j | 0 <= j < |e|
      ensures Scale(e, z)[j] > 0.0
    {
      assert Scale(e, z)[j] == e[j] / z;
    }
  }

  /** Any two weights are in the ratio of their Boltzmann factors. */
  lemma WeightsProportional(u: seq<real>, exp: real -> Positive, j: nat, k: nat)
    requires j < |u| && k < |u|
    ensures Weights(u, exp)[j] * exp(-u[k]) == Weights(u, exp)[k] * exp(-u[j])
  {
    var e := BoltzmannFactors(u, exp);
    var z := Sum(e);
    SumOfPositives(e);
    assert Weights(u, exp)[j] == e[j] / z && Weights(u, exp)[k] == e[k] / z;
    assert e[j] == exp(-u[j]) && e[k] == exp(-u[k]);
    assert (e[j] / z) * e[k] == (e[j] * e[k]) / z == (e[k] / z) * e[j];
  }

  /** A sample with a smaller Boltzmann factor never gets more weight; since
      exp is increasing, a higher energy never gets more weight. */
  lemma WeightsFollowFactors(u: seq<real>, exp: real -> Positive, j: nat, k: nat)
    requires j < |u| && k < |u|
    requires exp(-u[j]) <= exp(-u[k])
    ensures Weights(u, exp)[j] <= Weights(u, exp)[k]
  {
    var e := BoltzmannFactors(u, exp);
    var z := Sum(e);
    SumOfPositives(e);
    assert Weights(u, exp) == Scale(e, z);
    ScaleKeepsOrder(e, z, j, k);
  }
}

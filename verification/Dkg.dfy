/**
 Key generation is a homomorphism: summed shares lie on the summed polynomial,
 summed commitments commit to the summed secret.
 */
module Dkg {
  import opened Wrappers
  import opened Curves
  import opened FieldAlgebra
  import opened Polynomials
  import opened ClusterSpec

  /** The coefficient-wise sum of the dealers' polynomials. */
  function SumPoly<S(!new), G(!new)>(C: Curve<S, G>, t: nat, ds: seq<Dealing<S>>): (r: seq<S>)
    requires forall d :: 0 <= d < |ds| ==> |ds[d].random| + 1 == t
    ensures |r| == t
  {
    if ds == [] then Zeros(C, t) else Plus(C, SumPoly(C, t, ds[..|ds| - 1]), ds[|ds| - 1].Coeffs())
  }

  function SecretSum<S(!new), G(!new)>(C: Curve<S, G>, ds: seq<Dealing<S>>): S {
    if ds == [] then C.zero else C.Add(SecretSum(C, ds[..|ds| - 1]), ds[|ds| - 1].secret)
  }

  lemma SecretSumElem<S(!new), G(!new)>(C: Curve<S, G>, ds: seq<Dealing<S>>)
    requires FieldLaws(C)
    ensures C.Elem(SecretSum(C, ds))
  {
    if ds != [] { Closed(C, SecretSum(C, ds[..|ds| - 1]), ds[|ds| - 1].secret); }
  }

  /** Node i ends up with the summed polynomial at i. */
  lemma {:induction false} ShareSumIsEval<S(!new), G(!new)>(C: Curve<S, G>, t: nat, ds: seq<Dealing<S>>, i: nat)
    requires FieldLaws(C) && forall d :: 0 <= d < |ds| ==> |ds[d].random| + 1 == t
    ensures ShareSum(C, ds, i) == Eval(C, SumPoly(C, t, ds), C.From(i))
  {
    if ds == [] {
      EvalZeros(C, t, C.From(i));
    } else {
      ShareSumIsEval(C, t, ds[..|ds| - 1], i);
      EvalPlus(C, SumPoly(C, t, ds[..|ds| - 1]), ds[|ds| - 1].Coeffs(), C.From(i));
    }
  }

  /** The summed polynomial shares the summed secret. */
  lemma {:induction false} SumPolySecret<S(!new), G(!new)>(C: Curve<S, G>, t: nat, ds: seq<Dealing<S>>)
    requires FieldLaws(C) && t >= 1 && forall d :: 0 <= d < |ds| ==> |ds[d].random| + 1 == t
    ensures SumPoly(C, t, ds)[0] == SecretSum(C, ds)
    ensures C.AllElem(SumPoly(C, t, ds))
  {
    if ds != [] {
      var rest, last := SumPoly(C, t, ds[..|ds| - 1]), ds[|ds| - 1].Coeffs();
      SumPolySecret(C, t, ds[..|ds| - 1]);
      forall i | 0 <= i < t ensures C.Elem(SumPoly(C, t, ds)[i]) {
        Closed(C, rest[i], last[i]);
      }
    }
  }

  /** Coefficient k of a dealer's polynomial: its secret, then the scalars it drew. */
  function Coefficient<S>(d: Dealing<S>, k: nat): S
    requires k <= |d.random|
  {
    if k == 0 then d.secret else d.random[k - 1]
  }

  function CoefficientSum<S(!new), G(!new)>(C: Curve<S, G>, ds: seq<Dealing<S>>, k: nat): S
    requires forall d :: 0 <= d < |ds| ==> k <= |ds[d].random|
  {
    if ds == [] then C.zero
    else C.Add(CoefficientSum(C, ds[..|ds| - 1], k), Coefficient(ds[|ds| - 1], k))
  }

  /** Each coefficient of the summed polynomial is the sum of the dealers' coefficients. */
  lemma {:induction false} SumPolyCoefficients<S(!new), G(!new)>(C: Curve<S, G>, t: nat, ds: seq<Dealing<S>>, k: nat)
    requires k < t && forall d :: 0 <= d < |ds| ==> |ds[d].random| + 1 == t
    ensures SumPoly(C, t, ds)[k] == CoefficientSum(C, ds, k)
  {
    if ds != [] { SumPolyCoefficients(C, t, ds[..|ds| - 1], k); }
  }

  /** Zero-sharings sum to a zero-sharing. */
  lemma {:induction false} ZeroSecretSum<S(!new), G(!new)>(C: Curve<S, G>, ds: seq<Dealing<S>>)
    requires FieldLaws(C) && forall d :: 0 <= d < |ds| ==> ds[d].secret == C.zero
    ensures SecretSum(C, ds) == C.zero
  {
    if ds != [] {
      ZeroSecretSum(C, ds[..|ds| - 1]);
      Unit(C, C.zero);
    }
  }

  /** Random coefficients with which the first dealer alone deals the zero-sharing z. */
  function Alone<S(!new), G(!new)>(C: Curve<S, G>, n: nat, z: seq<S>): (random: seq<seq<S>>)
    requires n >= 1 && z != []
    ensures |random| == n && random[0] == z[1..]
    ensures forall d :: 1 <= d < n ==> random[d] == Zeros(C, |z| - 1)
  {
    [z[1..]] + seq(n - 1, d => Zeros(C, |z| - 1))
  }

  /** Adding the zero polynomial changes nothing. */
  lemma PlusZeros<S(!new), G(!new)>(C: Curve<S, G>, z: seq<S>)
    requires FieldLaws(C) && C.AllElem(z)
    ensures Plus(C, z, Zeros(C, |z|)) == z == Plus(C, Zeros(C, |z|), z)
  {
    forall i | 0 <= i < |z| ensures C.Add(z[i], C.zero) == z[i] == C.Add(C.zero, z[i]) {
      Unit(C, z[i]);
    }
  }

  lemma {:induction false} AlonePrefix<S(!new), G(!new)>(C: Curve<S, G>, n: nat, z: seq<S>, k: nat)
    requires FieldLaws(C) && C.AllElem(z) && z != [] && z[0] == C.zero && 1 <= k <= n
    ensures SumPoly(C, |z|, ZeroDeals(C, Alone(C, n, z))[..k]) == z
  {
    var ds := ZeroDeals(C, Alone(C, n, z));
    assert ds[..k][..k - 1] == ds[..k - 1] && ds[..k][k - 1] == ds[k - 1];
    PlusZeros(C, z);
    if k == 1 {
      assert ds[..0] == [] && ds[0].Coeffs() == z;
    } else {
      AlonePrefix(C, n, z, k - 1);
      assert ds[k - 1].Coeffs() == Zeros(C, |z|);
    }
  }

  /** Every zero-sharing is the sum of some n dealers' zero-sharings. */
  lemma AloneSums<S(!new), G(!new)>(C: Curve<S, G>, n: nat, z: seq<S>)
    requires FieldLaws(C) && C.AllElem(z) && z != [] && z[0] == C.zero && n >= 1
    ensures SumPoly(C, |z|, ZeroDeals(C, Alone(C, n, z))) == z
    ensures forall d :: 0 <= d < n ==> |Alone(C, n, z)[d]| == |z| - 1 && C.AllElem(Alone(C, n, z)[d])
  {
    AlonePrefix(C, n, z, n);
    var ds := ZeroDeals(C, Alone(C, n, z));
    assert ds[..n] == ds;
  }

  ghost predicate SomeZeroSecret<S(!new), G(!new)>(C: Curve<S, G>, ds: seq<Dealing<S>>) {
    exists d :: 0 <= d < |ds| && ds[d].secret == C.zero
  }

  lemma {:induction false} PointSumIsBase<S(!new), G(!new)>(C: Curve<S, G>, ds: seq<Dealing<S>>)
    requires FieldLaws(C) && GroupLaws(C)
    requires forall d :: 0 <= d < |ds| ==> C.Elem(ds[d].secret)
    ensures PointSum(C, Commitments(C, ds)) ==
            if C.strict && SomeZeroSecret(C, ds) then None else Some(C.Base(SecretSum(C, ds)))
  {
    if ds != [] {
      var rest, last := ds[..|ds| - 1], ds[|ds| - 1];
      assert Commitments(C, ds)[..|ds| - 1] == Commitments(C, rest);
      PointSumIsBase(C, rest);
      SecretSumElem(C, rest);
      assert EncodingAt(C, last.secret);
      assert PointAt(C, SecretSum(C, rest), last.secret);
      if SomeZeroSecret(C, ds) {
        var d :| 0 <= d < |ds| && ds[d].secret == C.zero;
        if d < |rest| { assert rest[d].secret == C.zero; }
      }
    }
  }

  /**
   Aggregating the commitments gives the public key of the summed secret; only a
   zero dealer secret on the strict curve makes it fail.
   */
  lemma AggregateIsSum<S(!new), G(!new)>(C: Curve<S, G>, ds: seq<Dealing<S>>)
    requires FieldLaws(C) && GroupLaws(C)
    requires forall d :: 0 <= d < |ds| ==> C.Elem(ds[d].secret)
    ensures Aggregate(C, Commitments(C, ds)) == None <==> C.strict && SomeZeroSecret(C, ds)
    ensures Aggregate(C, Commitments(C, ds)).Some? ==>
              Aggregate(C, Commitments(C, ds)) == Some(C.PublicKey(SecretSum(C, ds)))
  {
    PointSumIsBase(C, ds);
  }
}

/**
 Lagrange interpolation: the weights the combiner computes, the polynomial they
 stand for, and why the weighted sum at zero is the constant term.
 */
module Lagrange {
  import opened Curves
  import opened FieldAlgebra
  import opened Polynomials

  /** The product of (x - xs[m]) over m < k, m != j. */
  function Gap<S(!new), G(!new)>(C: Curve<S, G>, x: S, xs: seq<S>, j: nat, k: nat): S
    requires k <= |xs|
  {
    if k == 0 then C.one
    else if k - 1 == j then Gap(C, x, xs, j, k - 1)
    else C.Mul(Gap(C, x, xs, j, k - 1), C.Sub(x, xs[k - 1]))
  }

  /** The inverse of share j's denominator; zero stands in where there is none. */
  function InverseGap<S(!new), G(!new)>(C: Curve<S, G>, xs: seq<S>, j: nat): S
    requires j < |xs|
  {
    match C.Invert(Gap(C, xs[j], xs, j, |xs|))
    case Some(i) => i
    case None => C.zero
  }

  /** L_j(x), the weight of share j at x. */
  function Weight<S(!new), G(!new)>(C: Curve<S, G>, x: S, xs: seq<S>, j: nat): S
    requires j < |xs|
  {
    C.Mul(Gap(C, x, xs, j, |xs|), InverseGap(C, xs, j))
  }

  /** The sum of ys[j] * L_j(x) over j < k. */
  function Combine<S(!new), G(!new)>(C: Curve<S, G>, x: S, xs: seq<S>, ys: seq<S>, k: nat): S
    requires k <= |xs| == |ys|
  {
    if k == 0 then C.zero
    else C.Add(Combine(C, x, xs, ys, k - 1), C.Mul(ys[k - 1], Weight(C, x, xs, k - 1)))
  }

  // ---------------------------------------------------------------- denominators

  lemma GapElem<S(!new), G(!new)>(C: Curve<S, G>, x: S, xs: seq<S>, j: nat, k: nat)
    requires FieldLaws(C) && k <= |xs|
    ensures C.Elem(Gap(C, x, xs, j, k))
  {
    if k > 0 {
      GapElem(C, x, xs, j, k - 1);
      Closed(C, Gap(C, x, xs, j, k - 1), C.Sub(x, xs[k - 1]));
    }
  }

  /** A product of differences is zero exactly when x meets one of the other points. */
  lemma {:induction false} GapZero<S(!new), G(!new)>(C: Curve<S, G>, x: S, xs: seq<S>, j: nat, k: nat)
    requires FieldLaws(C) && C.Elem(x) && C.AllElem(xs) && k <= |xs|
    ensures Gap(C, x, xs, j, k) == C.zero <==> exists m :: 0 <= m < k && m != j && xs[m] == x
  {
    if k > 0 {
      GapZero(C, x, xs, j, k - 1);
      if k - 1 != j {
        GapElem(C, x, xs, j, k - 1);
        Closed(C, x, xs[k - 1]);
        SubZero(C, x, xs[k - 1]);
        NoZeroDivisors(C, Gap(C, x, xs, j, k - 1), C.Sub(x, xs[k - 1]));
      }
    }
  }

  lemma WeightElem<S(!new), G(!new)>(C: Curve<S, G>, x: S, xs: seq<S>, j: nat)
    requires FieldLaws(C) && j < |xs|
    ensures C.Elem(Weight(C, x, xs, j))
  {
    Closed(C, Gap(C, x, xs, j, |xs|), InverseGap(C, xs, j));
  }

  lemma CombineElem<S(!new), G(!new)>(C: Curve<S, G>, x: S, xs: seq<S>, ys: seq<S>, k: nat)
    requires FieldLaws(C) && k <= |xs| == |ys|
    ensures C.Elem(Combine(C, x, xs, ys, k))
  {
    if k > 0 { Closed(C, Combine(C, x, xs, ys, k - 1), C.Mul(ys[k - 1], Weight(C, x, xs, k - 1))); }
  }

  /** L_j is 1 at its own point and 0 at every other one. */
  lemma WeightAtPoint<S(!new), G(!new)>(C: Curve<S, G>, xs: seq<S>, i: nat, j: nat)
    requires FieldLaws(C) && C.AllElem(xs) && Distinct(xs) && i < |xs| && j < |xs|
    ensures Weight(C, xs[i], xs, j) == if i == j then C.one else C.zero
  {
    GapZero(C, xs[i], xs, j, |xs|);
    GapElem(C, xs[i], xs, j, |xs|);
    if i == j {
      InvertCases(C, Gap(C, xs[j], xs, j, |xs|));
    } else {
      MulZero(C, InverseGap(C, xs, j));
    }
  }

  lemma {:induction false} CombineAtPoint<S(!new), G(!new)>(C: Curve<S, G>, xs: seq<S>, ys: seq<S>, i: nat, k: nat)
    requires FieldLaws(C) && C.AllElem(xs) && C.AllElem(ys) && Distinct(xs)
    requires i < |xs| && k <= |xs| == |ys|
    ensures Combine(C, xs[i], xs, ys, k) == if i < k then ys[i] else C.zero
  {
    if k > 0 {
      CombineAtPoint(C, xs, ys, i, k - 1);
      WeightAtPoint(C, xs, i, k - 1);
      MulZero(C, ys[k - 1]);
      Unit(C, ys[k - 1]);
      Unit(C, ys[i]);
      Unit(C, C.zero);
    }
  }

  // ---------------------------------------------------------------- the interpolating polynomial

  /** The coefficients of (x - a) * c. */
  function TimesLinear<S(!new), G(!new)>(C: Curve<S, G>, c: seq<S>, a: S): (r: seq<S>)
    ensures |r| == |c| + 1
  {
    Plus(C, [C.zero] + c, Scale(C, C.Sub(C.zero, a), c + Zeros(C, 1)))
  }

  lemma EvalTimesLinear<S(!new), G(!new)>(C: Curve<S, G>, c: seq<S>, a: S, x: S)
    requires FieldLaws(C) && C.Elem(x)
    ensures Eval(C, TimesLinear(C, c, a), x) == C.Mul(Eval(C, c, x), C.Sub(x, a))
  {
    var n, e := C.Sub(C.zero, a), Eval(C, c, x);
    EvalPlus(C, [C.zero] + c, Scale(C, n, c + Zeros(C, 1)), x);
    EvalScale(C, n, c + Zeros(C, 1), x);
    EvalPadded(C, c, 1, x);
    assert ([C.zero] + c)[1..] == c;
    Ring(C, e, x, x);
    Unit(C, C.Mul(e, x));
    SubDistributes(C, x, a, e);
    Ring(C, e, C.Sub(x, a), x);
  }

  /** The coefficients of the product of (x - xs[m]) over m < k, m != j. */
  function GapPoly<S(!new), G(!new)>(C: Curve<S, G>, xs: seq<S>, j: nat, k: nat): (r: seq<S>)
    requires k <= |xs|
    ensures |r| == if j < k then k else k + 1
  {
    if k == 0 then [C.one]
    else if k - 1 == j then GapPoly(C, xs, j, k - 1)
    else TimesLinear(C, GapPoly(C, xs, j, k - 1), xs[k - 1])
  }

  lemma {:induction false} EvalGapPoly<S(!new), G(!new)>(C: Curve<S, G>, xs: seq<S>, j: nat, k: nat, x: S)
    requires FieldLaws(C) && C.Elem(x) && k <= |xs|
    ensures Eval(C, GapPoly(C, xs, j, k), x) == Gap(C, x, xs, j, k)
  {
    if k == 0 {
      MulZero(C, x);
      Unit(C, C.one);
    } else {
      EvalGapPoly(C, xs, j, k - 1, x);
      EvalTimesLinear(C, GapPoly(C, xs, j, k - 1), xs[k - 1], x);
    }
  }

  /** The coefficients of the sum of ys[j] * L_j over j < k. */
  function Interpolant<S(!new), G(!new)>(C: Curve<S, G>, xs: seq<S>, ys: seq<S>, k: nat): (r: seq<S>)
    requires k <= |xs| == |ys|
    ensures |r| == |xs|
  {
    if k == 0 then Zeros(C, |xs|)
    else Plus(C, Interpolant(C, xs, ys, k - 1),
              Scale(C, C.Mul(ys[k - 1], InverseGap(C, xs, k - 1)), GapPoly(C, xs, k - 1, |xs|)))
  }

  lemma {:induction false} EvalInterpolant<S(!new), G(!new)>(C: Curve<S, G>, xs: seq<S>, ys: seq<S>, k: nat, x: S)
    requires FieldLaws(C) && C.Elem(x) && k <= |xs| == |ys|
    ensures Eval(C, Interpolant(C, xs, ys, k), x) == Combine(C, x, xs, ys, k)
  {
    if k == 0 {
      EvalZeros(C, |xs|, x);
    } else {
      var j := k - 1;
      var s := C.Mul(ys[j], InverseGap(C, xs, j));
      EvalInterpolant(C, xs, ys, j, x);
      EvalPlus(C, Interpolant(C, xs, ys, j), Scale(C, s, GapPoly(C, xs, j, |xs|)), x);
      EvalScale(C, s, GapPoly(C, xs, j, |xs|), x);
      EvalGapPoly(C, xs, j, |xs|, x);
      var g := Gap(C, x, xs, j, |xs|);
      Ring(C, ys[j], InverseGap(C, xs, j), g);
      Ring(C, InverseGap(C, xs, j), g, g);
    }
  }

  lemma InterpolantElem<S(!new), G(!new)>(C: Curve<S, G>, xs: seq<S>, ys: seq<S>, k: nat)
    requires FieldLaws(C) && k <= |xs| == |ys|
    ensures C.AllElem(Interpolant(C, xs, ys, k))
  {
    if k > 0 {
      var r, p := Interpolant(C, xs, ys, k - 1), GapPoly(C, xs, k - 1, |xs|);
      var s := C.Mul(ys[k - 1], InverseGap(C, xs, k - 1));
      forall i | 0 <= i < |xs| ensures C.Elem(Interpolant(C, xs, ys, k)[i]) {
        Closed(C, r[i], C.Mul(s, p[i]));
      }
    }
  }

  lemma InterpolantFits<S(!new), G(!new)>(C: Curve<S, G>, xs: seq<S>, ys: seq<S>, i: nat)
    requires FieldLaws(C) && C.AllElem(xs) && C.AllElem(ys) && Distinct(xs) && i < |xs| == |ys|
    ensures Eval(C, Interpolant(C, xs, ys, |xs|), xs[i]) == ys[i]
  {
    EvalInterpolant(C, xs, ys, |xs|, xs[i]);
    CombineAtPoint(C, xs, ys, i, |xs|);
  }

  /** Through k distinct points passes exactly one list of k coefficients. */
  lemma InterpolantUnique<S(!new), G(!new)>(C: Curve<S, G>, xs: seq<S>, ys: seq<S>, c: seq<S>)
    requires FieldLaws(C) && C.AllElem(xs) && C.AllElem(ys) && Distinct(xs)
    requires |c| == |xs| == |ys| && C.AllElem(c)
    ensures (forall i :: 0 <= i < |xs| ==> Eval(C, c, xs[i]) == ys[i]) <==> c == Interpolant(C, xs, ys, |xs|)
  {
    var p := Interpolant(C, xs, ys, |xs|);
    InterpolantElem(C, xs, ys, |xs|);
    forall i | 0 <= i < |xs| ensures Eval(C, p, xs[i]) == ys[i] {
      InterpolantFits(C, xs, ys, i);
    }
    if forall i :: 0 <= i < |xs| ==> Eval(C, c, xs[i]) == ys[i] {
      PolyUnique(C, c, p, xs);
    }
  }

  /** Interpolating the values of a polynomial of at most |xs| coefficients gives its value anywhere. */
  lemma CombineIsEval<S(!new), G(!new)>(C: Curve<S, G>, xs: seq<S>, ys: seq<S>, c: seq<S>, x: S)
    requires FieldLaws(C) && C.AllElem(xs) && Distinct(xs) && C.AllElem(c) && C.Elem(x)
    requires |c| <= |xs| == |ys|
    requires forall i :: 0 <= i < |xs| ==> ys[i] == Eval(C, c, xs[i])
    ensures Combine(C, x, xs, ys, |xs|) == Eval(C, c, x)
  {
    var k := |xs| - |c|;
    var padded := c + Zeros(C, k);
    forall i | 0 <= i < |xs| ensures Eval(C, padded, xs[i]) == ys[i] && C.Elem(ys[i]) {
      EvalPadded(C, c, k, xs[i]);
      EvalElem(C, c, xs[i]);
    }
    InterpolantUnique(C, xs, ys, padded);
    EvalInterpolant(C, xs, ys, |xs|, x);
    EvalPadded(C, c, k, x);
  }

  // ---------------------------------------------------------------- linearity

  lemma {:induction false} CombinePlus<S(!new), G(!new)>(
      C: Curve<S, G>, x: S, xs: seq<S>, ys: seq<S>, zs: seq<S>, k: nat)
    requires FieldLaws(C) && k <= |xs| == |ys| == |zs|
    ensures Combine(C, x, xs, Plus(C, ys, zs), k) == C.Add(Combine(C, x, xs, ys, k), Combine(C, x, xs, zs, k))
  {
    if k == 0 {
      Unit(C, C.zero);
    } else {
      CombinePlus(C, x, xs, ys, zs, k - 1);
      var w := Weight(C, x, xs, k - 1);
      MulDistributes(C, ys[k - 1], zs[k - 1], w);
      AddSwap(C, Combine(C, x, xs, ys, k - 1), Combine(C, x, xs, zs, k - 1), C.Mul(ys[k - 1], w), C.Mul(zs[k - 1], w));
    }
  }

  /** When only value i is nonzero, the weighted sum is its one term. */
  lemma {:induction false} CombineSingle<S(!new), G(!new)>(C: Curve<S, G>, x: S, xs: seq<S>, ys: seq<S>, i: nat, k: nat)
    requires FieldLaws(C) && k <= |xs| == |ys| && i < |xs|
    requires forall j :: 0 <= j < |ys| && j != i ==> ys[j] == C.zero
    ensures Combine(C, x, xs, ys, k) == if i < k then C.Mul(ys[i], Weight(C, x, xs, i)) else C.zero
  {
    if k > 0 {
      var j := k - 1;
      var w := Weight(C, x, xs, j);
      CombineSingle(C, x, xs, ys, i, j);
      if j == i {
        Closed(C, ys[i], w);
        Unit(C, C.Mul(ys[i], w));
      } else {
        assert ys[j] == C.zero;
        MulZero(C, w);
        CombineElem(C, x, xs, ys, j);
        Unit(C, Combine(C, x, xs, ys, j));
      }
    }
  }
}

/**
 Polynomials over the scalar field as coefficient lists, lowest degree first,
 up to the two facts everything else rests on: a list of at most k coefficients
 with k distinct roots is zero, and through any k distinct points passes exactly
 one list of k coefficients.
 */
module Polynomials {
  import opened Curves
  import opened FieldAlgebra

  function Eval<S(!new), G(!new)>(C: Curve<S, G>, c: seq<S>, x: S): S {
    if c == [] then C.zero else C.Add(C.Mul(Eval(C, c[1..], x), x), c[0])
  }

  function Pow<S(!new), G(!new)>(C: Curve<S, G>, x: S, k: nat): S {
    if k == 0 then C.one else C.Mul(Pow(C, x, k - 1), x)
  }

  /** Reference definition of evaluation: the sum of c[i] * x^(i + k). */
  function PowerSum<S(!new), G(!new)>(C: Curve<S, G>, c: seq<S>, x: S, k: nat): S {
    if c == [] then C.zero
    else C.Add(C.Mul(c[0], Pow(C, x, k)), PowerSum(C, c[1..], x, k + 1))
  }

  lemma EvalElem<S(!new), G(!new)>(C: Curve<S, G>, c: seq<S>, x: S)
    requires FieldLaws(C)
    ensures C.Elem(Eval(C, c, x))
  {
    if c != [] { Closed(C, C.Mul(Eval(C, c[1..], x), x), c[0]); }
  }

  lemma {:induction false} PowerSumScaled<S(!new), G(!new)>(C: Curve<S, G>, c: seq<S>, x: S, k: nat)
    requires FieldLaws(C)
    ensures PowerSum(C, c, x, k) == C.Mul(Eval(C, c, x), Pow(C, x, k))
  {
    var p := Pow(C, x, k);
    if c == [] {
      MulZero(C, p);
    } else {
      var e := Eval(C, c[1..], x);
      calc {
        PowerSum(C, c, x, k);
      == { PowerSumScaled(C, c[1..], x, k + 1); }
        C.Add(C.Mul(c[0], p), C.Mul(e, C.Mul(p, x)));
      == { Ring(C, p, x, x); Ring(C, e, x, p); }
        C.Add(C.Mul(c[0], p), C.Mul(C.Mul(e, x), p));
      == { MulDistributes(C, c[0], C.Mul(e, x), p); Ring(C, c[0], C.Mul(e, x), p); }
        C.Mul(C.Add(C.Mul(e, x), c[0]), p);
      }
    }
  }

  /** Horner evaluation computes c[0] + c[1] * x + c[2] * x^2 + ... */
  lemma EvalIsPowerSum<S(!new), G(!new)>(C: Curve<S, G>, c: seq<S>, x: S)
    requires FieldLaws(C)
    ensures Eval(C, c, x) == PowerSum(C, c, x, 0)
  {
    PowerSumScaled(C, c, x, 0);
    EvalElem(C, c, x);
    Unit(C, Eval(C, c, x));
  }

  lemma EvalAtZero<S(!new), G(!new)>(C: Curve<S, G>, c: seq<S>)
    requires FieldLaws(C) && c != [] && C.Elem(c[0])
    ensures Eval(C, c, C.zero) == c[0]
  {
    MulZero(C, Eval(C, c[1..], C.zero));
    Unit(C, c[0]);
  }

  // ---------------------------------------------------------------- linear structure

  function Plus<S(!new), G(!new)>(C: Curve<S, G>, a: seq<S>, b: seq<S>): (r: seq<S>)
    requires |a| == |b|
    ensures |r| == |a|
    ensures forall i :: 0 <= i < |a| ==> r[i] == C.Add(a[i], b[i])
  {
    seq(|a|, i requires 0 <= i < |a| => C.Add(a[i], b[i]))
  }

  function Scale<S(!new), G(!new)>(C: Curve<S, G>, s: S, a: seq<S>): (r: seq<S>)
    ensures |r| == |a|
    ensures forall i :: 0 <= i < |a| ==> r[i] == C.Mul(s, a[i])
  {
    seq(|a|, i requires 0 <= i < |a| => C.Mul(s, a[i]))
  }

  function Zeros<S(!new), G(!new)>(C: Curve<S, G>, k: nat): (r: seq<S>)
    ensures |r| == k && forall i :: 0 <= i < k ==> r[i] == C.zero
  {
    seq(k, i => C.zero)
  }

  lemma {:induction false} EvalPlus<S(!new), G(!new)>(C: Curve<S, G>, a: seq<S>, b: seq<S>, x: S)
    requires FieldLaws(C) && |a| == |b|
    ensures Eval(C, Plus(C, a, b), x) == C.Add(Eval(C, a, x), Eval(C, b, x))
  {
    if a == [] {
      Unit(C, C.zero);
    } else {
      assert Plus(C, a, b)[1..] == Plus(C, a[1..], b[1..]);
      EvalPlus(C, a[1..], b[1..], x);
      var ea, eb := Eval(C, a[1..], x), Eval(C, b[1..], x);
      MulDistributes(C, ea, eb, x);
      AddSwap(C, C.Mul(ea, x), C.Mul(eb, x), a[0], b[0]);
    }
  }

  lemma {:induction false} EvalScale<S(!new), G(!new)>(C: Curve<S, G>, s: S, a: seq<S>, x: S)
    requires FieldLaws(C)
    ensures Eval(C, Scale(C, s, a), x) == C.Mul(s, Eval(C, a, x))
  {
    if a == [] {
      MulZero(C, s);
    } else {
      assert Scale(C, s, a)[1..] == Scale(C, s, a[1..]);
      EvalScale(C, s, a[1..], x);
      var e := Eval(C, a[1..], x);
      Ring(C, s, e, x);
      Ring(C, s, C.Mul(e, x), a[0]);
    }
  }

  lemma {:induction false} EvalZeros<S(!new), G(!new)>(C: Curve<S, G>, k: nat, x: S)
    requires FieldLaws(C)
    ensures Eval(C, Zeros(C, k), x) == C.zero
  {
    if k > 0 {
      assert Zeros(C, k)[1..] == Zeros(C, k - 1);
      EvalZeros(C, k - 1, x);
      MulZero(C, x);
      Unit(C, C.zero);
    }
  }

  /** Trailing zero coefficients do not change the polynomial. */
  lemma {:induction false} EvalPadded<S(!new), G(!new)>(C: Curve<S, G>, a: seq<S>, k: nat, x: S)
    requires FieldLaws(C)
    ensures Eval(C, a + Zeros(C, k), x) == Eval(C, a, x)
  {
    if a == [] {
      assert a + Zeros(C, k) == Zeros(C, k);
      EvalZeros(C, k, x);
    } else {
      assert (a + Zeros(C, k))[1..] == a[1..] + Zeros(C, k);
      EvalPadded(C, a[1..], k, x);
    }
  }

  // ---------------------------------------------------------------- factoring out a root

  /** The quotient of c by (x - a). */
  function Quotient<S(!new), G(!new)>(C: Curve<S, G>, c: seq<S>, a: S): (q: seq<S>)
    requires c != []
    ensures |q| == |c| - 1
  {
    if |c| == 1 then [] else [Eval(C, c[1..], a)] + Quotient(C, c[1..], a)
  }

  /** c(x) == c(a) + (x - a) * q(x) */
  lemma {:induction false} QuotientLaw<S(!new), G(!new)>(C: Curve<S, G>, c: seq<S>, a: S, x: S)
    requires FieldLaws(C) && c != [] && C.Elem(x) && C.Elem(a)
    ensures Eval(C, c, x) == C.Add(Eval(C, c, a), C.Mul(C.Sub(x, a), Eval(C, Quotient(C, c, a), x)))
  {
    var d := C.Sub(x, a);
    if |c| == 1 {
      MulZero(C, x); MulZero(C, a); MulZero(C, d);
      Ring(C, C.zero, c[0], c[0]);
      Unit(C, C.Add(C.zero, c[0]));
    } else {
      var g, q := c[1..], Quotient(C, c[1..], a);
      var gx, ga, h := Eval(C, g, x), Eval(C, g, a), Eval(C, q, x);
      assert Quotient(C, c, a)[1..] == q;
      assert Eval(C, Quotient(C, c, a), x) == C.Add(C.Mul(h, x), ga);
      QuotientLaw(C, g, a, x);
      // x * g(x) == x * g(a) + (x - a) * (h * x), and x * g(a) == a * g(a) + (x - a) * g(a)
      calc {
        C.Mul(gx, x);
      ==
        C.Mul(C.Add(ga, C.Mul(d, h)), x);
      == { MulDistributes(C, ga, C.Mul(d, h), x); Ring(C, d, h, x); }
        C.Add(C.Mul(ga, x), C.Mul(d, C.Mul(h, x)));
      == { SubZero(C, x, a); Ring(C, d, a, a); Ring(C, ga, a, d); }
        C.Add(C.Add(C.Mul(ga, a), C.Mul(ga, d)), C.Mul(d, C.Mul(h, x)));
      == { Ring(C, C.Mul(ga, a), C.Mul(ga, d), C.Mul(d, C.Mul(h, x))); Ring(C, ga, d, d); }
        C.Add(C.Mul(ga, a), C.Add(C.Mul(d, ga), C.Mul(d, C.Mul(h, x))));
      == { Ring(C, d, ga, C.Mul(h, x)); Ring(C, ga, C.Mul(h, x), d); }
        C.Add(C.Mul(ga, a), C.Mul(d, C.Add(C.Mul(h, x), ga)));
      }
      var m := C.Mul(d, C.Add(C.Mul(h, x), ga));
      Ring(C, C.Mul(ga, a), m, c[0]);
      Ring(C, C.Mul(ga, a), c[0], m);
      Ring(C, m, c[0], m);
    }
  }

  ghost predicate Distinct<T>(xs: seq<T>) {
    forall i, j :: 0 <= i < j < |xs| ==> xs[i] != xs[j]
  }

  ghost predicate AllZero<S(!new), G(!new)>(C: Curve<S, G>, c: seq<S>) {
    forall i :: 0 <= i < |c| ==> c[i] == C.zero
  }

  lemma {:induction false} ZeroQuotient<S(!new), G(!new)>(C: Curve<S, G>, c: seq<S>, a: S)
    requires FieldLaws(C) && c != [] && C.AllElem(c)
    requires Eval(C, c, a) == C.zero && AllZero(C, Quotient(C, c, a))
    ensures AllZero(C, c)
  {
    var r := if |c| == 1 then C.zero else Eval(C, c[1..], a);
    if |c| > 1 {
      assert Quotient(C, c, a)[0] == r;
      assert Quotient(C, c[1..], a) == Quotient(C, c, a)[1..];
      ZeroQuotient(C, c[1..], a);
      assert forall i :: 1 <= i < |c| ==> c[i] == c[1..][i - 1];
    }
    MulZero(C, a);
    Unit(C, c[0]);
  }

  /** A list of at most |xs| coefficients that vanishes at all of the distinct xs is the zero list. */
  lemma {:induction false} RootCount<S(!new), G(!new)>(C: Curve<S, G>, c: seq<S>, xs: seq<S>)
    requires FieldLaws(C) && C.AllElem(c) && C.AllElem(xs) && Distinct(xs)
    requires |c| <= |xs|
    requires forall i :: 0 <= i < |xs| ==> Eval(C, c, xs[i]) == C.zero
    ensures AllZero(C, c)
    decreases |c|
  {
    if c != [] {
      var a, q := xs[0], Quotient(C, c, xs[0]);
      QuotientElem(C, c, a);
      forall i | 0 <= i < |xs[1..]| ensures Eval(C, q, xs[1..][i]) == C.zero {
        var x := xs[i + 1];
        QuotientLaw(C, c, a, x);
        var m := C.Mul(C.Sub(x, a), Eval(C, q, x));
        Closed(C, C.Sub(x, a), Eval(C, q, x));
        Unit(C, m);
        SubZero(C, x, a);
        EvalElem(C, q, x);
        Closed(C, x, a);
        NoZeroDivisors(C, C.Sub(x, a), Eval(C, q, x));
      }
      RootCount(C, q, xs[1..]);
      ZeroQuotient(C, c, a);
    }
  }

  lemma {:induction false} QuotientElem<S(!new), G(!new)>(C: Curve<S, G>, c: seq<S>, a: S)
    requires FieldLaws(C) && c != []
    ensures C.AllElem(Quotient(C, c, a))
  {
    if |c| > 1 {
      EvalElem(C, c[1..], a);
      QuotientElem(C, c[1..], a);
    }
  }

  /** Two lists of k coefficients that agree at k distinct points are equal. */
  lemma PolyUnique<S(!new), G(!new)>(C: Curve<S, G>, a: seq<S>, b: seq<S>, xs: seq<S>)
    requires FieldLaws(C) && C.AllElem(a) && C.AllElem(b) && C.AllElem(xs) && Distinct(xs)
    requires |a| == |b| <= |xs|
    requires forall i :: 0 <= i < |xs| ==> Eval(C, a, xs[i]) == Eval(C, b, xs[i])
    ensures a == b
  {
    var n := C.Sub(C.zero, C.one);
    var d := Plus(C, a, Scale(C, n, b));
    forall i | 0 <= i < |xs| ensures Eval(C, d, xs[i]) == C.zero {
      EvalPlus(C, a, Scale(C, n, b), xs[i]);
      EvalScale(C, n, b, xs[i]);
      EvalElem(C, b, xs[i]);
      Negate(C, Eval(C, b, xs[i]));
    }
    forall i | 0 <= i < |d| ensures C.Elem(d[i]) {
      Closed(C, a[i], C.Mul(n, b[i]));
    }
    RootCount(C, d, xs);
    forall i | 0 <= i < |a| ensures a[i] == b[i] {
      assert d[i] == C.Add(a[i], C.Mul(n, b[i]));
      Negate(C, b[i]);
      AddCancel(C, a[i], b[i], C.Mul(n, b[i]));
    }
  }

  /** b + (0 - 1) * b == 0 */
  lemma Negate<S(!new), G(!new)>(C: Curve<S, G>, b: S)
    requires FieldLaws(C) && C.Elem(b)
    ensures C.Add(b, C.Mul(C.Sub(C.zero, C.one), b)) == C.zero
  {
    var n := C.Sub(C.zero, C.one);
    Unit(C, b);
    Unit(C, C.zero);
    Ring(C, C.zero, C.one, C.one);
    Ring(C, n, C.one, C.one);
    MulDistributes(C, C.one, n, b);
    MulZero(C, b);
  }
}

/** Consequences of the field laws, stated for the rearrangements the polynomial proofs use. */
module FieldAlgebra {
  import opened Wrappers
  import opened Curves

  lemma Ring<S(!new), G(!new)>(C: Curve<S, G>, a: S, b: S, c: S)
    requires FieldLaws(C)
    ensures RingAt(C, a, b, c)
  {
  }

  lemma Closed<S(!new), G(!new)>(C: Curve<S, G>, a: S, b: S)
    requires FieldLaws(C)
    ensures C.Elem(C.Add(a, b)) && C.Elem(C.Sub(a, b)) && C.Elem(C.Mul(a, b))
  {
    assert RingAt(C, a, b, b);
  }

  lemma Unit<S(!new), G(!new)>(C: Curve<S, G>, a: S)
    requires FieldLaws(C) && C.Elem(a)
    ensures C.Add(a, C.zero) == a == C.Add(C.zero, a)
    ensures C.Mul(a, C.one) == a == C.Mul(C.one, a)
  {
    assert UnitAt(C, a);
    Ring(C, a, C.zero, C.zero);
    Ring(C, a, C.one, C.zero);
  }

  lemma FromIsElem<S(!new), G(!new)>(C: Curve<S, G>, i: nat)
    requires FieldLaws(C)
    ensures C.Elem(C.From(i))
  {
    assert IndexAt(C, i, i);
  }

  /** Addition can be cancelled. */
  lemma AddCancel<S(!new), G(!new)>(C: Curve<S, G>, a: S, b: S, c: S)
    requires FieldLaws(C) && C.Elem(a) && C.Elem(b)
    requires C.Add(a, c) == C.Add(b, c)
    ensures a == b
  {
    var n := C.Sub(C.zero, c);
    assert C.Add(c, n) == C.zero by {
      Ring(C, C.zero, c, c); Ring(C, n, c, c); Unit(C, C.zero);
    }
    Ring(C, a, c, n);
    Ring(C, b, c, n);
    Unit(C, a);
    Unit(C, b);
  }

  lemma MulZero<S(!new), G(!new)>(C: Curve<S, G>, a: S)
    requires FieldLaws(C)
    ensures C.Mul(a, C.zero) == C.zero == C.Mul(C.zero, a)
  {
    var z := C.Mul(a, C.zero);
    Ring(C, a, C.zero, C.zero);
    Unit(C, C.zero);
    Unit(C, z);
    assert C.Add(z, z) == C.Add(C.zero, z) by { Ring(C, z, C.zero, z); }
    AddCancel(C, z, C.zero, z);
  }

  lemma MulDistributes<S(!new), G(!new)>(C: Curve<S, G>, a: S, b: S, c: S)
    requires FieldLaws(C)
    ensures C.Mul(C.Add(a, b), c) == C.Add(C.Mul(a, c), C.Mul(b, c))
  {
    Ring(C, c, a, b);
    Ring(C, C.Add(a, b), c, c);
    Ring(C, a, c, c);
    Ring(C, b, c, c);
  }

  /** (a + b) + (c + d) == (a + c) + (b + d) */
  lemma AddSwap<S(!new), G(!new)>(C: Curve<S, G>, a: S, b: S, c: S, d: S)
    requires FieldLaws(C)
    ensures C.Add(C.Add(a, b), C.Add(c, d)) == C.Add(C.Add(a, c), C.Add(b, d))
  {
    calc {
      C.Add(C.Add(a, b), C.Add(c, d));
    == { Ring(C, a, b, C.Add(c, d)); }
      C.Add(a, C.Add(b, C.Add(c, d)));
    == { Ring(C, b, c, d); }
      C.Add(a, C.Add(C.Add(b, c), d));
    == { Ring(C, b, c, d); }
      C.Add(a, C.Add(C.Add(c, b), d));
    == { Ring(C, c, b, d); }
      C.Add(a, C.Add(c, C.Add(b, d)));
    == { Ring(C, a, c, C.Add(b, d)); }
      C.Add(C.Add(a, c), C.Add(b, d));
    }
  }

  /** a - b is a + (0 - b) */
  lemma SubIsAdd<S(!new), G(!new)>(C: Curve<S, G>, a: S, b: S)
    requires FieldLaws(C) && C.Elem(a)
    ensures C.Sub(a, b) == C.Add(a, C.Sub(C.zero, b))
  {
    var n := C.Sub(C.zero, b);
    Ring(C, a, b, b);
    Ring(C, C.zero, b, b);
    Ring(C, a, n, b);
    Unit(C, C.zero);
    AddCancel(C, C.Sub(a, b), C.Add(a, n), b);
  }

  /** A difference is zero exactly between equal scalars. */
  lemma SubZero<S(!new), G(!new)>(C: Curve<S, G>, a: S, b: S)
    requires FieldLaws(C) && C.Elem(a) && C.Elem(b)
    ensures C.Sub(a, b) == C.zero <==> a == b
    ensures C.Add(C.Sub(a, b), b) == a
  {
    Ring(C, a, b, b);
    Unit(C, a);
    Unit(C, b);
    if a == b { AddCancel(C, C.Sub(a, b), C.zero, b); }
  }

  /** x * e - a * e == (x - a) * e, with the difference written as a sum */
  lemma SubDistributes<S(!new), G(!new)>(C: Curve<S, G>, x: S, a: S, e: S)
    requires FieldLaws(C) && C.Elem(x)
    ensures C.Mul(C.Sub(x, a), e) == C.Add(C.Mul(x, e), C.Mul(C.Sub(C.zero, a), e))
  {
    SubIsAdd(C, x, a);
    MulDistributes(C, x, C.Sub(C.zero, a), e);
  }

  /** A product is zero only when one factor is. */
  lemma NoZeroDivisors<S(!new), G(!new)>(C: Curve<S, G>, a: S, b: S)
    requires FieldLaws(C) && C.Elem(a) && C.Elem(b)
    ensures C.Mul(a, b) == C.zero <==> a == C.zero || b == C.zero
  {
    MulZero(C, a);
    MulZero(C, b);
    if C.Mul(a, b) == C.zero && a != C.zero {
      assert UnitAt(C, a);
      var i := C.Invert(a).value;
      Ring(C, a, i, i);
      Ring(C, i, a, b);
      MulZero(C, i);
      Unit(C, b);
    }
  }

  /** The inverse used by `reconstruct`: present off zero, and at zero only on the lenient curve. */
  lemma InvertCases<S(!new), G(!new)>(C: Curve<S, G>, a: S)
    requires FieldLaws(C) && C.Elem(a)
    ensures C.Invert(a) == None <==> C.strict && a == C.zero
    ensures a != C.zero ==> C.Elem(C.Invert(a).value) && C.Mul(a, C.Invert(a).value) == C.one
  {
    assert UnitAt(C, a);
  }

  /** Node indices below the field order stay distinct, and nonzero, as scalars. */
  lemma IndexInjective<S(!new), G(!new)>(C: Curve<S, G>, i: nat, j: nat)
    requires FieldLaws(C) && i < C.order && j < C.order
    ensures C.From(i) == C.From(j) <==> i == j
    ensures C.From(i) == C.zero <==> i == 0
  {
    assert IndexAt(C, i, j);
    assert IndexAt(C, i, 0);
  }

  lemma AddOne<S(!new), G(!new)>(C: Curve<S, G>, a: S)
    requires FieldLaws(C) && C.Elem(a)
    ensures C.Add(a, C.one) != a && C.Add(C.Add(a, C.one), C.zero) != a && C.Add(C.Add(a, C.zero), C.one) != a
  {
    Closed(C, a, C.one);
    Unit(C, a);
    Unit(C, C.Add(a, C.one));
    if C.Add(a, C.one) == a {
      Ring(C, a, C.one, C.one);
      AddCancel(C, C.one, C.zero, a);
    }
  }
}

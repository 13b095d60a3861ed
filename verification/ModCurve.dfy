/**
 Integers modulo a prime as a lawful curve: the laws the other modules rely on
 hold of a concrete structure for every prime, in the strict form (zero has no
 inverse, the identity does not parse, a zero secret does not sign) and in the
 lenient one.
 */
module ModCurves {
  import opened Wrappers
  import opened Curves
  import opened Modular
  import opened Signing

  /** g ones followed by zeros, p bytes in all. */
  function Unary(g: int, p: nat): Bytes {
    seq(p, i => if i < g then 1 else 0)
  }

  function Ones(b: Bytes): nat {
    if b == [] || b[0] != 1 then 0 else 1 + Ones(b[1..])
  }

  lemma {:induction false} OnesUnary(g: nat, p: nat)
    requires g <= p
    ensures Ones(Unary(g, p)) == g
  {
    if g > 0 {
      assert Unary(g, p)[1..] == Unary(g - 1, p - 1);
      OnesUnary(g - 1, p - 1);
    }
  }

  /** The scalars and points modulo p; the scheme is filled in by `ModCurve`. */
  function ModGroup(p: nat, strict: bool): Curve<int, int>
    requires p > 0
  {
    Curve(
      order := p, strict := strict,
      elemOp := (a: int) => 0 <= a < p,
      zero := 0, one := 1 % p,
      fromOp := (i: nat) => i % p,
      addOp := (a: int, b: int) => (a + b) % p,
      subOp := (a: int, b: int) => (a - b) % p,
      mulOp := (a: int, b: int) => (a * b) % p,
      invertOp := (a: int) =>
        if 0 < a < p then Some(Inverse(a, p)) else if strict then None else Some(0),
      toBytesOp := (a: int) => Unary(a, p),
      fromBytesOp := (b: Bytes) => Some(Ones(b)),
      baseOp := (a: int) => a % p,
      identity := 0,
      pointAddOp := (g: int, h: int) => (g + h) % p,
      pointMulOp := (k: int, g: int) => (k * g) % p,
      encodeOp := (g: int) => Unary(g, p),
      decodeOp := (b: Bytes) => if strict && Ones(b) == 0 then None else Some(Ones(b)),
      width := p,
      signOp := (secret: int, nonce: int, msg: Bytes) => None,
      verifyOp := (publicKey: Bytes, msg: Bytes, sig: Bytes) => false)
  }

  lemma ModRing(p: nat, strict: bool, a: int, b: int, c: int)
    requires p > 0
    ensures RingAt(ModGroup(p, strict), a, b, c)
  {
    AddMod(a + b, c, p);
    AddMod(a, b + c, p);
    AddMod(a - b, b, p);
    assert a + 0 == a;
    MulFacts(p, a, b, c);
  }

  lemma MulFacts(p: nat, a: int, b: int, c: int)
    requires p > 0
    ensures (a * b) % p == (b * a) % p
    ensures ((a * b) % p * c) % p == (a * ((b * c) % p)) % p
    ensures (a * ((b + c) % p)) % p == ((a * b) % p + (a * c) % p) % p
  {
    assert a * b == b * a;
    MulAssocMod(p, a, b, c);
    MulDistribMod(p, a, b, c);
  }

  lemma MulAssocMod(p: nat, a: int, b: int, c: int)
    requires p > 0
    ensures ((a * b) % p * c) % p == (a * ((b * c) % p)) % p
  {
    MulMod(a * b, c, p);
    MulMod(a, b * c, p);
    assert a * b * c == a * (b * c);
  }

  lemma MulDistribMod(p: nat, a: int, b: int, c: int)
    requires p > 0
    ensures (a * ((b + c) % p)) % p == ((a * b) % p + (a * c) % p) % p
  {
    var x, y := a * b, a * c;
    MulMod(a, b + c, p);
    assert a * (b + c) == x + y;
    AddMod(x, y, p);
    AddMod(x % p, y, p);
  }

  lemma ModFieldLaws(p: nat, strict: bool)
    requires IsPrime(p)
    ensures FieldLaws(ModGroup(p, strict))
  {
    var C := ModGroup(p, strict);
    forall a, b, c ensures RingAt(C, a, b, c) { ModRing(p, strict, a, b, c); }
    forall a ensures UnitAt(C, a) {
      if 0 <= a < p {
        SmallMod(a, p);
        SmallMod(1, p);
        if a != 0 { InverseLaw(a, p); }
      }
    }
    forall i: nat, j: nat ensures IndexAt(C, i, j) {
      if i < p { SmallMod(i, p); }
      if j < p { SmallMod(j, p); }
    }
    SmallMod(0, p);
    SmallMod(1, p);
  }

  lemma ModGroupLaws(p: nat, strict: bool)
    requires p >= 2
    ensures GroupLaws(ModGroup(p, strict))
  {
    var C := ModGroup(p, strict);
    SmallMod(0, p);
    forall a ensures EncodingAt(C, a) {
      if 0 <= a < p {
        SmallMod(a, p);
        OnesUnary(a, p);
      }
    }
    forall a, b ensures PointAt(C, a, b) {
      if 0 <= a < p && 0 <= b < p {
        SmallMod(a, p);
        SmallMod(b, p);
        AddMod(0, a + b, p);
        MulMod(1, a * b, p);
        OnesUnary(a, p);
        OnesUnary(b, p);
      }
    }
  }

  /** For every prime there is a lenient lawful curve: the edwards25519 scheme over integers modulo p. */
  lemma LenientCurveExists(p: nat, hash: Bytes -> int)
    requires IsPrime(p) && forall b: Bytes :: 0 <= hash(b) < p
    ensures var C := WithEdDsa(ModGroup(p, false), hash); Lawful(C) && C.order == p && !C.strict
  {
    ModFieldLaws(p, false);
    ModGroupLaws(p, false);
    EdDsaLawful(ModGroup(p, false), hash);
  }

  /** A strict curve over integers modulo p: a zero secret is refused, any other signature is its own key. */
  function StrictCurve(p: nat): Curve<int, int>
    requires p > 0
  {
    ModGroup(p, true).(
      signOp := (secret: int, nonce: int, msg: Bytes) => if secret == 0 then None else Some(Unary(secret % p, p) + msg),
      verifyOp := (publicKey: Bytes, msg: Bytes, sig: Bytes) => sig == publicKey + msg)
  }

  /** For every prime there is a strict lawful curve. */
  lemma StrictCurveExists(p: nat)
    requires IsPrime(p)
    ensures Lawful(StrictCurve(p)) && StrictCurve(p).order == p && StrictCurve(p).strict
  {
    var C, D := ModGroup(p, true), StrictCurve(p);
    ModFieldLaws(p, true);
    ModGroupLaws(p, true);
    forall a, b, c ensures RingAt(D, a, b, c) { assert RingAt(C, a, b, c); }
    forall a ensures UnitAt(D, a) { assert UnitAt(C, a); }
    forall i: nat, j: nat ensures IndexAt(D, i, j) { assert IndexAt(C, i, j); }
    forall a, b ensures PointAt(D, a, b) { assert PointAt(C, a, b); }
    forall a ensures EncodingAt(D, a) { assert EncodingAt(C, a); }
    forall secret, nonce, msg ensures SignAt(D, secret, nonce, msg) {
    }
  }
}

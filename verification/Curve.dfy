/**
 The `Curve` abstraction: a scalar field, a point group generated by one base
 point, an encoding of points, and a signature scheme.

 A `Curve` value is a record of operations, as the trait is. What the
 operations promise is stated by `Lawful`. Each law is wrapped in a pointwise
 predicate (`RingAt`, `UnitAt`, ...) so that a proof uses exactly the instances
 it names.
 */
module Curves {
  import opened Wrappers

  datatype Curve<!S(!new), !G(!new)> = Curve(
    order: nat,                         // the number of scalars
    strict: bool,                       // secp256k1 refuses zero; edwards25519 does not
    elemOp: S -> bool,                  // canonical scalars
    zero: S,
    one: S,
    fromOp: nat -> S,
    addOp: (S, S) -> S,
    subOp: (S, S) -> S,
    mulOp: (S, S) -> S,
    invertOp: S -> Option<S>,
    toBytesOp: S -> Bytes,
    fromBytesOp: Bytes -> Option<S>,
    baseOp: S -> G,                     // multiples of the base point
    identity: G,
    pointAddOp: (G, G) -> G,
    pointMulOp: (S, G) -> G,
    encodeOp: G -> Bytes,
    decodeOp: Bytes -> Option<G>,
    width: nat,                         // bytes of an encoded scalar or point
    signOp: (S, S, Bytes) -> Option<Bytes>, // secret, nonce, message; None is a panic
    verifyOp: (Bytes, Bytes, Bytes) -> bool)
  {
    predicate Elem(a: S) { elemOp(a) }
    function From(i: nat): S { fromOp(i) }
    function Add(a: S, b: S): S { addOp(a, b) }
    function Sub(a: S, b: S): S { subOp(a, b) }
    function Mul(a: S, b: S): S { mulOp(a, b) }
    function Invert(a: S): Option<S> { invertOp(a) }
    function ToBytes(a: S): Bytes { toBytesOp(a) }
    function FromBytes(b: Bytes): Option<S> { fromBytesOp(b) }
    function Base(a: S): G { baseOp(a) }
    function PointAdd(g: G, h: G): G { pointAddOp(g, h) }
    function PointMul(k: S, g: G): G { pointMulOp(k, g) }
    function Encode(g: G): Bytes { encodeOp(g) }
    function Decode(b: Bytes): Option<G> { decodeOp(b) }
    function Sign(secret: S, nonce: S, msg: Bytes): Option<Bytes> { signOp(secret, nonce, msg) }
    predicate Verify(publicKey: Bytes, msg: Bytes, sig: Bytes) { verifyOp(publicKey, msg, sig) }

    /** The compressed public key of a scalar. */
    function PublicKey(secret: S): Bytes { Encode(Base(secret)) }

    ghost predicate AllElem(s: seq<S>) {
      forall i :: 0 <= i < |s| ==> Elem(s[i])
    }
  }

  // ---------------------------------------------------------------- laws

  ghost predicate RingAt<S(!new), G(!new)>(C: Curve<S, G>, a: S, b: S, c: S) {
    && C.Add(a, b) == C.Add(b, a)
    && C.Add(C.Add(a, b), c) == C.Add(a, C.Add(b, c))
    && C.Mul(a, b) == C.Mul(b, a)
    && C.Mul(C.Mul(a, b), c) == C.Mul(a, C.Mul(b, c))
    && C.Mul(a, C.Add(b, c)) == C.Add(C.Mul(a, b), C.Mul(a, c))
    && C.Add(C.Sub(a, b), b) == C.Add(a, C.zero)
    && C.Elem(C.Add(a, b)) && C.Elem(C.Sub(a, b)) && C.Elem(C.Mul(a, b))
  }

  ghost predicate UnitAt<S(!new), G(!new)>(C: Curve<S, G>, a: S) {
    C.Elem(a) ==>
      && C.Add(a, C.zero) == a
      && C.Mul(a, C.one) == a
      && (a != C.zero ==> C.Invert(a).Some? && C.Elem(C.Invert(a).value)
                          && C.Mul(a, C.Invert(a).value) == C.one)
  }

  ghost predicate IndexAt<S(!new), G(!new)>(C: Curve<S, G>, i: nat, j: nat) {
    && C.Elem(C.From(i))
    && (i < C.order && j < C.order && C.From(i) == C.From(j) ==> i == j)
  }

  /** The scalars are a field of `order` elements at least, `From` embedding 0, 1, .., order - 1. */
  ghost predicate FieldLaws<S(!new), G(!new)>(C: Curve<S, G>) {
    && C.order >= 2
    && C.Elem(C.zero) && C.Elem(C.one) && C.zero != C.one
    && C.From(0) == C.zero
    && C.Invert(C.zero) == (if C.strict then None else Some(C.zero))
    && (forall a, b, c :: RingAt(C, a, b, c))
    && (forall a :: UnitAt(C, a))
    && (forall i: nat, j: nat :: IndexAt(C, i, j))
  }

  ghost predicate PointAt<S(!new), G(!new)>(C: Curve<S, G>, a: S, b: S) {
    C.Elem(a) && C.Elem(b) ==>
      && C.Base(C.Add(a, b)) == C.PointAdd(C.Base(a), C.Base(b))
      && C.Base(C.Mul(a, b)) == C.PointMul(a, C.Base(b))
      && (C.Base(a) == C.Base(b) ==> a == b)
      && (C.Encode(C.Base(a)) == C.Encode(C.Base(b)) ==> C.Base(a) == C.Base(b))
  }

  ghost predicate EncodingAt<S(!new), G(!new)>(C: Curve<S, G>, a: S) {
    C.Elem(a) ==>
      // secp256k1 refuses to parse the identity point
      && C.Decode(C.Encode(C.Base(a))) == (if C.strict && a == C.zero then None else Some(C.Base(a)))
      && (!C.strict ==> |C.Encode(C.Base(a))| == C.width)
      && |C.ToBytes(a)| == C.width
      && C.FromBytes(C.ToBytes(a)) == Some(a)
  }

  /** The points are a group of prime order generated by the base point, with an injective encoding. */
  ghost predicate GroupLaws<S(!new), G(!new)>(C: Curve<S, G>) {
    && C.Base(C.zero) == C.identity
    && (forall a, b :: PointAt(C, a, b))
    && (forall a :: EncodingAt(C, a))
  }

  ghost predicate SignAt<S(!new), G(!new)>(C: Curve<S, G>, secret: S, nonce: S, msg: Bytes) {
    C.Elem(secret) && C.Elem(nonce) ==>
      var sig := C.Sign(secret, nonce, msg);
      // only secp256k1 refuses a secret, and only zero
      && (sig == None <==> C.strict && secret == C.zero)
      && (sig.Some? ==> C.Verify(C.PublicKey(secret), msg, sig.value))
  }

  /** A signature made with a secret verifies under that secret's public key. */
  ghost predicate SignLaws<S(!new), G(!new)>(C: Curve<S, G>) {
    forall secret, nonce, msg :: SignAt(C, secret, nonce, msg)
  }

  ghost predicate Lawful<S(!new), G(!new)>(C: Curve<S, G>) {
    FieldLaws(C) && GroupLaws(C) && SignLaws(C)
  }
}

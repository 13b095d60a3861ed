/** The edwards25519 signature with a shared scalar, and the check a verifier makes. */
module Signing {
  import opened Wrappers
  import opened Curves
  import opened FieldAlgebra

  /** R || s with s = r + k * secret and k = H(R || A || msg). */
  function EdSign<S(!new), G(!new)>(C: Curve<S, G>, hash: Bytes -> S, secret: S, nonce: S, msg: Bytes): Bytes {
    var a := C.Encode(C.Base(secret));
    var r := C.Encode(C.Base(nonce));
    var k := hash(r + a + msg);
    r + C.ToBytes(C.Add(nonce, C.Mul(k, secret)))
  }

  /** The equation [s]B == R + [k]A of section 5.1.7 of RFC 8032. */
  predicate EdVerify<S(!new), G(==,!new)>(C: Curve<S, G>, hash: Bytes -> S, publicKey: Bytes, msg: Bytes, sig: Bytes) {
    && |publicKey| == C.width
    && |sig| == 2 * C.width
    && var a, r, s := C.Decode(publicKey), C.Decode(sig[..C.width]), C.FromBytes(sig[C.width..]);
    && a.Some? && r.Some? && s.Some?
    && C.Base(s.value) == C.PointAdd(r.value, C.PointMul(hash(sig[..C.width] + publicKey + msg), a.value))
  }

  /** The curve C with the scheme above in place of its own. */
  function WithEdDsa<S(!new), G(==,!new)>(C: Curve<S, G>, hash: Bytes -> S): Curve<S, G> {
    C.(signOp := (secret, nonce, msg) => Some(EdSign(C, hash, secret, nonce, msg)),
       verifyOp := (publicKey, msg, sig) => EdVerify(C, hash, publicKey, msg, sig))
  }

  lemma Points<S(!new), G(!new)>(C: Curve<S, G>, a: S, b: S)
    requires GroupLaws(C)
    ensures PointAt(C, a, b) && EncodingAt(C, a)
  {
  }

  /**
   A signature made with any nonce passes the verifier under the secret's public
   key, and starts with that nonce's point.
   */
  lemma EdSignVerifies<S(!new), G(!new)>(C: Curve<S, G>, hash: Bytes -> S, secret: S, nonce: S, msg: Bytes)
    requires FieldLaws(C) && GroupLaws(C) && !C.strict
    requires C.Elem(secret) && C.Elem(nonce)
    requires forall b: Bytes :: C.Elem(hash(b))
    ensures EdVerify(C, hash, C.PublicKey(secret), msg, EdSign(C, hash, secret, nonce, msg))
    ensures EdSign(C, hash, secret, nonce, msg)[..C.width] == C.PublicKey(nonce)
  {
    var a, r := C.Encode(C.Base(secret)), C.Encode(C.Base(nonce));
    var k := hash(r + a + msg);
    var s := C.Add(nonce, C.Mul(k, secret));
    Closed(C, k, secret);
    Closed(C, nonce, C.Mul(k, secret));
    Points(C, nonce, C.Mul(k, secret));
    Points(C, k, secret);
    Points(C, secret, secret);
    Points(C, s, s);
    var sig := r + C.ToBytes(s);
    assert sig[..C.width] == r && sig[C.width..] == C.ToBytes(s);
  }

  /** Replacing the signature scheme keeps the field and group, and the new scheme meets the signing law. */
  lemma EdDsaLawful<S(!new), G(!new)>(C: Curve<S, G>, hash: Bytes -> S)
    requires FieldLaws(C) && GroupLaws(C) && !C.strict
    requires forall b: Bytes :: C.Elem(hash(b))
    ensures Lawful(WithEdDsa(C, hash))
  {
    var D := WithEdDsa(C, hash);
    forall a, b, c ensures RingAt(D, a, b, c) { assert RingAt(C, a, b, c); }
    forall a ensures UnitAt(D, a) { assert UnitAt(C, a); }
    forall i: nat, j: nat ensures IndexAt(D, i, j) { assert IndexAt(C, i, j); }
    forall a, b ensures PointAt(D, a, b) { assert PointAt(C, a, b); }
    forall a ensures EncodingAt(D, a) { assert EncodingAt(C, a); }
    forall secret, nonce, msg ensures SignAt(D, secret, nonce, msg) {
      if C.Elem(secret) && C.Elem(nonce) {
        EdSignVerifies(C, hash, secret, nonce, msg);
      }
    }
  }
}

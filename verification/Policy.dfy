/** Policy decision tokens: wire format, checks in order, and the single-use store. */
module Policy {
  import opened Wrappers
  import opened Domain

  datatype Claims = Claims(tokenId: string, payloadHash: string, key: string, chain: Chain, issuedAt: nat,
    expiresAt: nat)

  datatype DenyReason = Malformed | BadSignature | PayloadMismatch | KeyMismatch | ChainMismatch | Expired | Replayed
  {
    /** The reason as it is recorded and audited. */
    function Text(): string {
      match this
      case Malformed => "token_malformed"
      case BadSignature => "token_signature_invalid"
      case PayloadMismatch => "tx_payload_hash_mismatch"
      case KeyMismatch => "key_id_mismatch"
      case ChainMismatch => "chain_mismatch"
      case Expired => "token_expired_or_not_yet_valid"
      case Replayed => "token_replayed"
    }
  }

  /** The library operations a verifier and a minter use, for one signing key. */
  datatype Crypto = Crypto(
    encode64: Bytes -> string, decode64: string -> Option<Bytes>,
    sign: Bytes -> Bytes, sigOk: (Bytes, Bytes) -> bool,
    render: Claims -> Bytes, parse: Bytes -> Option<Claims>,
    sha: Bytes -> string)

  ghost predicate InAlphabet(c: char) {
    'A' <= c <= 'Z' || 'a' <= c <= 'z' || '0' <= c <= '9' || c == '-' || c == '_'
  }

  ghost predicate EncodesAt(V: Crypto, b: Bytes) {
    && V.decode64(V.encode64(b)) == Some(b)
    && forall i :: 0 <= i < |V.encode64(b)| ==> InAlphabet(V.encode64(b)[i])
  }

  ghost predicate SignsAt(V: Crypto, b: Bytes) {
    |V.sign(b)| == 64 && V.sigOk(b, V.sign(b))
  }

  ghost predicate RendersAt(V: Crypto, c: Claims) {
    V.parse(V.render(c)) == Some(c)
  }

  /** Base64url (section 5 of RFC 4648) inverts and stays in its alphabet; signatures verify; JSON round-trips. */
  ghost predicate CryptoLaws(V: Crypto) {
    && (forall b :: EncodesAt(V, b))
    && (forall b :: SignsAt(V, b))
    && (forall c :: RendersAt(V, c))
  }

  // ---------------------------------------------------------------- wire format

  /** The parts of s before and after its first '.'. */
  function SplitOnce(s: string): (r: Option<(string, string)>)
    ensures r.None? <==> '.' !in s
    ensures r.Some? ==> s == r.value.0 + "." + r.value.1 && '.' !in r.value.0
  {
    if s == "" then None
    else if s[0] == '.' then Some(("", s[1..]))
    else
      match SplitOnce(s[1..])
      case None => None
      case Some((a, b)) => Some(([s[0]] + a, b))
  }

  function Mint(V: Crypto, c: Claims): string {
    V.encode64(V.render(c)) + "." + V.encode64(V.sign(V.render(c)))
  }

  /** Steps 0 and 1: the signed claims carried by a token. */
  function Open(V: Crypto, token: string): Result<Claims, DenyReason> {
    match SplitOnce(token)
    case None => Err(Malformed)
    case Some((claims64, sig64)) =>
      match (V.decode64(claims64), V.decode64(sig64))
      case (Some(bytes), Some(sig)) =>
        if |sig| != 64 then Err(Malformed)
        else if !V.sigOk(bytes, sig) then Err(BadSignature)
        else (match V.parse(bytes) case Some(c) => Ok(c) case None => Err(Malformed))
      case _ => Err(Malformed)
  }

  /** The token joins encoded claims and an encoded 64-byte signature at its first dot. */
  ghost predicate Framed(V: Crypto, token: string, claims64: string, sig64: string) {
    && token == claims64 + "." + sig64 && '.' !in claims64
    && V.decode64(claims64).Some? && V.decode64(sig64).Some? && |V.decode64(sig64).value| == 64
  }

  /** The signature carried fits the claims bytes carried. */
  ghost predicate Attested(V: Crypto, token: string, claims64: string, sig64: string) {
    Framed(V, token, claims64, sig64) && V.sigOk(V.decode64(claims64).value, V.decode64(sig64).value)
  }

  /** The token carries c under a valid signature. */
  ghost predicate Certifies(V: Crypto, token: string, c: Claims) {
    exists a, b :: Attested(V, token, a, b) && V.parse(V.decode64(a).value) == Some(c)
  }

  /** The token is well framed, but its signature does not fit. */
  ghost predicate Forged(V: Crypto, token: string) {
    exists a, b :: Framed(V, token, a, b) && !V.sigOk(V.decode64(a).value, V.decode64(b).value)
  }

  /** The token is not well framed, or properly signs bytes that are not claims. */
  ghost predicate Garbled(V: Crypto, token: string) {
    || (forall a, b :: !Framed(V, token, a, b))
    || (exists a, b :: Attested(V, token, a, b) && V.parse(V.decode64(a).value) == None)
  }

  /** A token can be framed in one way only. */
  lemma FramedOnce(V: Crypto, token: string, a: string, b: string)
    requires Framed(V, token, a, b)
    ensures SplitOnce(token) == Some((a, b))
  {
    SplitAtFirst(a, b);
  }

  lemma SplitFramed(V: Crypto, token: string)
    ensures forall a, b :: Framed(V, token, a, b) ==> SplitOnce(token) == Some((a, b))
    ensures SplitOnce(token).Some? ==>
              var (a, b) := SplitOnce(token).value;
              Framed(V, token, a, b) <==>
              V.decode64(a).Some? && V.decode64(b).Some? && |V.decode64(b).value| == 64
  {
    forall a, b | Framed(V, token, a, b) ensures SplitOnce(token) == Some((a, b)) {
      FramedOnce(V, token, a, b);
    }
  }

  /** What opening a token answers, in terms of what the token carries: only signed claims come out of it. */
  lemma OpenExact(V: Crypto, token: string)
    ensures forall c :: Open(V, token) == Ok(c) <==> Certifies(V, token, c)
    ensures Open(V, token) == Err(BadSignature) <==> Forged(V, token)
    ensures Open(V, token) == Err(Malformed) <==> Garbled(V, token)
    ensures Open(V, token).Err? ==> Open(V, token).error in {Malformed, BadSignature}
  {
    SplitFramed(V, token);
    if SplitOnce(token).Some? {
      var (a, b) := SplitOnce(token).value;
      if Framed(V, token, a, b) {
        OpenFramed(V, token, a, b);
      } else {
        assert forall x, y :: !Framed(V, token, x, y);
      }
    }
  }

  lemma OpenFramed(V: Crypto, token: string, a: string, b: string)
    requires Framed(V, token, a, b) && forall x, y :: Framed(V, token, x, y) ==> (x, y) == (a, b)
    ensures forall c :: Open(V, token) == Ok(c) <==> Certifies(V, token, c)
    ensures Open(V, token) == Err(BadSignature) <==> Forged(V, token)
    ensures Open(V, token) == Err(Malformed) <==> Garbled(V, token)
    ensures Open(V, token).Err? ==> Open(V, token).error in {Malformed, BadSignature}
  {
    FramedOnce(V, token, a, b);
    if V.sigOk(V.decode64(a).value, V.decode64(b).value) {
      assert Attested(V, token, a, b);
    }
  }

  /** Steps 2 to 4: bindings, then freshness within the skew. */
  function CheckClaims(
      V: Crypto, skew: nat, c: Claims, payload: Bytes, key: string, chain: Chain, now: nat): Option<DenyReason>
  {
    if c.payloadHash != V.sha(payload) then Some(PayloadMismatch)
    else if c.key != key then Some(KeyMismatch)
    else if c.chain != chain then Some(ChainMismatch)
    else if c.issuedAt > now + skew || c.expiresAt + skew < now then Some(Expired)
    else None
  }

  /** Everything but the single-use step. */
  function Check(
      V: Crypto, skew: nat, token: string, payload: Bytes, key: string, chain: Chain, now: nat)
    : Result<Claims, DenyReason>
  {
    match Open(V, token)
    case Err(e) => Err(e)
    case Ok(c) =>
      match CheckClaims(V, skew, c, payload, key, chain, now)
      case Some(e) => Err(e)
      case None => Ok(c)
  }

  /** The claims bind exactly this request and are fresh at `now`. */
  ghost predicate Approves(V: Crypto, skew: nat, c: Claims, payload: Bytes, key: string, chain: Chain, now: nat) {
    && c.payloadHash == V.sha(payload) && c.key == key && c.chain == chain
    && c.issuedAt <= now + skew && now <= c.expiresAt + skew
  }

  /** The reason each token is refused for, before the single-use step; there is no other. */
  lemma CheckExact(V: Crypto, skew: nat, token: string, payload: Bytes, key: string, chain: Chain, now: nat)
    ensures var r := Check(V, skew, token, payload, key, chain, now);
            && (forall c :: r == Ok(c) <==> Certifies(V, token, c) && Approves(V, skew, c, payload, key, chain, now))
            && (r == Err(Malformed) <==> Garbled(V, token))
            && (r == Err(BadSignature) <==> Forged(V, token))
            && (r == Err(PayloadMismatch) <==> exists c :: Certifies(V, token, c) && c.payloadHash != V.sha(payload))
            && (r == Err(KeyMismatch) <==>
                exists c :: Certifies(V, token, c) && c.payloadHash == V.sha(payload) && c.key != key)
            && (r == Err(ChainMismatch) <==>
                exists c :: && Certifies(V, token, c) && c.payloadHash == V.sha(payload)
                            && c.key == key && c.chain != chain)
            && (r == Err(Expired) <==>
                exists c :: && Certifies(V, token, c) && c.payloadHash == V.sha(payload)
                            && c.key == key && c.chain == chain
                            && (now + skew < c.issuedAt || c.expiresAt + skew < now))
            && r != Err(Replayed)
  {
    OpenExact(V, token);
    if Open(V, token).Ok? {
      var c := Open(V, token).value;
      assert Certifies(V, token, c);
      assert forall d :: Certifies(V, token, d) ==> d == c;
    } else {
      assert forall d :: !Certifies(V, token, d);
    }
  }

  lemma {:induction false} SplitAtFirst(a: string, b: string)
    requires '.' !in a
    ensures SplitOnce(a + "." + b) == Some((a, b))
  {
    var s := a + "." + b;
    if a == "" {
      assert s[1..] == b;
    } else {
      SplitAtFirst(a[1..], b);
      assert s[0] == a[0] && s[1..] == a[1..] + "." + b;
      assert [a[0]] + a[1..] == a;
    }
  }

  /** Opening a minted token gives back exactly its claims. */
  lemma MintOpens(V: Crypto, c: Claims)
    requires CryptoLaws(V)
    ensures Open(V, Mint(V, c)) == Ok(c)
  {
    var bytes := V.render(c);
    var sig := V.sign(bytes);
    assert EncodesAt(V, bytes) && EncodesAt(V, sig) && SignsAt(V, bytes) && RendersAt(V, c);
    assert '.' !in V.encode64(bytes) by {
      forall i | 0 <= i < |V.encode64(bytes)| ensures V.encode64(bytes)[i] != '.' {
        assert InAlphabet(V.encode64(bytes)[i]);
      }
    }
    SplitAtFirst(V.encode64(bytes), V.encode64(sig));
  }

  /** A minted token is accepted exactly when its claims approve the request, and then as those claims. */
  lemma MintedAccepted(V: Crypto, skew: nat, c: Claims, payload: Bytes, key: string, chain: Chain, now: nat)
    requires CryptoLaws(V)
    ensures Check(V, skew, Mint(V, c), payload, key, chain, now).Ok? <==> Approves(V, skew, c, payload, key, chain, now)
    ensures Check(V, skew, Mint(V, c), payload, key, chain, now).Ok? ==>
              Check(V, skew, Mint(V, c), payload, key, chain, now) == Ok(c)
  {
    MintOpens(V, c);
  }

  /** A token minted for one payload approves another only if their hashes collide. */
  lemma MintedBindsPayload(
      V: Crypto, skew: nat, c: Claims, payload: Bytes, other: Bytes, key: string, chain: Chain, now: nat)
    requires CryptoLaws(V) && c.payloadHash == V.sha(payload) && V.sha(other) != V.sha(payload)
    ensures Check(V, skew, Mint(V, c), other, key, chain, now) == Err(PayloadMismatch)
  {
    MintOpens(V, c);
  }

  // ---------------------------------------------------------------- stores and verifier

  class UsedTokenStore {
    var used: map<string, nat>

    constructor ()
      ensures used == map[]
    {
      used := map[];
    }

    /** True exactly when the id was not in the store, which then holds it. */
    method TryUse(tokenId: string, expiresAt: nat) returns (ok: bool)
      modifies this
      ensures ok <==> tokenId !in old(used)
      ensures used == if ok then old(used)[tokenId := expiresAt] else old(used)
    {
      if tokenId in used {
        return false;
      }
      used := used[tokenId := expiresAt];
      return true;
    }

    /** Keep exactly the entries that expire after `now`. */
    method Prune(now: nat)
      modifies this
      ensures forall id :: id in used <==> id in old(used) && old(used)[id] > now
      ensures forall id :: id in used ==> used[id] == old(used)[id]
      ensures used == Pruned(old(used), now)
    {
      used := map id | id in used && used[id] > now :: used[id];
    }
  }

  /** The entries that survive a prune. */
  function Pruned(used: map<string, nat>, cutoff: nat): (r: map<string, nat>)
    ensures forall id :: id in r <==> id in used && used[id] > cutoff
    ensures forall id :: id in r ==> r[id] == used[id]
  {
    map id | id in used && used[id] > cutoff :: used[id]
  }

  /** The system clock. */
  class Clock {
    var now: nat

    constructor (now: nat)
      ensures this.now == now
    {
      this.now := now;
    }
  }

  class TokenVerifier {
    const crypto: Crypto
    const maxSkew: nat
    const store: UsedTokenStore
    const clock: Clock

    constructor (crypto: Crypto, maxSkew: nat, store: UsedTokenStore, clock: Clock)
      ensures this.crypto == crypto && this.maxSkew == maxSkew && this.store == store && this.clock == clock
    {
      this.crypto, this.maxSkew, this.store, this.clock := crypto, maxSkew, store, clock;
    }

    /**
     Accepts exactly when every check passes and the id is unused, and then
     consumes it; a refusal reports the first failing check and consumes nothing.
     */
    method Verify(token: string, payload: Bytes, key: string, chain: Chain) returns (r: Result<Claims, DenyReason>)
      modifies store
      ensures forall c :: r == Ok(c) <==>
                && Certifies(crypto, token, c)
                && Approves(crypto, maxSkew, c, payload, key, chain, clock.now)
                && c.tokenId !in old(store.used)
      ensures r == Err(Replayed) <==>
              exists c :: && Certifies(crypto, token, c)
                          && Approves(crypto, maxSkew, c, payload, key, chain, clock.now)
                          && c.tokenId in old(store.used)
      ensures r.Ok? ==> store.used == old(store.used)[r.value.tokenId := r.value.expiresAt]
      ensures r.Err? ==> store.used == old(store.used)
      ensures r == match Check(crypto, maxSkew, token, payload, key, chain, clock.now)
                   case Err(e) => Err(e)
                   case Ok(c) => if c.tokenId in old(store.used) then Err(Replayed) else Ok(c)
    {
      CheckExact(crypto, maxSkew, token, payload, key, chain, clock.now);
      var parts := SplitOnce(token);
      if parts.None? { return Err(Malformed); }
      var claimsBytes := crypto.decode64(parts.value.0);
      if claimsBytes.None? { return Err(Malformed); }
      var sig := crypto.decode64(parts.value.1);
      if sig.None? || |sig.value| != 64 { return Err(Malformed); }
      if !crypto.sigOk(claimsBytes.value, sig.value) { return Err(BadSignature); }
      var parsed := crypto.parse(claimsBytes.value);
      if parsed.None? { return Err(Malformed); }
      var claims := parsed.value;
      if claims.payloadHash != crypto.sha(payload) { return Err(PayloadMismatch); }
      if claims.key != key { return Err(KeyMismatch); }
      if claims.chain != chain { return Err(ChainMismatch); }
      var now := clock.now;
      if claims.issuedAt > now + maxSkew || claims.expiresAt + maxSkew < now { return Err(Expired); }
      var unused := store.TryUse(claims.tokenId, claims.expiresAt);
      if !unused { return Err(Replayed); }
      return Ok(claims);
    }
  }
}

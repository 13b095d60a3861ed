/**
 What SignTx decides, as a table: the reasons to refuse a request in the order
 they are looked for, each with the answer it gives, and what happens when none
 applies. The conditions speak of the request, the token's contents, the wallet
 reply and the clock, not of the steps that look at them.
 */
module Decisions {
  import opened Wrappers
  import opened Domain
  import opened Policy
  import opened Pipeline

  // ---------------------------------------------------------------- a handler without interruption

  /** Handler h taken to its end with no interleaving. */
  function Alone(cfg: Config, s: Service, h: nat, input: Input): Service
    requires h < |s.handlers|
    decreases if h < |s.handlers| then Rank(s.handlers[h].phase) else 0
  {
    if Rank(s.handlers[h].phase) == 0 then s
    else
      StepProgress(cfg, s, h, input);
      Alone(cfg, Step(cfg, s, h, input), h, input)
  }

  function Repeat(h: nat, input: Input, n: nat): seq<Action> {
    seq(n, _ => Advance(h, input))
  }

  /** An uninterrupted handler is a run of the step model: it always reaches its end, in at most nine steps. */
  lemma {:induction false} AloneIsRun(cfg: Config, s: Service, h: nat, input: Input, actions: seq<Action>)
    requires h < |s.handlers| && s == Run(cfg, IDLE, actions)
    ensures exists n: nat :: n <= Rank(s.handlers[h].phase)
              && Alone(cfg, s, h, input) == Run(cfg, IDLE, actions + Repeat(h, input, n))
    ensures var p := Alone(cfg, s, h, input); h < |p.handlers| && Rank(p.handlers[h].phase) == 0
    decreases Rank(s.handlers[h].phase)
  {
    if Rank(s.handlers[h].phase) == 0 {
      assert actions + Repeat(h, input, 0) == actions;
    } else {
      StepProgress(cfg, s, h, input);
      var more := actions + [Advance(h, input)];
      assert more[..|actions|] == actions;
      AloneIsRun(cfg, Step(cfg, s, h, input), h, input, more);
      var n: nat :| n <= Rank(Step(cfg, s, h, input).handlers[h].phase)
                    && Alone(cfg, s, h, input) == Run(cfg, IDLE, more + Repeat(h, input, n));
      assert more + Repeat(h, input, n) == actions + Repeat(h, input, n + 1);
    }
  }

  /** Handler h after its policy step, and its token use where there is one. */
  function AfterPolicy(cfg: Config, s: Service, h: nat, input: Input): Service
    requires h < |s.handlers|
  {
    var s1 := Step(cfg, s, h, input);
    if s1.handlers[h].phase.AtTryUse? then Step(cfg, s1, h, input) else s1
  }

  lemma PolicySteps(cfg: Config, s: Service, h: nat, req: Request, input: Input)
    requires h < |s.handlers| && s.handlers[h] == Handler(req, AtPolicy)
    ensures var s' := AfterPolicy(cfg, s, h, input);
            && |s'.handlers| == |s.handlers| && s'.now == s.now && s'.sessions == s.sessions
            && Alone(cfg, s, h, input) == Alone(cfg, s', h, input)
            && match CheckPolicy(cfg, req, s.now).phase
               case Denying(reason, code) =>
                 s'.handlers[h] == Handler(req, Denying(reason, code)) && s'.used == s.used && s'.log == s.log
               case AtTryUse(c, readAt) =>
                 if c.tokenId in s.used
                 then s'.handlers[h] == Handler(req, Denying(Replayed.Text(), FailedPrecondition)) && s'.used == s.used
                   && s'.log == s.log
                 else && s'.handlers[h] == Handler(req, AtWallet) && s'.used == s.used[c.tokenId := c.expiresAt]
                      && s'.log == s.log + [Accepted(h, c, readAt)]
               case _ => s'.handlers[h] == Handler(req, AtWallet) && s'.used == s.used && s'.log == s.log
  {
    var s1 := Step(cfg, s, h, input);
    assert s1.handlers[h] == Handler(req, CheckPolicy(cfg, req, s.now).phase);
    assert Alone(cfg, s, h, input) == Alone(cfg, s1, h, input);
  }

  // ---------------------------------------------------------------- the table

  /** The chains by number, from 1. */
  const CHAINS: seq<Chain> := [Evm, Solana, Aptos, Sui, Bitcoin]

  const FAULT_CODES: map<FaultKind, Code> := map[
    ProviderUnavailable := Unavailable, KeyNotFound := NotFound, EngineDenied := PermissionDenied,
    Transient := Aborted, Unsupported := Unimplemented, InternalFault := Internal]

  /** A reason to refuse: whether it applies, and the answer it gives. */
  datatype Gate = Gate(hit: bool, code: Code, message: string)

  ghost function ArgumentGates(req: Request): seq<Gate> {
    [Gate(!(1 <= req.chain <= 5), InvalidArgument, "unknown or unspecified chain"),
     Gate(req.key == "", InvalidArgument, "key_id is required"),
     Gate(req.payload == [], InvalidArgument, "tx_payload is required")]
  }

  /** The token certifies claims with something wrong about them. */
  ghost predicate Certified(V: Crypto, req: Request, wrong: Claims -> bool) {
    exists c :: Certifies(V, req.token, c) && wrong(c)
  }

  /** The reasons to refuse a token, for a request with valid arguments. */
  ghost function TokenGates(V: Crypto, skew: nat, now: nat, used: map<string, nat>, req: Request): seq<Gate>
    requires 1 <= req.chain <= 5
  {
    [Gate(Garbled(V, req.token), FailedPrecondition, "token_malformed"),
     Gate(Forged(V, req.token), FailedPrecondition, "token_signature_invalid"),
     Gate(Certified(V, req, (c: Claims) => c.payloadHash != V.sha(req.payload)),
          FailedPrecondition, "tx_payload_hash_mismatch"),
     Gate(Certified(V, req, (c: Claims) => c.key != req.key), FailedPrecondition, "key_id_mismatch"),
     Gate(Certified(V, req, (c: Claims) => c.chain != CHAINS[req.chain - 1]), FailedPrecondition, "chain_mismatch"),
     Gate(Certified(V, req, (c: Claims) => now + skew < c.issuedAt || c.expiresAt + skew < now),
          FailedPrecondition, "token_expired_or_not_yet_valid"),
     Gate(Certified(V, req, (c: Claims) => c.tokenId in used), FailedPrecondition, "token_replayed")]
  }

  ghost function PolicyGates(V: Crypto, cfg: Config, now: nat, used: map<string, nat>, req: Request): seq<Gate>
    requires 1 <= req.chain <= 5
  {
    if cfg.skipPolicy then []
    else if !cfg.hasVerifier then [Gate(true, FailedPrecondition, "policy_verifier_not_configured")]
    else TokenGates(V, cfg.skew, now, used, req)
  }

  /** The wallet's record names the key. */
  ghost predicate Binds(r: WalletRecord, key: string) { r.current == key || key in r.keyIds }

  ghost function WalletGates(cfg: Config, key: string, wallet: Result<WalletRecord, WalletError>): seq<Gate> {
    if cfg.skipWallet then []
    else if !cfg.hasWallet then [Gate(true, FailedPrecondition, "wallet_management_not_configured")]
    else
      [Gate(wallet == Err(WalletUnavailable), Unavailable, "wallet_management_unavailable"),
       Gate(wallet == Err(WalletNotFound) || wallet == Ok(WalletRecord([], "")),
            FailedPrecondition, "wallet_not_found"),
       Gate(wallet == Err(KeyNotBound) || (wallet.Ok? && !Binds(wallet.value, key)),
            FailedPrecondition, "wallet_key_mismatch")]
  }

  ghost predicate ArgumentsOk(req: Request) { 1 <= req.chain <= 5 && req.key != "" && req.payload != [] }

  ghost function Gates(
      V: Crypto, cfg: Config, now: nat, used: map<string, nat>, req: Request, wallet: Result<WalletRecord, WalletError>)
    : seq<Gate>
  {
    if !ArgumentsOk(req) then ArgumentGates(req)
    else PolicyGates(V, cfg, now, used, req) + WalletGates(cfg, req.key, wallet)
  }

  ghost predicate FirstHit(gates: seq<Gate>, i: nat) {
    i < |gates| && gates[i].hit && forall j :: 0 <= j < i ==> !gates[j].hit
  }

  ghost predicate AllPass(gates: seq<Gate>) {
    forall i :: 0 <= i < |gates| ==> !gates[i].hit
  }

  /** The refusal is the answer of the first gate that applies, and none when none does. */
  ghost predicate DecidedBy(gates: seq<Gate>, refusal: Option<(Code, string)>) {
    && (forall i: nat :: FirstHit(gates, i) ==> refusal == Some((gates[i].code, gates[i].message)))
    && (AllPass(gates) ==> refusal == None)
  }

  lemma DecidedAt(gates: seq<Gate>, i: nat)
    requires FirstHit(gates, i)
    ensures DecidedBy(gates, Some((gates[i].code, gates[i].message)))
  {
  }

  lemma DecidedNone(gates: seq<Gate>)
    requires AllPass(gates)
    ensures DecidedBy(gates, None)
  {
  }

  /** The answer of the first gate that applies. */
  function FirstRefusal(gates: seq<Gate>): Option<(Code, string)> {
    if gates == [] then None
    else if gates[0].hit then Some((gates[0].code, gates[0].message))
    else FirstRefusal(gates[1..])
  }

  lemma {:induction false} DecidedIsFirst(gates: seq<Gate>, refusal: Option<(Code, string)>)
    requires DecidedBy(gates, refusal)
    ensures refusal == FirstRefusal(gates)
  {
    if gates != [] {
      if gates[0].hit {
        assert FirstHit(gates, 0);
      } else {
        forall i: nat | FirstHit(gates[1..], i) ensures FirstHit(gates, i + 1) {}
        DecidedIsFirst(gates[1..], refusal);
      }
    }
  }

  lemma DecidedConcat(a: seq<Gate>, b: seq<Gate>, ra: Option<(Code, string)>, rb: Option<(Code, string)>)
    requires DecidedBy(a, ra) && DecidedBy(b, rb)
    ensures DecidedBy(a + b, if ra.Some? then ra else rb)
  {
    var r := if ra.Some? then ra else rb;
    HitExists(a);
    HitExists(b);
    if i: nat :| FirstHit(a, i) {
      assert FirstHit(a + b, i);
    } else if k: nat :| FirstHit(b, k) {
      assert FirstHit(a + b, |a| + k);
    }
  }

  lemma {:induction false} HitExists(gates: seq<Gate>)
    ensures AllPass(gates) || exists i: nat :: FirstHit(gates, i)
  {
    if gates != [] {
      var k := |gates| - 1;
      HitExists(gates[..k]);
      if !AllPass(gates[..k]) {
        var i: nat :| FirstHit(gates[..k], i);
        assert FirstHit(gates, i);
      } else if gates[k].hit {
        assert FirstHit(gates, k);
      }
    }
  }

  // ---------------------------------------------------------------- the steps follow the table

  /** The configuration runs the token checks of V. */
  ghost predicate Runs(V: Crypto, cfg: Config) {
    cfg == Configure(V, cfg.skew, cfg.hasVerifier, cfg.hasWallet, cfg.skipPolicy, cfg.skipWallet)
  }

  function Denial(p: Phase): Option<(Code, string)> {
    match p
    case Denying(reason, code) => Some((code, reason))
    case _ => None
  }

  /** The refusal, if any, that the policy steps come to. */
  function PolicyRefusal(cfg: Config, h: nat, req: Request, now: nat, used: map<string, nat>): Option<(Code, string)> {
    match CheckPolicy(cfg, req, now).phase
    case AtTryUse(c, readAt) => Denial(UseToken(h, c, readAt, used).phase)
    case p => Denial(p)
  }

  /** The refusal, if any, that the wallet step comes to. */
  function WalletRefusal(cfg: Config, h: nat, req: Request, wallet: Result<WalletRecord, WalletError>)
    : Option<(Code, string)>
  {
    Denial(CheckWallet(cfg, h, req, wallet).phase)
  }

  lemma ArgumentsDecided(req: Request)
    ensures req.BadArgument().None? <==> ArgumentsOk(req)
    ensures ArgumentsOk(req) ==> req.ChainOf() == CHAINS[req.chain - 1]
    ensures req.BadArgument().Some? ==> DecidedBy(ArgumentGates(req), Some((InvalidArgument, req.BadArgument().value)))
  {
    var gates := ArgumentGates(req);
    if !(1 <= req.chain <= 5) {
      DecidedAt(gates, 0);
    } else if req.key == "" {
      DecidedAt(gates, 1);
    } else if req.payload == [] {
      DecidedAt(gates, 2);
    }
  }

  /** A token certifies at most one set of claims. */
  lemma CertifiesOne(V: Crypto, token: string, c: Claims, d: Claims)
    requires Certifies(V, token, c) && Certifies(V, token, d)
    ensures c == d && !Garbled(V, token) && !Forged(V, token)
  {
    OpenExact(V, token);
    assert Policy.Open(V, token) == Ok(c) && Policy.Open(V, token) == Ok(d);
  }

  lemma UncertifiedDecided(V: Crypto, skew: nat, now: nat, used: map<string, nat>, req: Request)
    requires 1 <= req.chain <= 5 && Policy.Open(V, req.token).Err?
    ensures DecidedBy(TokenGates(V, skew, now, used, req),
                      Some((FailedPrecondition, Policy.Open(V, req.token).error.Text())))
  {
    OpenExact(V, req.token);
    var gates := TokenGates(V, skew, now, used, req);
    if Garbled(V, req.token) {
      DecidedAt(gates, 0);
    } else {
      DecidedAt(gates, 1);
    }
  }

  /** What is wrong with certified claims, as the table looks for it. */
  lemma CertifiedHits(V: Crypto, skew: nat, now: nat, used: map<string, nat>, req: Request, c: Claims)
    requires 1 <= req.chain <= 5 && Certifies(V, req.token, c)
    ensures var g := TokenGates(V, skew, now, used, req);
            && |g| == 7 && !g[0].hit && !g[1].hit
            && (g[2].hit <==> c.payloadHash != V.sha(req.payload)) && (g[3].hit <==> c.key != req.key)
            && (g[4].hit <==> c.chain != CHAINS[req.chain - 1])
            && (g[5].hit <==> now + skew < c.issuedAt || c.expiresAt + skew < now)
            && (g[6].hit <==> c.tokenId in used)
  {
    CertifiesOne(V, req.token, c, c);
    forall d | Certifies(V, req.token, d) ensures d == c {
      CertifiesOne(V, req.token, c, d);
    }
  }

  /** The answer to a reason to refuse a token. */
  function Refuse(e: DenyReason): Option<(Code, string)> { Some((FailedPrecondition, e.Text())) }

  /** Gates that carry the answers of these reasons, in order. */
  ghost predicate Carry(gates: seq<Gate>, reasons: seq<DenyReason>) {
    && |gates| == |reasons|
    && forall i :: 0 <= i < |gates| ==> Some((gates[i].code, gates[i].message)) == Refuse(reasons[i])
  }

  const REASONS: seq<DenyReason> :=
    [Malformed, BadSignature, PayloadMismatch, KeyMismatch, ChainMismatch, Expired, Replayed]

  lemma TokenGatesCarry(V: Crypto, skew: nat, now: nat, used: map<string, nat>, req: Request)
    requires 1 <= req.chain <= 5
    ensures Carry(TokenGates(V, skew, now, used, req), REASONS)
  {
  }

  /** The first of the gates on certified claims. */
  lemma ClaimsDecided(g: seq<Gate>, refusal: Option<DenyReason>)
    requires Carry(g, REASONS) && !g[0].hit && !g[1].hit
    requires refusal == if g[2].hit then Some(PayloadMismatch) else if g[3].hit then Some(KeyMismatch)
                        else if g[4].hit then Some(ChainMismatch) else if g[5].hit then Some(Expired)
                        else if g[6].hit then Some(Replayed) else None
    ensures DecidedBy(g, if refusal.Some? then Refuse(refusal.value) else None)
  {
    if refusal == None {
      DecidedNone(g);
    } else {
      var i := if g[2].hit then 2 else if g[3].hit then 3 else if g[4].hit then 4 else if g[5].hit then 5 else 6;
      assert REASONS[i] == refusal.value;
      DecidedAt(g, i);
    }
  }

  /** The refusal, if any, of certified claims. */
  function ClaimsRefusal(
      V: Crypto, skew: nat, c: Claims, now: nat, used: map<string, nat>, req: Request): Option<DenyReason>
  {
    match CheckClaims(V, skew, c, req.payload, req.key, req.ChainOf(), now)
    case Some(e) => Some(e)
    case None => if c.tokenId in used then Some(Replayed) else None
  }

  lemma CertifiedDecided(V: Crypto, skew: nat, now: nat, used: map<string, nat>, req: Request, c: Claims)
    requires ArgumentsOk(req) && Policy.Open(V, req.token) == Ok(c)
    ensures var refusal := ClaimsRefusal(V, skew, c, now, used, req);
            DecidedBy(TokenGates(V, skew, now, used, req), if refusal.Some? then Refuse(refusal.value) else None)
  {
    OpenExact(V, req.token);
    ArgumentsDecided(req);
    CertifiedHits(V, skew, now, used, req, c);
    TokenGatesCarry(V, skew, now, used, req);
    ClaimsDecided(TokenGates(V, skew, now, used, req), ClaimsRefusal(V, skew, c, now, used, req));
  }

  /** The refusal, if any, of a token. */
  function TokenRefusal(V: Crypto, skew: nat, now: nat, used: map<string, nat>, req: Request): Option<(Code, string)> {
    match Check(V, skew, req.token, req.payload, req.key, req.ChainOf(), now)
    case Err(e) => Refuse(e)
    case Ok(c) => if c.tokenId in used then Refuse(Replayed) else None
  }

  lemma TokenDecided(V: Crypto, skew: nat, now: nat, used: map<string, nat>, req: Request)
    requires ArgumentsOk(req)
    ensures DecidedBy(TokenGates(V, skew, now, used, req), TokenRefusal(V, skew, now, used, req))
  {
    match Policy.Open(V, req.token)
    case Err(_) => UncertifiedDecided(V, skew, now, used, req);
    case Ok(c) => CertifiedDecided(V, skew, now, used, req, c);
  }

  lemma PolicyDecided(V: Crypto, cfg: Config, h: nat, req: Request, now: nat, used: map<string, nat>)
    requires Runs(V, cfg) && ArgumentsOk(req)
    ensures DecidedBy(PolicyGates(V, cfg, now, used, req), PolicyRefusal(cfg, h, req, now, used))
  {
    if !cfg.skipPolicy && cfg.hasVerifier {
      assert cfg.check(req, now) == Check(V, cfg.skew, req.token, req.payload, req.key, req.ChainOf(), now);
      assert PolicyRefusal(cfg, h, req, now, used) == TokenRefusal(V, cfg.skew, now, used, req);
      TokenDecided(V, cfg.skew, now, used, req);
    } else if !cfg.skipPolicy {
      DecidedAt(PolicyGates(V, cfg, now, used, req), 0);
    } else {
      DecidedNone(PolicyGates(V, cfg, now, used, req));
    }
  }

  lemma WalletDecided(cfg: Config, h: nat, req: Request, wallet: Result<WalletRecord, WalletError>)
    requires req.key != ""
    ensures DecidedBy(WalletGates(cfg, req.key, wallet), WalletRefusal(cfg, h, req, wallet))
  {
    var g := WalletGates(cfg, req.key, wallet);
    if cfg.skipWallet {
      DecidedNone(g);
    } else if !cfg.hasWallet || g[0].hit {
      DecidedAt(g, 0);
    } else if g[1].hit {
      DecidedAt(g, 1);
    } else if g[2].hit {
      DecidedAt(g, 2);
    } else {
      DecidedNone(g);
    }
  }

  // ---------------------------------------------------------------- from the first step to the reply

  /** The log grew by consumed tokens and bindings, then the engine call if there was one, then the audit record. */
  ghost predicate Traced(log: seq<Entry>, log': seq<Entry>, call: Option<Entry>, record: Record) {
    exists middle ::
      && log' == log + middle + (if call.Some? then [call.value] else []) + [Emitted(record)]
      && forall e :: e in middle ==> e.Accepted? || e.Bound?
  }

  lemma TracedFirst(log: seq<Entry>, e: Entry, log': seq<Entry>, call: Option<Entry>, record: Record)
    requires (e.Accepted? || e.Bound?) && Traced(log + [e], log', call, record)
    ensures Traced(log, log', call, record)
  {
    var middle :| && log' == log + [e] + middle + (if call.Some? then [call.value] else []) + [Emitted(record)]
                  && forall x :: x in middle ==> x.Accepted? || x.Bound?;
    assert log' == log + ([e] + middle) + (if call.Some? then [call.value] else []) + [Emitted(record)];
  }

  lemma TracedNow(log: seq<Entry>, call: Option<Entry>, record: Record)
    ensures Traced(log, log + (if call.Some? then [call.value] else []) + [Emitted(record)], call, record)
  {
    assert log + [] == log;
  }

  /** What a handler that got past its arguments leaves: its reply, its session, its record and the engine call. */
  datatype Ending = Ending(reply: Reply, status: Status, reason: Option<string>, signature: Option<Bytes>, called: bool)

  function FaultCode(kind: FaultKind): Code { if kind in FAULT_CODES then FAULT_CODES[kind] else Internal }

  lemma FaultCodes(kind: FaultKind)
    ensures kind.Code() == FaultCode(kind)
  {
    match kind {
      case ProviderUnavailable =>
      case KeyNotFound =>
      case EngineDenied =>
      case Transient =>
      case Unsupported =>
      case InternalFault =>
    }
  }

  function DeniedEnding(code: Code, reason: string): Ending {
    Ending(Failure(code, reason), Denied, Some(reason), None, false)
  }

  function EngineEnding(h: nat, engine: Result<EngineSignature, EngineFault>): Ending {
    match engine
    case Ok(sig) => Ending(Success(h, sig.signature, sig.publicKey), Signed, None, Some(sig.signature), true)
    case Err(e) => Ending(Failure(FaultCode(e.kind), e.text), Failed, Some(e.text), None, true)
  }

  function ResultOf(status: Status): AuditResult {
    match status case Signed => AuditSigned case Failed => AuditFailed case _ => AuditDenied
  }

  /** From s, where handler h has a session, it ends as `end` says. */
  ghost predicate EndsAs(cfg: Config, s: Service, s': Service, h: nat, req: Request, end: Ending)
    requires h in s.sessions
  {
    && h < |s'.handlers| && s'.handlers[h] == Handler(req, Finished(end.reply))
    && s'.sessions == s.sessions[h := s.sessions[h].(status := end.status, reason := end.reason)]
    && Traced(s.log, s'.log, if end.called then Some(Called(h, req.key, req.ChainOf(), req.payload)) else None,
              Record(h, req.key, req.ChainOf(), cfg.sha(req.payload), ResultOf(end.status), end.reason, end.signature))
  }

  lemma DenyingEnds(cfg: Config, s: Service, h: nat, req: Request, reason: string, code: Code, input: Input)
    requires h < |s.handlers| && s.handlers[h] == Handler(req, Denying(reason, code)) && h in s.sessions
    ensures EndsAs(cfg, s, Alone(cfg, s, h, input), h, req, DeniedEnding(code, reason))
    ensures Alone(cfg, s, h, input).used == s.used
  {
    var s1 := Step(cfg, s, h, input);
    var record := Audit(cfg, h, req, AuditDenied, Some(reason), None);
    assert s1.handlers[h] == Handler(req, Auditing(record, Failure(code, reason)));
    var s2 := Step(cfg, s1, h, input);
    assert Alone(cfg, s, h, input) == Alone(cfg, s1, h, input) == s2;
    TracedNow(s.log, None, record);
    assert s.log + [] == s.log;
  }

  lemma ReturnedEnds(cfg: Config, s: Service, h: nat, req: Request, input: Input)
    requires h < |s.handlers| && s.handlers[h] == Handler(req, Returned(input.engine)) && h in s.sessions
    ensures var s', end := Alone(cfg, s, h, input), EngineEnding(h, input.engine);
            && h < |s'.handlers| && s'.handlers[h] == Handler(req, Finished(end.reply)) && s'.used == s.used
            && s'.sessions == s.sessions[h := s.sessions[h].(status := end.status, reason := end.reason)]
            && s'.log == s.log + [Emitted(Record(h, req.key, req.ChainOf(), cfg.sha(req.payload), ResultOf(end.status),
                                                 end.reason, end.signature))]
  {
    if input.engine.Err? { FaultCodes(input.engine.error.kind); }
    var s1 := Step(cfg, s, h, input);
    assert s1.handlers[h].phase.Auditing?;
    var s2 := Step(cfg, s1, h, input);
    assert Alone(cfg, s, h, input) == Alone(cfg, s1, h, input) == s2;
  }

  lemma DispatchEnds(cfg: Config, s: Service, h: nat, req: Request, input: Input)
    requires h < |s.handlers| && s.handlers[h] == Handler(req, AtDispatch) && h in s.sessions
    ensures EndsAs(cfg, s, Alone(cfg, s, h, input), h, req, EngineEnding(h, input.engine))
    ensures Alone(cfg, s, h, input).used == s.used
  {
    var call, end := Called(h, req.key, req.ChainOf(), req.payload), EngineEnding(h, input.engine);
    var s1 := Step(cfg, s, h, input);
    assert s1.handlers[h] == Handler(req, AtCall) && s1.log == s.log;
    var s2 := Step(cfg, s1, h, input);
    assert s2.handlers[h] == Handler(req, AtEngine) && s2.log == s.log + [call];
    var s3 := Step(cfg, s2, h, input);
    assert s3.handlers[h] == Handler(req, Returned(input.engine)) && s3.log == s2.log;
    assert Alone(cfg, s, h, input) == Alone(cfg, s1, h, input);
    assert Alone(cfg, s1, h, input) == Alone(cfg, s2, h, input);
    assert Alone(cfg, s2, h, input) == Alone(cfg, s3, h, input);
    ReturnedEnds(cfg, s3, h, req, input);
    TracedNow(s.log, Some(call), Record(h, req.key, req.ChainOf(), cfg.sha(req.payload), ResultOf(end.status),
                                        end.reason, end.signature));
  }

  /** Starting a step later, with the same session and at most one entry less in the log. */
  lemma EndsEarlier(cfg: Config, s: Service, s1: Service, s': Service, h: nat, req: Request, end: Ending)
    requires h in s.sessions && s1.sessions == s.sessions && EndsAs(cfg, s1, s', h, req, end)
    requires s1.log == s.log || exists e: Entry :: (e.Accepted? || e.Bound?) && s1.log == s.log + [e]
    ensures EndsAs(cfg, s, s', h, req, end)
  {
    if s1.log != s.log {
      var e: Entry :| (e.Accepted? || e.Bound?) && s1.log == s.log + [e];
      TracedFirst(s.log, e, s'.log, if end.called then Some(Called(h, req.key, req.ChainOf(), req.payload)) else None,
                  Record(h, req.key, req.ChainOf(), cfg.sha(req.payload), ResultOf(end.status), end.reason,
                    end.signature));
    }
  }

  /** How a handler ends that was refused, or not. */
  function EndingOf(h: nat, refusal: Option<(Code, string)>, engine: Result<EngineSignature, EngineFault>): Ending {
    match refusal
    case Some((code, reason)) => DeniedEnding(code, reason)
    case None => EngineEnding(h, engine)
  }

  lemma WalletEnds(cfg: Config, s: Service, h: nat, req: Request, input: Input)
    requires h < |s.handlers| && s.handlers[h] == Handler(req, AtWallet) && h in s.sessions
    ensures EndsAs(cfg, s, Alone(cfg, s, h, input), h, req,
                   EndingOf(h, WalletRefusal(cfg, h, req, input.wallet), input.engine))
    ensures Alone(cfg, s, h, input).used == s.used
  {
    var s1, e := Step(cfg, s, h, input), CheckWallet(cfg, h, req, input.wallet);
    assert s1.handlers[h] == Handler(req, e.phase) && s1.sessions == s.sessions && s1.used == s.used;
    assert e.entry.Some? ==> e.entry.value.Bound? && s1.log == s.log + [e.entry.value];
    assert Alone(cfg, s, h, input) == Alone(cfg, s1, h, input);
    if e.phase.Denying? {
      DenyingEnds(cfg, s1, h, req, e.phase.reason, e.phase.code, input);
    } else {
      DispatchEnds(cfg, s1, h, req, input);
    }
    EndsEarlier(cfg, s, s1, Alone(cfg, s, h, input), h, req,
                EndingOf(h, WalletRefusal(cfg, h, req, input.wallet), input.engine));
  }

  /** The refusal of a request with valid arguments: by the policy, otherwise by the wallet. */
  function Refusal(
      cfg: Config, h: nat, req: Request, now: nat, used: map<string, nat>, wallet: Result<WalletRecord, WalletError>)
    : Option<(Code, string)>
  {
    match PolicyRefusal(cfg, h, req, now, used)
    case Some(r) => Some(r)
    case None => WalletRefusal(cfg, h, req, wallet)
  }

  /** The store after the policy steps. */
  function UsedAfter(cfg: Config, req: Request, now: nat, used: map<string, nat>): map<string, nat> {
    match CheckPolicy(cfg, req, now).phase
    case AtTryUse(c, _) => if c.tokenId in used then used else used[c.tokenId := c.expiresAt]
    case _ => used
  }

  lemma PolicyEnds(cfg: Config, s: Service, h: nat, req: Request, input: Input)
    requires h < |s.handlers| && s.handlers[h] == Handler(req, AtPolicy) && h in s.sessions
    ensures EndsAs(cfg, s, Alone(cfg, s, h, input), h, req,
                   EndingOf(h, Refusal(cfg, h, req, s.now, s.used, input.wallet), input.engine))
    ensures Alone(cfg, s, h, input).used == UsedAfter(cfg, req, s.now, s.used)
  {
    var s1 := AfterPolicy(cfg, s, h, input);
    PolicySteps(cfg, s, h, req, input);
    if s1.handlers[h].phase.Denying? {
      DenyingEnds(cfg, s1, h, req, s1.handlers[h].phase.reason, s1.handlers[h].phase.code, input);
    } else {
      WalletEnds(cfg, s1, h, req, input);
    }
    EndsEarlier(cfg, s, s1, Alone(cfg, s, h, input), h, req,
                EndingOf(h, Refusal(cfg, h, req, s.now, s.used, input.wallet), input.engine));
  }

  // ---------------------------------------------------------------- the decision

  /** The token permits the request: it certifies claims that approve it, with an id not yet used. */
  ghost predicate Permits(V: Crypto, skew: nat, now: nat, used: map<string, nat>, req: Request, c: Claims)
    requires 1 <= req.chain <= 5
  {
    && Certifies(V, req.token, c) && c.tokenId !in used
    && Approves(V, skew, c, req.payload, req.key, CHAINS[req.chain - 1], now)
  }

  /** A permit is used up exactly when the service looks for one. */
  ghost predicate Consumed(
      V: Crypto, cfg: Config, now: nat, used: map<string, nat>, used': map<string, nat>, req: Request)
    requires 1 <= req.chain <= 5
  {
    var looks := !cfg.skipPolicy && cfg.hasVerifier;
    && (forall c :: looks && Permits(V, cfg.skew, now, used, req, c) ==> used' == used[c.tokenId := c.expiresAt])
    && (!(looks && exists c :: Permits(V, cfg.skew, now, used, req, c)) ==> used' == used)
  }

  /**
   How a request is settled. With bad arguments nothing is stored and nothing is
   recorded. Otherwise the first gate that applies denies it; if none does, the
   engine is called once and its answer is passed on. The session and the audit
   record say the same as the reply.
   */
  ghost predicate Settled(
      V: Crypto, cfg: Config, s: Service, h: nat, req: Request, input: Input,
      reply: Reply, used: map<string, nat>, sessions: map<nat, Session>, log: seq<Entry>)
  {
    var refusal := FirstRefusal(Gates(V, cfg, s.now, s.used, req, input.wallet));
    if !ArgumentsOk(req) then
      && refusal.Some? && reply == Failure(refusal.value.0, refusal.value.1)
      && used == s.used && sessions == s.sessions && log == s.log
    else
      var end, chain, hash := EndingOf(h, refusal, input.engine), CHAINS[req.chain - 1], V.sha(req.payload);
      && reply == end.reply
      && sessions == s.sessions[h := Session(req.key, chain, hash, end.status, end.reason)]
      && Traced(s.log, log, if end.called then Some(Called(h, req.key, chain, req.payload)) else None,
                Record(h, req.key, chain, hash, ResultOf(end.status), end.reason, end.signature))
      && Consumed(V, cfg, s.now, s.used, used, req)
  }

  /** A token permits a request exactly when its checks pass and its id is unused. */
  lemma PermitChecked(V: Crypto, cfg: Config, now: nat, used: map<string, nat>, req: Request)
    requires Runs(V, cfg) && ArgumentsOk(req)
    ensures forall c :: Permits(V, cfg.skew, now, used, req, c) <==> cfg.check(req, now) == Ok(c) && c.tokenId !in used
  {
    ArgumentsDecided(req);
    assert cfg.check(req, now) == Check(V, cfg.skew, req.token, req.payload, req.key, req.ChainOf(), now);
    CheckExact(V, cfg.skew, req.token, req.payload, req.key, req.ChainOf(), now);
  }

  lemma PermitsExact(V: Crypto, cfg: Config, now: nat, used: map<string, nat>, req: Request)
    requires Runs(V, cfg) && ArgumentsOk(req)
    ensures Consumed(V, cfg, now, used, UsedAfter(cfg, req, now, used), req)
  {
    PermitChecked(V, cfg, now, used, req);
    var r := cfg.check(req, now);
    if !cfg.skipPolicy && cfg.hasVerifier && r.Ok? && r.value.tokenId !in used {
      assert Permits(V, cfg.skew, now, used, req, r.value);
    }
  }

  lemma RefusalDecided(
      V: Crypto, cfg: Config, h: nat, req: Request, now: nat, used: map<string, nat>,
      wallet: Result<WalletRecord, WalletError>)
    requires Runs(V, cfg) && ArgumentsOk(req)
    ensures Refusal(cfg, h, req, now, used, wallet) == FirstRefusal(Gates(V, cfg, now, used, req, wallet))
  {
    var a, b := PolicyGates(V, cfg, now, used, req), WalletGates(cfg, req.key, wallet);
    PolicyDecided(V, cfg, h, req, now, used);
    WalletDecided(cfg, h, req, wallet);
    DecidedConcat(a, b, PolicyRefusal(cfg, h, req, now, used), WalletRefusal(cfg, h, req, wallet));
    DecidedIsFirst(a + b, Refusal(cfg, h, req, now, used, wallet));
  }

  /** With valid arguments, once the session is opened. */
  lemma OpenedSettles(V: Crypto, cfg: Config, s: Service, s1: Service, h: nat, req: Request, input: Input)
    requires Runs(V, cfg) && ArgumentsOk(req)
    requires h < |s1.handlers| && s1.handlers[h] == Handler(req, AtPolicy)
    requires s1.now == s.now && s1.used == s.used && s1.log == s.log
    requires s1.sessions == s.sessions[h := Session(req.key, req.ChainOf(), cfg.sha(req.payload), Pending, None)]
    ensures var s' := Alone(cfg, s1, h, input);
            && h < |s'.handlers| && s'.handlers[h].phase.Finished?
            && Settled(V, cfg, s, h, req, input, s'.handlers[h].phase.reply, s'.used, s'.sessions, s'.log)
  {
    PolicyEnds(cfg, s1, h, req, input);
    RefusalDecided(V, cfg, h, req, s.now, s.used, input.wallet);
    PermitsExact(V, cfg, s.now, s.used, req);
    EndsSettle(V, cfg, s, s1, Alone(cfg, s1, h, input), h, req, input);
  }

  lemma EndsSettle(V: Crypto, cfg: Config, s: Service, s1: Service, s': Service, h: nat, req: Request, input: Input)
    requires Runs(V, cfg) && ArgumentsOk(req) && s1.log == s.log
    requires s1.sessions == s.sessions[h := Session(req.key, req.ChainOf(), cfg.sha(req.payload), Pending, None)]
    requires var refusal := FirstRefusal(Gates(V, cfg, s.now, s.used, req, input.wallet));
             EndsAs(cfg, s1, s', h, req, EndingOf(h, refusal, input.engine))
    requires Consumed(V, cfg, s.now, s.used, s'.used, req)
    ensures Settled(V, cfg, s, h, req, input, s'.handlers[h].phase.reply, s'.used, s'.sessions, s'.log)
  {
    ArgumentsDecided(req);
    assert cfg.sha == V.sha;
  }

  /** The handler of a request, run to its end, settles it as the table says. */
  lemma SignTxDecides(V: Crypto, cfg: Config, s: Service, h: nat, req: Request, input: Input)
    requires Runs(V, cfg) && h < |s.handlers| && s.handlers[h] == Handler(req, Received) && h !in s.sessions
    ensures var s' := Alone(cfg, s, h, input);
            && h < |s'.handlers|
            && (s'.handlers[h].phase.Finished? || s'.handlers[h].phase.Rejected?)
            && Settled(V, cfg, s, h, req, input, s'.handlers[h].phase.reply, s'.used, s'.sessions, s'.log)
  {
    var s1 := Step(cfg, s, h, input);
    ArgumentsDecided(req);
    assert Alone(cfg, s, h, input) == Alone(cfg, s1, h, input);
    if req.BadArgument().Some? {
      DecidedIsFirst(ArgumentGates(req), Some((InvalidArgument, req.BadArgument().value)));
      assert s1.handlers[h].phase == Rejected(Failure(InvalidArgument, req.BadArgument().value));
    } else {
      assert s1.handlers[h] == Handler(req, AtPolicy);
      OpenedSettles(V, cfg, s, s1, h, req, input);
    }
  }

  /** With valid arguments the handler finishes, with the reply of the table. */
  lemma SignTxFinishes(V: Crypto, cfg: Config, s: Service, h: nat, req: Request, input: Input)
    requires Runs(V, cfg) && h < |s.handlers| && s.handlers[h] == Handler(req, Received) && h !in s.sessions
    requires ArgumentsOk(req)
    ensures var s' := Alone(cfg, s, h, input);
            var refusal := FirstRefusal(Gates(V, cfg, s.now, s.used, req, input.wallet));
            h < |s'.handlers| && s'.handlers[h].phase == Finished(EndingOf(h, refusal, input.engine).reply)
  {
    var s1 := Step(cfg, s, h, input);
    ArgumentsDecided(req);
    assert s1.handlers[h] == Handler(req, AtPolicy);
    assert Alone(cfg, s, h, input) == Alone(cfg, s1, h, input);
    OpenedSettles(V, cfg, s, s1, h, req, input);
  }

  /** The policy steps let through exactly the requests with a permit. */
  lemma PolicyOpen(V: Crypto, cfg: Config, h: nat, req: Request, now: nat, used: map<string, nat>)
    requires Runs(V, cfg) && ArgumentsOk(req) && cfg.hasVerifier && !cfg.skipPolicy
    ensures PolicyRefusal(cfg, h, req, now, used) == None <==> exists c :: Permits(V, cfg.skew, now, used, req, c)
  {
    PermitChecked(V, cfg, now, used, req);
    var r := cfg.check(req, now);
    if r.Ok? && r.value.tokenId !in used {
      assert Permits(V, cfg.skew, now, used, req, r.value);
    }
  }

  /** The wallet step lets through exactly the keys that the wallet's record names. */
  lemma WalletOpen(cfg: Config, h: nat, req: Request, wallet: Result<WalletRecord, WalletError>)
    requires req.key != "" && cfg.hasWallet && !cfg.skipWallet
    ensures WalletRefusal(cfg, h, req, wallet) == None <==> wallet.Ok? && Binds(wallet.value, req.key)
  {
  }

  lemma GatesOpen(
      V: Crypto, cfg: Config, now: nat, used: map<string, nat>, req: Request, wallet: Result<WalletRecord, WalletError>)
    requires Runs(V, cfg) && ArgumentsOk(req) && cfg.hasVerifier && cfg.hasWallet && !cfg.skipPolicy && !cfg.skipWallet
    ensures FirstRefusal(Gates(V, cfg, now, used, req, wallet)) == None <==>
            && (exists c :: Permits(V, cfg.skew, now, used, req, c))
            && wallet.Ok? && Binds(wallet.value, req.key)
  {
    RefusalDecided(V, cfg, 0, req, now, used, wallet);
    PolicyOpen(V, cfg, 0, req, now, used);
    WalletOpen(cfg, 0, req, wallet);
  }

  /** A settled request is answered with this signature exactly when nothing refused it and the engine gave it. */
  lemma SettledSigned(
      V: Crypto, cfg: Config, s: Service, h: nat, req: Request, input: Input, reply: Reply, used: map<string, nat>,
      sessions: map<nat, Session>, log: seq<Entry>, sig: EngineSignature)
    requires Settled(V, cfg, s, h, req, input, reply, used, sessions, log) && h !in s.sessions
    ensures reply == Success(h, sig.signature, sig.publicKey) && h in sessions && sessions[h].status == Signed <==>
            && ArgumentsOk(req) && input.engine == Ok(sig)
            && FirstRefusal(Gates(V, cfg, s.now, s.used, req, input.wallet)) == None
  {
    if input.engine.Ok? {
      var got := input.engine.value;
      assert got == EngineSignature(got.signature, got.publicKey);
    }
  }

  /**
   Exactly when a request is signed, with both checks on: valid arguments, a
   token that permits the request, a wallet record that names the key, and an
   engine that answers with this signature.
   */
  lemma SignedExactly(V: Crypto, cfg: Config, s: Service, h: nat, req: Request, input: Input, sig: EngineSignature)
    requires Runs(V, cfg) && cfg.hasVerifier && cfg.hasWallet && !cfg.skipPolicy && !cfg.skipWallet
    requires h < |s.handlers| && s.handlers[h] == Handler(req, Received) && h !in s.sessions
    ensures var s' := Alone(cfg, s, h, input);
            && h < |s'.handlers|
            && (s'.handlers[h].phase.Finished? || s'.handlers[h].phase.Rejected?)
            && (&& s'.handlers[h].phase.reply == Success(h, sig.signature, sig.publicKey)
                && h in s'.sessions && s'.sessions[h].status == Signed
                <==>
                && ArgumentsOk(req)
                && (exists c :: Permits(V, cfg.skew, s.now, s.used, req, c))
                && input.wallet.Ok? && Binds(input.wallet.value, req.key)
                && input.engine == Ok(sig))
  {
    SignTxDecides(V, cfg, s, h, req, input);
    var s' := Alone(cfg, s, h, input);
    SettledSigned(V, cfg, s, h, req, input, s'.handlers[h].phase.reply, s'.used, s'.sessions, s'.log, sig);
    if ArgumentsOk(req) { GatesOpen(V, cfg, s.now, s.used, req, input.wallet); }
  }
}

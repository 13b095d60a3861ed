/**
 The SignTx pipeline as interleaved steps. Each handler is a program counter;
 the shared state is the clock, the used-token store, the session store and a
 log of what happened. A handler's clock reading and its use of the token are
 separate steps, as they are separate calls.
 */
module Pipeline {
  import opened Wrappers
  import opened Domain
  import opened Policy

  /** The gRPC status codes a handler can answer with. */
  datatype Code =
    | InvalidArgument | FailedPrecondition | Unavailable | NotFound
    | PermissionDenied | Aborted | Unimplemented | Internal

  /** The answer to a SignTx call. */
  datatype Reply =
    | Success(session: nat, signature: Bytes, publicKey: Bytes)
    | Failure(code: Code, message: string)

  datatype Request = Request(chain: int, key: string, payload: Bytes, token: string, wallet: string)
  {
    /** The first complaint about the arguments, if any. */
    function BadArgument(): Option<string> {
      if Chain.FromProto(chain).None? then Some("unknown or unspecified chain")
      else if key == "" then Some("key_id is required")
      else if payload == [] then Some("tx_payload is required")
      else None
    }

    predicate ValidArgs() { BadArgument().None? }

    function ChainOf(): Chain {
      match Chain.FromProto(chain) case Some(c) => c case None => Evm
    }
  }

  datatype Status = Pending | Denied | Signing | Signed | Failed

  datatype Session = Session(key: string, chain: Chain, hash: string, status: Status, reason: Option<string>)

  datatype AuditResult = AuditSigned | AuditDenied | AuditFailed

  datatype Record = Record(session: nat, key: string, chain: Chain, hash: string, result: AuditResult,
                           reason: Option<string>, signature: Option<Bytes>)

  datatype WalletRecord = WalletRecord(keyIds: seq<string>, current: string)

  datatype WalletError = WalletUnavailable | WalletNotFound | KeyNotBound
  {
    function Text(): string {
      match this
      case WalletUnavailable => "wallet_management_unavailable"
      case WalletNotFound => "wallet_not_found"
      case KeyNotBound => "wallet_key_mismatch"
    }

    function Code(): Code {
      if WalletUnavailable? then Unavailable else FailedPrecondition
    }
  }

  datatype FaultKind = ProviderUnavailable | KeyNotFound | EngineDenied | Transient | Unsupported | InternalFault
  {
    function Code(): Code {
      match this
      case ProviderUnavailable => Unavailable
      case KeyNotFound => NotFound
      case EngineDenied => PermissionDenied
      case Transient => Aborted
      case Unsupported => Unimplemented
      case InternalFault => Internal
    }
  }

  /** An engine error and its text. */
  datatype EngineFault = EngineFault(kind: FaultKind, text: string)

  /** A produced signature and the public key it verifies against. */
  datatype EngineSignature = EngineSignature(signature: Bytes, publicKey: Bytes)

  /** Cross-check a key against Wallet Management's reply. */
  function CheckBinding(reply: Result<WalletRecord, WalletError>, key: string): Option<WalletError> {
    match reply
    case Err(e) => Some(e)
    case Ok(r) =>
      if r.keyIds == [] && r.current == "" then Some(WalletNotFound)
      else if r.current != key && key !in r.keyIds then Some(KeyNotBound)
      else None
  }

  /** The service's dependencies: the verifier's stateless checks at a given time, the payload hash, and the flags. */
  datatype Config = Config(
    check: (Request, nat) -> Result<Claims, DenyReason>, sha: Bytes -> string, skew: nat,
    hasVerifier: bool, hasWallet: bool, skipPolicy: bool, skipWallet: bool)

  /** A configuration whose verifier runs the token checks. */
  function Configure(
      V: Crypto, skew: nat, hasVerifier: bool, hasWallet: bool, skipPolicy: bool, skipWallet: bool): Config
  {
    Config((req: Request, now: nat) => Check(V, skew, req.token, req.payload, req.key, req.ChainOf(), now),
           V.sha, skew, hasVerifier, hasWallet, skipPolicy, skipWallet)
  }

  /** Claims c approve the payload, key and chain. */
  predicate Covers(cfg: Config, c: Claims, payload: Bytes, key: string, chain: Chain) {
    c.payloadHash == cfg.sha(payload) && c.key == key && c.chain == chain
  }

  ghost predicate FaithfulAt(cfg: Config, req: Request, now: nat) {
    var r := cfg.check(req, now);
    r.Ok? ==>
      && Covers(cfg, r.value, req.payload, req.key, req.ChainOf())
      && r.value.issuedAt <= now + cfg.skew && now <= r.value.expiresAt + cfg.skew
  }

  /** The verifier lets through only claims that cover the request and are fresh. */
  ghost predicate Faithful(cfg: Config) {
    forall req, now :: FaithfulAt(cfg, req, now)
  }

  lemma ConfigureFaithful(V: Crypto, skew: nat, hasVerifier: bool, hasWallet: bool, skipPolicy: bool, skipWallet: bool)
    ensures Faithful(Configure(V, skew, hasVerifier, hasWallet, skipPolicy, skipWallet))
  {
    var cfg := Configure(V, skew, hasVerifier, hasWallet, skipPolicy, skipWallet);
    forall req: Request, now ensures FaithfulAt(cfg, req, now) {
      assert cfg.check(req, now) == Check(V, skew, req.token, req.payload, req.key, req.ChainOf(), now);
    }
  }

  /** What the outside answers when a step asks it. */
  datatype Input = Input(wallet: Result<WalletRecord, WalletError>, engine: Result<EngineSignature, EngineFault>)

  datatype Phase =
    | Received
    | AtPolicy
    | AtTryUse(claims: Claims, readAt: nat)
    | AtWallet
    | AtDispatch
    | AtCall
    | AtEngine
    | Returned(outcome: Result<EngineSignature, EngineFault>)
    | Denying(reason: string, code: Code)
    | Auditing(record: Record, reply: Reply)
    | Finished(reply: Reply)
    | Rejected(reply: Reply)

  datatype Handler = Handler(req: Request, phase: Phase)

  datatype Entry =
    | Accepted(h: nat, claims: Claims, readAt: nat)
    | Bound(h: nat, wallet: string, key: string, reply: WalletRecord)
    | Called(h: nat, key: string, chain: Chain, payload: Bytes)
    | Emitted(record: Record)

  datatype Service = Service(now: nat, used: map<string, nat>, sessions: map<nat, Session>,
                             handlers: seq<Handler>, log: seq<Entry>)

  const IDLE := Service(0, map[], map[], [], [])

  // ---------------------------------------------------------------- steps

  /** What one step of a handler does: its next phase, and what it writes to the stores and the log. */
  datatype Effect = Effect(phase: Phase, session: Option<Session>, token: Option<(string, nat)>, entry: Option<Entry>)

  function Just(phase: Phase): Effect { Effect(phase, None, None, None) }

  /** Updating the status of a session that is not in the store does nothing. */
  function Mark(session: Option<Session>, status: Status, reason: Option<string>): Option<Session> {
    match session
    case Some(x) => Some(x.(status := status, reason := reason))
    case None => None
  }

  function Audit(
      cfg: Config, h: nat, req: Request, result: AuditResult, reason: Option<string>, signature: Option<Bytes>): Record
  {
    Record(h, req.key, req.ChainOf(), cfg.sha(req.payload), result, reason, signature)
  }

  function Open(cfg: Config, req: Request): Effect {
    match req.BadArgument()
    case Some(message) => Just(Rejected(Failure(InvalidArgument, message)))
    case None => Effect(AtPolicy, Some(Session(req.key, req.ChainOf(), cfg.sha(req.payload), Pending, None)), None,
      None)
  }

  function CheckPolicy(cfg: Config, req: Request, now: nat): Effect {
    if cfg.skipPolicy then Just(AtWallet)
    else if !cfg.hasVerifier then Just(Denying("policy_verifier_not_configured", FailedPrecondition))
    else
      match cfg.check(req, now)
      case Err(e) => Just(Denying(e.Text(), FailedPrecondition))
      case Ok(c) => Just(AtTryUse(c, now))
  }

  function UseToken(h: nat, c: Claims, readAt: nat, used: map<string, nat>): Effect {
    if c.tokenId in used then Just(Denying(Replayed.Text(), FailedPrecondition))
    else Effect(AtWallet, None, Some((c.tokenId, c.expiresAt)), Some(Accepted(h, c, readAt)))
  }

  function CheckWallet(cfg: Config, h: nat, req: Request, reply: Result<WalletRecord, WalletError>): Effect {
    if cfg.skipWallet then Just(AtDispatch)
    else if !cfg.hasWallet then Just(Denying("wallet_management_not_configured", FailedPrecondition))
    else
      match CheckBinding(reply, req.key)
      case Some(e) => Just(Denying(e.Text(), e.Code()))
      case None => Effect(AtDispatch, None, None, Some(Bound(h, req.wallet, req.key, reply.value)))
  }

  function Conclude(
      cfg: Config, h: nat, req: Request, session: Option<Session>, outcome: Result<EngineSignature, EngineFault>)
    : Effect
  {
    match outcome
    case Ok(sig) =>
      var record := Audit(cfg, h, req, AuditSigned, None, Some(sig.signature));
      Effect(Auditing(record, Success(h, sig.signature, sig.publicKey)), Mark(session, Signed, None), None, None)
    case Err(e) =>
      var record := Audit(cfg, h, req, AuditFailed, Some(e.text), None);
      Effect(Auditing(record, Failure(e.kind.Code(), e.text)), Mark(session, Failed, Some(e.text)), None, None)
  }

  function Deny(cfg: Config, h: nat, req: Request, session: Option<Session>, reason: string, code: Code): Effect {
    var record := Audit(cfg, h, req, AuditDenied, Some(reason), None);
    Effect(Auditing(record, Failure(code, reason)), Mark(session, Denied, Some(reason)), None, None)
  }

  /** One step of the handler of request `req`. */
  function React(cfg: Config, h: nat, req: Request, phase: Phase, session: Option<Session>,
                 now: nat, used: map<string, nat>, input: Input): Effect
  {
    match phase
    case Received => Open(cfg, req)
    case AtPolicy => CheckPolicy(cfg, req, now)
    case AtTryUse(c, readAt) => UseToken(h, c, readAt, used)
    case AtWallet => CheckWallet(cfg, h, req, input.wallet)
    case AtDispatch => Effect(AtCall, Mark(session, Signing, None), None, None)
    case AtCall => Effect(AtEngine, None, None, Some(Called(h, req.key, req.ChainOf(), req.payload)))
    case AtEngine => Just(Returned(input.engine))
    case Returned(outcome) => Conclude(cfg, h, req, session, outcome)
    case Denying(reason, code) => Deny(cfg, h, req, session, reason, code)
    case Auditing(record, reply) => Effect(Finished(reply), None, None, Some(Emitted(record)))
    case Finished(_) => Just(phase)
    case Rejected(_) => Just(phase)
  }

  /** The effect of handler h on the shared state. */
  function Apply(s: Service, h: nat, e: Effect): Service
    requires h < |s.handlers|
  {
    Service(
      s.now,
      if e.token.Some? then s.used[e.token.value.0 := e.token.value.1] else s.used,
      if e.session.Some? then s.sessions[h := e.session.value] else s.sessions,
      s.handlers[h := s.handlers[h].(phase := e.phase)],
      if e.entry.Some? then s.log + [e.entry.value] else s.log)
  }

  function SessionOf(s: Service, h: nat): Option<Session> {
    if h in s.sessions then Some(s.sessions[h]) else None
  }

  function EffectOf(cfg: Config, s: Service, h: nat, input: Input): Effect
    requires h < |s.handlers|
  {
    React(cfg, h, s.handlers[h].req, s.handlers[h].phase, SessionOf(s, h), s.now, s.used, input)
  }

  function Step(cfg: Config, s: Service, h: nat, input: Input): Service
    requires h < |s.handlers|
  {
    Apply(s, h, EffectOf(cfg, s, h, input))
  }

  datatype Action =
    | Arrive(req: Request)
    | Advance(h: nat, input: Input)
    | Tick(time: nat)
    | PruneAt(cutoff: nat)

  function Next(cfg: Config, s: Service, a: Action): Service {
    match a
    case Arrive(req) => s.(handlers := s.handlers + [Handler(req, Received)])
    case Advance(h, input) => if h < |s.handlers| then Step(cfg, s, h, input) else s
    case Tick(time) => s.(now := time)
    case PruneAt(cutoff) => s.(used := Pruned(s.used, cutoff))
  }

  function Run(cfg: Config, s: Service, actions: seq<Action>): Service {
    if actions == [] then s else Next(cfg, Run(cfg, s, actions[..|actions| - 1]), actions[|actions| - 1])
  }

  /** How many steps a handler has left. */
  function Rank(p: Phase): nat {
    match p
    case Received => 9
    case AtPolicy => 8
    case AtTryUse(_, _) => 7
    case AtWallet => 6
    case AtDispatch => 5
    case AtCall => 4
    case AtEngine => 3
    case Returned(_) => 2
    case Denying(_, _) => 2
    case Auditing(_, _) => 1
    case Finished(_) => 0
    case Rejected(_) => 0
  }

  lemma ReactProgress(cfg: Config, h: nat, req: Request, phase: Phase, session: Option<Session>,
                      now: nat, used: map<string, nat>, input: Input)
    ensures var e := React(cfg, h, req, phase, session, now, used, input);
            if Rank(phase) == 0 then e == Just(phase) else Rank(e.phase) < Rank(phase)
  {
  }

  /**
   Every step brings an unfinished handler closer to its end, whatever the others
   do, so none takes more than nine.
   */
  lemma StepProgress(cfg: Config, s: Service, h: nat, input: Input)
    requires h < |s.handlers|
    ensures var p, p' := s.handlers[h].phase, Step(cfg, s, h, input).handlers[h].phase;
            if Rank(p) == 0 then Step(cfg, s, h, input) == s else Rank(p') < Rank(p)
  {
    ReactProgress(cfg, h, s.handlers[h].req, s.handlers[h].phase, SessionOf(s, h), s.now, s.used, input);
    assert s.handlers[h := s.handlers[h]] == s.handlers;
  }
}

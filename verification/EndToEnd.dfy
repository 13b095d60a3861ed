/**
 The pipeline over the threshold engine: the engine's reply in the place of an
 arbitrary one, while keys are generated and rotated and nodes come and go
 between the handlers' steps.
 */
module EndToEnd {
  import opened Wrappers
  import opened Domain
  import opened ClusterSpec
  import opened EngineSpec
  import opened EngineRuns
  import opened ClusterRuns
  import Policy
  import P = Pipeline
  import D = Decisions
  import SingleUse
  import Gate
  import Sessions

  /** An action on the service, with the nonces the engine would draw, or an event at the engine. */
  datatype JointAction<S1, S2> =
    | Handle(action: P.Action, nonce: Nonces<S1, S2>)
    | EngineStep(event: EngineEvent<S1, S2>)

  datatype Joint<S1, S2> = Joint(service: P.Service, engine: EngineState<S1, S2>)

  /** What the handler gets for an engine error; `text` words it. */
  function Fault(e: EngineError, text: EngineError -> string): P.EngineFault {
    P.EngineFault(match e
                  case ProviderUnavailable => P.FaultKind.ProviderUnavailable
                  case KeyNotFound(_) => P.FaultKind.KeyNotFound
                  case Denied => P.EngineDenied
                  case Internal => P.InternalFault, text(e))
  }

  /** The engine's reply to a request; none when it panics. */
  ghost function Fetch<S1(!new), G1(!new), S2(!new), G2(!new)>(
      C: CurvePair<S1, G1, S2, G2>, text: EngineError -> string, st: EngineState<S1, S2>, req: P.Request,
      nonce: Nonces<S1, S2>)
    : Option<Result<P.EngineSignature, P.EngineFault>>
  {
    match EngineSign(C, st, req.key, req.ChainOf(), req.payload, nonce)
    case Answer(s) => Some(Ok(P.EngineSignature(s.sig, s.publicKey)))
    case Error(e) => Some(Err(Fault(e, text)))
    case Crash => None
  }

  /** Handler h waits for the engine. */
  predicate Calling<S1, S2>(s: Joint<S1, S2>, a: P.Action) {
    a.Advance? && a.h < |s.service.handlers| && s.service.handlers[a.h].phase.AtEngine?
  }

  /** The action with the engine's reply filled in. A handler whose engine call panics stays where it is. */
  ghost function Resolve<S1(!new), G1(!new), S2(!new), G2(!new)>(
      C: CurvePair<S1, G1, S2, G2>, text: EngineError -> string, s: Joint<S1, S2>, a: P.Action, nonce: Nonces<S1, S2>)
    : seq<P.Action>
  {
    if !Calling(s, a) then [a]
    else
      match Fetch(C, text, s.engine, s.service.handlers[a.h].req, nonce)
      case Some(r) => [a.(input := a.input.(engine := r))]
      case None => []
  }

  /** The actions on the service that a joint action stands for. */
  ghost function Stands<S1(!new), G1(!new), S2(!new), G2(!new)>(
      C: CurvePair<S1, G1, S2, G2>, text: EngineError -> string, s: Joint<S1, S2>, a: JointAction<S1, S2>)
    : seq<P.Action>
  {
    match a
    case Handle(action, nonce) => Resolve(C, text, s, action, nonce)
    case EngineStep(_) => []
  }

  ghost function JointNext<S1(!new), G1(!new), S2(!new), G2(!new)>(
      C: CurvePair<S1, G1, S2, G2>, cfg: P.Config, text: EngineError -> string, s: Joint<S1, S2>,
      a: JointAction<S1, S2>)
    : Joint<S1, S2>
  {
    var actions := Stands(C, text, s, a);
    Joint(if actions == [] then s.service else P.Next(cfg, s.service, actions[0]),
          if a.EngineStep? && EngineShape(s.engine) then EngineNext(C, s.engine, a.event) else s.engine)
  }

  ghost function JointRun<S1(!new), G1(!new), S2(!new), G2(!new)>(
      C: CurvePair<S1, G1, S2, G2>, cfg: P.Config, text: EngineError -> string, s: Joint<S1, S2>,
      actions: seq<JointAction<S1, S2>>): Joint<S1, S2>
  {
    if actions == [] then s
    else JointNext(C, cfg, text, JointRun(C, cfg, text, s, actions[..|actions| - 1]), actions[|actions| - 1])
  }

  ghost predicate ActionOk<S1(!new), G1(!new), S2(!new), G2(!new)>(
      C: CurvePair<S1, G1, S2, G2>, st: EngineState<S1, S2>, a: JointAction<S1, S2>)
  {
    match a
    case Handle(_, nonce) => C.ecdsa.Elem(nonce.ecdsa) && C.eddsa.Elem(nonce.eddsa)
    case EngineStep(e) => EngineEventOk(C, st, e)
  }

  ghost predicate JointRunOk<S1(!new), G1(!new), S2(!new), G2(!new)>(
      C: CurvePair<S1, G1, S2, G2>, cfg: P.Config, text: EngineError -> string, s: Joint<S1, S2>,
      actions: seq<JointAction<S1, S2>>)
  {
    actions == [] ||
    (var rest := actions[..|actions| - 1];
     JointRunOk(C, cfg, text, s, rest) && ActionOk(C, JointRun(C, cfg, text, s, rest).engine, actions[|actions| - 1]))
  }

  // ---------------------------------------------------------------- signatures

  /** The signature and public key a handler has in hand. */
  function Produced(phase: P.Phase): Option<(Bytes, Bytes)> {
    match phase
    case Returned(Ok(s)) => Some((s.signature, s.publicKey))
    case Auditing(_, Success(_, signature, publicKey)) => Some((signature, publicKey))
    case Finished(Success(_, signature, publicKey)) => Some((signature, publicKey))
    case _ => None
  }

  /** The engine's metadata shows `pk` for the key, under this scheme. */
  ghost predicate Shown<S1, S2>(st: EngineState<S1, S2>, key: string, scheme: Scheme, pk: Bytes) {
    && key in st.keys && st.keys[key] == scheme
    && EngineMetadata(st, key).Answer? && EngineMetadata(st, key).value.publicKey == pk
  }

  ghost predicate Verifies<S1(!new), G1(!new), S2(!new), G2(!new)>(
      C: CurvePair<S1, G1, S2, G2>, scheme: Scheme, pk: Bytes, payload: Bytes, sig: Bytes)
  {
    match scheme
    case Ecdsa => C.ecdsa.Verify(pk, payload, sig)
    case Eddsa => C.eddsa.Verify(pk, payload, sig)
  }

  /** The signature is over the request's payload, under the public key the engine shows for the request's key. */
  ghost predicate SignedFor<S1(!new), G1(!new), S2(!new), G2(!new)>(
      C: CurvePair<S1, G1, S2, G2>, st: EngineState<S1, S2>, req: P.Request, sig: Bytes, pk: Bytes)
  {
    var scheme := req.ChainOf().Scheme();
    Shown(st, req.key, scheme, pk) && Verifies(C, scheme, pk, req.payload, sig)
  }

  ghost predicate HandlerSigned<S1(!new), G1(!new), S2(!new), G2(!new)>(
      C: CurvePair<S1, G1, S2, G2>, st: EngineState<S1, S2>, handler: P.Handler)
  {
    Produced(handler.phase).Some? ==>
      SignedFor(C, st, handler.req, Produced(handler.phase).value.0, Produced(handler.phase).value.1)
  }

  ghost predicate JointInv<S1(!new), G1(!new), S2(!new), G2(!new)>(C: CurvePair<S1, G1, S2, G2>, s: Joint<S1, S2>) {
    && EngineGood(C, s.engine)
    && forall h :: 0 <= h < |s.service.handlers| ==> HandlerSigned(C, s.engine, s.service.handlers[h])
  }

  /** What the engine answers is signed for the request. */
  lemma FetchSigned<S1(!new), G1(!new), S2(!new), G2(!new)>(
      C: CurvePair<S1, G1, S2, G2>, text: EngineError -> string, st: EngineState<S1, S2>, req: P.Request,
      nonce: Nonces<S1, S2>)
    requires LawfulPair(C) && EngineGood(C, st) && C.ecdsa.Elem(nonce.ecdsa) && C.eddsa.Elem(nonce.eddsa)
    ensures var r := Fetch(C, text, st, req, nonce);
            r.Some? && r.value.Ok? ==> SignedFor(C, st, req, r.value.value.signature, r.value.value.publicKey)
  {
    if req.key in st.keys {
      assert Placed(st, req.key);
      var scheme := st.keys[req.key];
      var info := if scheme == Ecdsa then st.ecdsa.keys[req.key] else st.eddsa.keys[req.key];
      RecordedMetadata(st, req.key, scheme, info);
      EngineSignAnswers(C, st, req.key, scheme, info, req.ChainOf(), req.payload, nonce);
    }
  }

  /** A handler gets a signature only from the engine, and then keeps it. */
  lemma ReactProduced(cfg: P.Config, h: nat, req: P.Request, phase: P.Phase, session: Option<P.Session>,
                      now: nat, used: map<string, nat>, input: P.Input)
    ensures var e := P.React(cfg, h, req, phase, session, now, used, input);
            || Produced(e.phase).None?
            || Produced(e.phase) == Produced(phase)
            || (phase.AtEngine? && input.engine.Ok? && e.phase == P.Returned(input.engine))
  {
  }

  /** Events at the engine change no shown key. */
  lemma NextShown<S1(!new), G1(!new), S2(!new), G2(!new)>(
      C: CurvePair<S1, G1, S2, G2>, st: EngineState<S1, S2>, e: EngineEvent<S1, S2>, key: string, scheme: Scheme,
      pk: Bytes)
    requires EngineShape(st) && EngineEventOk(C, st, e) && Shown(st, key, scheme, pk)
    ensures Shown(EngineNext(C, st, e), key, scheme, pk)
  {
    var info := KeyInfo(pk, EngineMetadata(st, key).value.epoch);
    assert Recorded(st, key, scheme, info);
    NextRecorded(C, st, e, key, scheme, info);
    RecordedMetadata(EngineNext(C, st, e), key, scheme,
                     if Rotates(C, st, e, key) then info.(epoch := info.epoch + 1) else info);
  }

  lemma HandleInv<S1(!new), G1(!new), S2(!new), G2(!new)>(
      C: CurvePair<S1, G1, S2, G2>, cfg: P.Config, text: EngineError -> string, s: Joint<S1, S2>, a: P.Action,
      nonce: Nonces<S1, S2>)
    requires LawfulPair(C) && JointInv(C, s) && C.ecdsa.Elem(nonce.ecdsa) && C.eddsa.Elem(nonce.eddsa)
    ensures JointInv(C, JointNext(C, cfg, text, s, Handle(a, nonce)))
  {
    var actions, s' := Resolve(C, text, s, a, nonce), JointNext(C, cfg, text, s, Handle(a, nonce));
    if actions != [] && a.Advance? && a.h < |s.service.handlers| {
      var handler := s.service.handlers[a.h];
      FetchSigned(C, text, s.engine, handler.req, nonce);
      ReactProduced(cfg, a.h, handler.req, handler.phase, P.SessionOf(s.service, a.h), s.service.now, s.service.used,
        actions[0].input);
      assert HandlerSigned(C, s.engine, handler);
      assert HandlerSigned(C, s.engine, s'.service.handlers[a.h]);
    }
  }

  lemma EventInv<S1(!new), G1(!new), S2(!new), G2(!new)>(
      C: CurvePair<S1, G1, S2, G2>, cfg: P.Config, text: EngineError -> string, s: Joint<S1, S2>,
      e: EngineEvent<S1, S2>)
    requires LawfulPair(C) && JointInv(C, s) && EngineEventOk(C, s.engine, e)
    ensures JointInv(C, JointNext(C, cfg, text, s, EngineStep(e)))
  {
    var s' := JointNext(C, cfg, text, s, EngineStep(e));
    EngineNextGood(C, s.engine, e);
    forall h | 0 <= h < |s.service.handlers| ensures HandlerSigned(C, s'.engine, s.service.handlers[h]) {
      var handler := s.service.handlers[h];
      assert HandlerSigned(C, s.engine, handler);
      if Produced(handler.phase).Some? {
        NextShown(C, s.engine, e, handler.req.key, handler.req.ChainOf().Scheme(), Produced(handler.phase).value.1);
      }
    }
  }

  lemma {:induction false} JointRunInv<S1(!new), G1(!new), S2(!new), G2(!new)>(
      C: CurvePair<S1, G1, S2, G2>, cfg: P.Config, text: EngineError -> string, s: Joint<S1, S2>,
      actions: seq<JointAction<S1, S2>>)
    requires LawfulPair(C) && JointInv(C, s) && JointRunOk(C, cfg, text, s, actions)
    ensures JointInv(C, JointRun(C, cfg, text, s, actions))
  {
    if actions != [] {
      var k := |actions| - 1;
      JointRunInv(C, cfg, text, s, actions[..k]);
      var before := JointRun(C, cfg, text, s, actions[..k]);
      match actions[k]
      case Handle(a, nonce) => HandleInv(C, cfg, text, before, a, nonce);
      case EngineStep(e) => EventInv(C, cfg, text, before, e);
    }
  }

  // ---------------------------------------------------------------- the service's own run

  /** The run of the service inside a joint run. */
  ghost function Projected<S1(!new), G1(!new), S2(!new), G2(!new)>(
      C: CurvePair<S1, G1, S2, G2>, cfg: P.Config, text: EngineError -> string, s: Joint<S1, S2>,
      actions: seq<JointAction<S1, S2>>): seq<P.Action>
  {
    if actions == [] then []
    else
      var rest := actions[..|actions| - 1];
      Projected(C, cfg, text, s, rest) + Stands(C, text, JointRun(C, cfg, text, s, rest), actions[|actions| - 1])
  }

  /** What is proved of every run of the service holds of its part in a joint run. */
  lemma {:induction false} ServiceRuns<S1(!new), G1(!new), S2(!new), G2(!new)>(
      C: CurvePair<S1, G1, S2, G2>, cfg: P.Config, text: EngineError -> string, s: Joint<S1, S2>,
      actions: seq<JointAction<S1, S2>>)
    ensures JointRun(C, cfg, text, s, actions).service == P.Run(cfg, s.service, Projected(C, cfg, text, s, actions))
  {
    if actions != [] {
      var rest := actions[..|actions| - 1];
      ServiceRuns(C, cfg, text, s, rest);
      var before, stands := Projected(C, cfg, text, s, rest),
        Stands(C, text, JointRun(C, cfg, text, s, rest), actions[|actions| - 1]);
      if stands == [] {
        assert before + stands == before;
      } else {
        assert stands == [stands[0]];
        SingleUse.RunAppend(cfg, s.service, before, stands[0]);
      }
    }
  }

  /** A new service over a new engine. */
  function Start<S1, S2>(t: nat, n: nat, timeoutMs: nat): Joint<S1, S2>
    requires 1 <= t <= n
  {
    Joint(P.IDLE, EngineState(Initial<S1>(t, n, timeoutMs), Initial<S2>(t, n, timeoutMs), map[]))
  }

  /**
   A signature returned for request h: it verifies over the request's payload
   under the returned public key, which the engine shows for the request's key;
   and the handler had consumed an approval of exactly this payload, key and
   chain, and then found the key bound to the wallet.
   */
  ghost predicate Served<S1(!new), G1(!new), S2(!new), G2(!new)>(
      C: CurvePair<S1, G1, S2, G2>, cfg: P.Config, s: Joint<S1, S2>, h: nat)
    requires h < |s.service.handlers|
  {
    var req, phase, log := s.service.handlers[h].req, s.service.handlers[h].phase, s.service.log;
    phase.Finished? && phase.reply.Success? ==>
      && phase.reply.session == h
      && SignedFor(C, s.engine, req, phase.reply.signature, phase.reply.publicKey)
      && (!cfg.skipPolicy && !cfg.skipWallet ==>
            Gate.ClearedBy(cfg, log, |log|, h, req.key, req.ChainOf(), req.payload))
  }

  lemma HandlerServed<S1(!new), G1(!new), S2(!new), G2(!new)>(
      C: CurvePair<S1, G1, S2, G2>, cfg: P.Config, s: Joint<S1, S2>, actions: seq<P.Action>, h: nat)
    requires JointInv(C, s) && P.Faithful(cfg) && s.service == P.Run(cfg, P.IDLE, actions) && h < |s.service.handlers|
    ensures Served(C, cfg, s, h)
  {
    assert HandlerSigned(C, s.engine, s.service.handlers[h]);
    Sessions.SessionsAndAuditAgree(cfg, actions);
    assert Sessions.HandlerOk(cfg, s.service, h);
    if !cfg.skipPolicy && !cfg.skipWallet {
      Gate.EngineCallsGated(cfg, actions);
    }
  }

  /** On every interleaving of requests, key generations, rotations and outages, every signature returned is served. */
  lemma EverySignatureServed<S1(!new), G1(!new), S2(!new), G2(!new)>(
      C: CurvePair<S1, G1, S2, G2>, cfg: P.Config, text: EngineError -> string, t: nat, n: nat, timeoutMs: nat,
      actions: seq<JointAction<S1, S2>>, h: nat)
    requires LawfulPair(C) && P.Faithful(cfg) && 1 <= t <= n < C.ecdsa.order && n < C.eddsa.order
    requires JointRunOk(C, cfg, text, Start(t, n, timeoutMs), actions)
    requires h < |JointRun(C, cfg, text, Start(t, n, timeoutMs), actions).service.handlers|
    ensures Served(C, cfg, JointRun(C, cfg, text, Start(t, n, timeoutMs), actions), h)
  {
    var start := Start<S1, S2>(t, n, timeoutMs);
    EngineInitialGood(C, t, n, timeoutMs);
    JointRunInv(C, cfg, text, start, actions);
    ServiceRuns(C, cfg, text, start, actions);
    HandlerServed(C, cfg, JointRun(C, cfg, text, start, actions), Projected(C, cfg, text, start, actions), h);
  }

  // ---------------------------------------------------------------- when a request is served

  /** The status code and text that report an engine error. */
  lemma FaultReported(e: EngineError, text: EngineError -> string)
    ensures Fault(e, text).text == text(e)
    ensures Fault(e, text).kind.Code() ==
            match e
            case ProviderUnavailable => P.Unavailable
            case KeyNotFound(_) => P.NotFound
            case Denied => P.PermissionDenied
            case Internal => P.Code.Internal
  {
  }

  /** The cluster of the chain's curve knows the key, and enough of its nodes answer. */
  ghost predicate Available<S1, S2>(st: EngineState<S1, S2>, key: string, chain: Chain) {
    || (key in st.ecdsa.keys && chain in {Evm, Bitcoin}
        && |Responders(st.ecdsa.nodes, st.ecdsa.timeoutMs)| >= st.ecdsa.t)
    || (key in st.eddsa.keys && chain in {Solana, Aptos, Sui}
        && |Responders(st.eddsa.nodes, st.eddsa.timeoutMs)| >= st.eddsa.t)
  }

  /** The key is known under the other curve. */
  ghost predicate OtherCurve<S1, S2>(st: EngineState<S1, S2>, key: string, chain: Chain) {
    (key in st.ecdsa.keys && chain in {Solana, Aptos, Sui}) || (key in st.eddsa.keys && chain in {Evm, Bitcoin})
  }

  /** What the engine's reply to a request is, when it does not panic. */
  lemma FetchExact<S1(!new), G1(!new), S2(!new), G2(!new)>(
      C: CurvePair<S1, G1, S2, G2>, text: EngineError -> string, st: EngineState<S1, S2>, req: P.Request,
      nonce: Nonces<S1, S2>)
    requires LawfulPair(C) && EngineGood(C, st) && C.ecdsa.Elem(nonce.ecdsa) && C.eddsa.Elem(nonce.eddsa)
    requires Fetch(C, text, st, req, nonce).Some?
    ensures var r, chain := Fetch(C, text, st, req, nonce).value, req.ChainOf();
            && (r.Ok? <==> Available(st, req.key, chain))
            && (req.key !in st.ecdsa.keys && req.key !in st.eddsa.keys ==>
                  r == Err(P.EngineFault(P.FaultKind.KeyNotFound, text(KeyNotFound(req.key)))))
            && (OtherCurve(st, req.key, chain) ==> r == Err(P.EngineFault(P.EngineDenied, text(Denied))))
            && ((req.key in st.ecdsa.keys || req.key in st.eddsa.keys)
                && !OtherCurve(st, req.key, chain) && !Available(st, req.key, chain) ==>
                  r == Err(P.EngineFault(P.FaultKind.ProviderUnavailable, text(ProviderUnavailable))))
  {
    assert Placed(st, req.key);
    EngineSignExact(C, st, req.key, req.ChainOf(), req.payload, nonce);
  }

  /** The reply to a request that nothing refused, over the engine. */
  ghost predicate Reported<S1(!new), G1(!new), S2(!new), G2(!new)>(
      C: CurvePair<S1, G1, S2, G2>, text: EngineError -> string, st: EngineState<S1, S2>, h: nat, req: P.Request,
      reply: P.Reply)
  {
    var key, chain := req.key, req.ChainOf();
    if Available(st, key, chain) then
      reply.Success? && reply.session == h && SignedFor(C, st, req, reply.signature, reply.publicKey)
    else if key !in st.ecdsa.keys && key !in st.eddsa.keys then
      reply == P.Failure(P.NotFound, text(KeyNotFound(key)))
    else if OtherCurve(st, key, chain) then reply == P.Failure(P.PermissionDenied, text(Denied))
    else reply == P.Failure(P.Unavailable, text(ProviderUnavailable))
  }

  lemma FetchReported<S1(!new), G1(!new), S2(!new), G2(!new)>(
      C: CurvePair<S1, G1, S2, G2>, text: EngineError -> string, st: EngineState<S1, S2>, h: nat, req: P.Request,
      nonce: Nonces<S1, S2>)
    requires LawfulPair(C) && EngineGood(C, st) && C.ecdsa.Elem(nonce.ecdsa) && C.eddsa.Elem(nonce.eddsa)
    requires Fetch(C, text, st, req, nonce).Some?
    ensures Reported(C, text, st, h, req, D.EngineEnding(h, Fetch(C, text, st, req, nonce).value).reply)
  {
    FetchExact(C, text, st, req, nonce);
    FetchSigned(C, text, st, req, nonce);
  }

  /**
   A request with valid arguments, a token that permits it and a wallet that
   names its key is answered with a verifying signature exactly when the cluster
   of its chain's curve knows the key and a quorum answers; otherwise the reply
   says that the key is unknown, belongs to the other curve, or is unavailable.
   */
  lemma PermittedIsServed<S1(!new), G1(!new), S2(!new), G2(!new)>(
      C: CurvePair<S1, G1, S2, G2>, V: Policy.Crypto, cfg: P.Config, text: EngineError -> string, s: Joint<S1, S2>,
      h: nat, req: P.Request, wallet: P.WalletRecord, nonce: Nonces<S1, S2>, c: Policy.Claims)
    requires LawfulPair(C) && EngineGood(C, s.engine) && C.ecdsa.Elem(nonce.ecdsa) && C.eddsa.Elem(nonce.eddsa)
    requires D.Runs(V, cfg) && cfg.hasVerifier && cfg.hasWallet && !cfg.skipPolicy && !cfg.skipWallet
    requires h < |s.service.handlers| && s.service.handlers[h] == P.Handler(req, P.Received) && h !in s.service.sessions
    requires D.ArgumentsOk(req) && D.Permits(V, cfg.skew, s.service.now, s.service.used, req, c)
    requires D.Binds(wallet, req.key) && Fetch(C, text, s.engine, req, nonce).Some?
    ensures var s' := D.Alone(cfg, s.service, h, P.Input(Ok(wallet), Fetch(C, text, s.engine, req, nonce).value));
            && h < |s'.handlers| && s'.handlers[h].phase.Finished?
            && Reported(C, text, s.engine, h, req, s'.handlers[h].phase.reply)
  {
    var fetched := Fetch(C, text, s.engine, req, nonce).value;
    var input := P.Input(Ok(wallet), fetched);
    FetchReported(C, text, s.engine, h, req, nonce);
    PermittedPasses(V, cfg, s.service, h, req, input, c);
  }

  /** With a permit and a binding, the engine's answer is the reply. */
  lemma PermittedPasses(
      V: Policy.Crypto, cfg: P.Config, s: P.Service, h: nat, req: P.Request, input: P.Input, c: Policy.Claims)
    requires D.Runs(V, cfg) && cfg.hasVerifier && cfg.hasWallet && !cfg.skipPolicy && !cfg.skipWallet
    requires h < |s.handlers| && s.handlers[h] == P.Handler(req, P.Received) && h !in s.sessions
    requires D.ArgumentsOk(req) && D.Permits(V, cfg.skew, s.now, s.used, req, c)
    requires input.wallet.Ok? && D.Binds(input.wallet.value, req.key)
    ensures var s' := D.Alone(cfg, s, h, input);
            && h < |s'.handlers|
            && s'.handlers[h].phase == P.Finished(D.EngineEnding(h, input.engine).reply)
  {
    D.GatesOpen(V, cfg, s.now, s.used, req, input.wallet);
    D.SignTxFinishes(V, cfg, s, h, req, input);
  }
}

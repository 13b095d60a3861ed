/** Gate safety: no engine call without its own handler's consumed approval and a successful wallet binding. */
module Gate {
  import opened Wrappers
  import opened Domain
  import opened Policy
  import opened Pipeline
  import opened SingleUse

  /** Entry j is handler h's consumed approval of this payload, key and chain, fresh when it was checked. */
  ghost predicate ApprovalAt(cfg: Config, log: seq<Entry>, j: nat, h: nat, key: string, chain: Chain, payload: Bytes)
    requires j < |log|
  {
    && log[j].Accepted? && log[j].h == h && Covers(cfg, log[j].claims, payload, key, chain)
    && log[j].readAt <= log[j].claims.expiresAt + cfg.skew
  }

  /** Entry k is a reply of Wallet Management to handler h that binds the key. */
  ghost predicate BindingAt(log: seq<Entry>, k: nat, h: nat, key: string)
    requires k < |log|
  {
    log[k].Bound? && log[k].h == h && log[k].key == key && (log[k].reply.current == key || key in log[k].reply.keyIds)
  }

  ghost predicate ApprovedBy(cfg: Config, log: seq<Entry>, n: nat, h: nat, key: string, chain: Chain, payload: Bytes)
    requires n <= |log|
  {
    exists j :: 0 <= j < n && ApprovalAt(cfg, log, j, h, key, chain, payload)
  }

  /** Before entry n: an approval, and after it a binding. */
  ghost predicate ClearedBy(cfg: Config, log: seq<Entry>, n: nat, h: nat, key: string, chain: Chain, payload: Bytes)
    requires n <= |log|
  {
    exists j, k :: 0 <= j < k < n && ApprovalAt(cfg, log, j, h, key, chain, payload) && BindingAt(log, k, h, key)
  }

  /** An engine call at entry i is preceded by its own handler's approval and binding for exactly what it signs. */
  ghost predicate GatedAt(cfg: Config, log: seq<Entry>, i: nat)
    requires i < |log|
  {
    log[i].Called? ==> ClearedBy(cfg, log, i, log[i].h, log[i].key, log[i].chain, log[i].payload)
  }

  ghost predicate Gated(cfg: Config, log: seq<Entry>) {
    forall i :: 0 <= i < |log| ==> GatedAt(cfg, log, i)
  }

  /** What a handler's phase says about the log. */
  ghost predicate PhaseGate(cfg: Config, log: seq<Entry>, h: nat, req: Request, phase: Phase) {
    match phase
    case AtTryUse(c, readAt) => Covers(cfg, c, req.payload, req.key, req.ChainOf()) && readAt <= c.expiresAt + cfg.skew
    case AtWallet => ApprovedBy(cfg, log, |log|, h, req.key, req.ChainOf(), req.payload)
    case AtDispatch | AtCall | AtEngine | Returned(_) =>
      ClearedBy(cfg, log, |log|, h, req.key, req.ChainOf(), req.payload)
    case Auditing(_, reply) => reply.Success? ==> ClearedBy(cfg, log, |log|, h, req.key, req.ChainOf(), req.payload)
    case Finished(reply) => reply.Success? ==> ClearedBy(cfg, log, |log|, h, req.key, req.ChainOf(), req.payload)
    case _ => true
  }

  ghost predicate GateInv(cfg: Config, s: Service) {
    && Gated(cfg, s.log)
    && forall h :: 0 <= h < |s.handlers| ==> PhaseGate(cfg, s.log, h, s.handlers[h].req, s.handlers[h].phase)
  }

  // ---------------------------------------------------------------- the log only grows

  lemma ApprovedGrows(cfg: Config, log: seq<Entry>, e: Entry, n: nat, h: nat, key: string, chain: Chain, payload: Bytes)
    requires n <= |log| && ApprovedBy(cfg, log, n, h, key, chain, payload)
    ensures ApprovedBy(cfg, log + [e], n, h, key, chain, payload)
    ensures ApprovedBy(cfg, log + [e], |log| + 1, h, key, chain, payload)
  {
    var j :| 0 <= j < n && ApprovalAt(cfg, log, j, h, key, chain, payload);
    assert ApprovalAt(cfg, log + [e], j, h, key, chain, payload);
  }

  lemma ClearedGrows(cfg: Config, log: seq<Entry>, e: Entry, n: nat, h: nat, key: string, chain: Chain, payload: Bytes)
    requires n <= |log| && ClearedBy(cfg, log, n, h, key, chain, payload)
    ensures ClearedBy(cfg, log + [e], n, h, key, chain, payload)
    ensures ClearedBy(cfg, log + [e], |log| + 1, h, key, chain, payload)
  {
    var j, k :| 0 <= j < k < n && ApprovalAt(cfg, log, j, h, key, chain, payload) && BindingAt(log, k, h, key);
    assert ApprovalAt(cfg, log + [e], j, h, key, chain, payload) && BindingAt(log + [e], k, h, key);
  }

  lemma PhaseGateGrows(cfg: Config, log: seq<Entry>, e: Entry, h: nat, req: Request, phase: Phase)
    requires PhaseGate(cfg, log, h, req, phase)
    ensures PhaseGate(cfg, log + [e], h, req, phase)
  {
    match phase
    case AtWallet => ApprovedGrows(cfg, log, e, |log|, h, req.key, req.ChainOf(), req.payload);
    case _ =>
      if ClearedBy(cfg, log, |log|, h, req.key, req.ChainOf(), req.payload) {
        ClearedGrows(cfg, log, e, |log|, h, req.key, req.ChainOf(), req.payload);
      }
  }

  lemma GatedGrows(cfg: Config, log: seq<Entry>, e: Entry)
    requires Gated(cfg, log)
    requires e.Called? ==> ClearedBy(cfg, log, |log|, e.h, e.key, e.chain, e.payload)
    ensures Gated(cfg, log + [e])
  {
    forall i | 0 <= i < |log + [e]| ensures GatedAt(cfg, log + [e], i) {
      if i < |log| {
        assert GatedAt(cfg, log, i);
        if log[i].Called? { ClearedGrows(cfg, log, e, i, log[i].h, log[i].key, log[i].chain, log[i].payload); }
      } else if e.Called? {
        ClearedGrows(cfg, log, e, |log|, e.h, e.key, e.chain, e.payload);
      }
    }
  }

  // ---------------------------------------------------------------- one step

  /** The log after an effect. */
  function Grown(log: seq<Entry>, e: Effect): seq<Entry> {
    if e.entry.Some? then log + [e.entry.value] else log
  }

  lemma ReactGate(cfg: Config, log: seq<Entry>, h: nat, req: Request, phase: Phase, session: Option<Session>,
                  now: nat, used: map<string, nat>, input: Input)
    requires Faithful(cfg) && !cfg.skipPolicy && !cfg.skipWallet && PhaseGate(cfg, log, h, req, phase)
    ensures var e := React(cfg, h, req, phase, session, now, used, input);
            && PhaseGate(cfg, Grown(log, e), h, req, e.phase)
            && (e.entry.Some? && e.entry.value.Called? ==>
                  var c := e.entry.value; ClearedBy(cfg, log, |log|, c.h, c.key, c.chain, c.payload))
  {
    var e := React(cfg, h, req, phase, session, now, used, input);
    match phase
    case AtPolicy => assert FaithfulAt(cfg, req, now);
    case AtTryUse(c, readAt) =>
      if c.tokenId !in used {
        assert ApprovalAt(cfg, log + [e.entry.value], |log|, h, req.key, req.ChainOf(), req.payload);
      }
    case AtWallet =>
      if e.entry.Some? {
        var j :| 0 <= j < |log| && ApprovalAt(cfg, log, j, h, req.key, req.ChainOf(), req.payload);
        var log' := log + [e.entry.value];
        assert ApprovalAt(cfg, log', j, h, req.key, req.ChainOf(), req.payload) && BindingAt(log', |log|, h, req.key);
      }
    case AtCall => PhaseGateGrows(cfg, log, e.entry.value, h, req, phase);
    case Auditing(_, _) => PhaseGateGrows(cfg, log, e.entry.value, h, req, phase);
    case _ =>
  }

  lemma StepGate(cfg: Config, s: Service, h: nat, input: Input)
    requires Faithful(cfg) && !cfg.skipPolicy && !cfg.skipWallet && GateInv(cfg, s) && h < |s.handlers|
    ensures GateInv(cfg, Step(cfg, s, h, input))
  {
    var s', e := Step(cfg, s, h, input), EffectOf(cfg, s, h, input);
    ReactGate(cfg, s.log, h, s.handlers[h].req, s.handlers[h].phase, SessionOf(s, h), s.now, s.used, input);
    if e.entry.Some? { GatedGrows(cfg, s.log, e.entry.value); }
    forall k | 0 <= k < |s'.handlers| ensures PhaseGate(cfg, s'.log, k, s'.handlers[k].req, s'.handlers[k].phase) {
      if k != h && e.entry.Some? {
        PhaseGateGrows(cfg, s.log, e.entry.value, k, s.handlers[k].req, s.handlers[k].phase);
      }
    }
  }

  /** Over every interleaving each engine call, and each signature returned, is gated, pruned store or not. */
  lemma {:induction false} EngineCallsGated(cfg: Config, actions: seq<Action>)
    requires Faithful(cfg) && !cfg.skipPolicy && !cfg.skipWallet
    ensures GateInv(cfg, Run(cfg, IDLE, actions))
    ensures Gated(cfg, Run(cfg, IDLE, actions).log)
  {
    if actions != [] {
      var k := |actions| - 1;
      EngineCallsGated(cfg, actions[..k]);
      var s := Run(cfg, IDLE, actions[..k]);
      if actions[k].Advance? && actions[k].h < |s.handlers| {
        StepGate(cfg, s, actions[k].h, actions[k].input);
      }
    }
  }

  // ---------------------------------------------------------------- counting

  function Calls(log: seq<Entry>): nat {
    if log == [] then 0 else Calls(log[..|log| - 1]) + if log[|log| - 1].Called? then 1 else 0
  }

  function Acceptances(log: seq<Entry>): nat {
    if log == [] then 0 else Acceptances(log[..|log| - 1]) + if log[|log| - 1].Accepted? then 1 else 0
  }

  predicate Waits(p: Phase) { p.AtWallet? || p.AtDispatch? || p.AtCall? }

  /** Handlers that have consumed a token and not called the engine. */
  function Waiting(handlers: seq<Handler>): nat {
    if handlers == [] then 0
    else Waiting(handlers[..|handlers| - 1]) + if Waits(handlers[|handlers| - 1].phase) then 1 else 0
  }

  lemma {:induction false} WaitingUpdate(handlers: seq<Handler>, h: nat, p: Phase)
    requires h < |handlers|
    ensures Waiting(handlers[h := handlers[h].(phase := p)]) ==
            Waiting(handlers) + (if Waits(p) then 1 else 0) - (if Waits(handlers[h].phase) then 1 else 0)
  {
    var k := |handlers| - 1;
    var next := handlers[h := handlers[h].(phase := p)];
    if h < k {
      assert next[..k] == handlers[..k][h := handlers[..k][h].(phase := p)];
      WaitingUpdate(handlers[..k], h, p);
    } else {
      assert next[..k] == handlers[..k];
    }
  }

  lemma CountsAppend(log: seq<Entry>, e: Entry)
    ensures Calls(log + [e]) == Calls(log) + if e.Called? then 1 else 0
    ensures Acceptances(log + [e]) == Acceptances(log) + if e.Accepted? then 1 else 0
  {
    assert (log + [e])[..|log|] == log;
  }

  /** How a step moves the balance of acceptances, waiting handlers and calls. */
  lemma ReactBalance(cfg: Config, h: nat, req: Request, phase: Phase, session: Option<Session>,
                     now: nat, used: map<string, nat>, input: Input)
    requires !cfg.skipPolicy && !cfg.skipWallet
    ensures var e := React(cfg, h, req, phase, session, now, used, input);
            && (e.entry.Some? && e.entry.value.Called? ==> Waits(phase) && !Waits(e.phase))
            && (Waits(e.phase) && !Waits(phase) ==> e.entry.Some? && e.entry.value.Accepted?)
            && (e.entry.Some? && e.entry.value.Accepted? ==> !Waits(phase))
  {
  }

  /** Every call and every waiting handler has its own acceptance. */
  ghost predicate Balanced(s: Service) {
    Calls(s.log) + Waiting(s.handlers) <= Acceptances(s.log)
  }

  lemma StepBalanced(cfg: Config, s: Service, h: nat, input: Input)
    requires !cfg.skipPolicy && !cfg.skipWallet && h < |s.handlers| && Balanced(s)
    ensures Balanced(Step(cfg, s, h, input))
  {
    var e := EffectOf(cfg, s, h, input);
    ReactBalance(cfg, h, s.handlers[h].req, s.handlers[h].phase, SessionOf(s, h), s.now, s.used, input);
    WaitingUpdate(s.handlers, h, e.phase);
    if e.entry.Some? { CountsAppend(s.log, e.entry.value); }
  }

  lemma ArriveBalanced(s: Service, req: Request)
    requires Balanced(s)
    ensures Balanced(s.(handlers := s.handlers + [Handler(req, Received)]))
  {
    assert (s.handlers + [Handler(req, Received)])[..|s.handlers|] == s.handlers;
  }

  lemma NextBalanced(cfg: Config, s: Service, a: Action)
    requires !cfg.skipPolicy && !cfg.skipWallet && Balanced(s)
    ensures Balanced(Next(cfg, s, a))
  {
    match a
    case Arrive(req) => ArriveBalanced(s, req);
    case Advance(h, input) => if h < |s.handlers| { StepBalanced(cfg, s, h, input); }
    case Tick(time) => assert Next(cfg, s, a).handlers == s.handlers && Next(cfg, s, a).log == s.log;
    case PruneAt(cutoff) => assert Next(cfg, s, a).handlers == s.handlers && Next(cfg, s, a).log == s.log;
  }

  lemma {:induction false} CallsBalanced(cfg: Config, actions: seq<Action>)
    requires !cfg.skipPolicy && !cfg.skipWallet
    ensures Balanced(Run(cfg, IDLE, actions))
  {
    if actions != [] {
      var k := |actions| - 1;
      CallsBalanced(cfg, actions[..k]);
      NextBalanced(cfg, Run(cfg, IDLE, actions[..k]), actions[k]);
    }
  }

  function ConsumedIds(log: seq<Entry>): set<string> {
    set i | 0 <= i < |log| && log[i].Accepted? :: log[i].claims.tokenId
  }

  /** When no id is accepted twice, acceptances count distinct ids. */
  lemma {:induction false} AcceptancesAreIds(log: seq<Entry>)
    requires AcceptedOnce(log)
    ensures Acceptances(log) == |ConsumedIds(log)|
  {
    if log != [] {
      var k := |log| - 1;
      var rest, e := log[..k], log[k];
      assert AcceptedOnce(rest) by {
        forall i, j, id | 0 <= i < j < |rest| && AcceptedId(rest[i], id) ensures !AcceptedId(rest[j], id) {
          assert AcceptedId(log[i], id);
        }
      }
      AcceptancesAreIds(rest);
      if e.Accepted? {
        var id := e.claims.tokenId;
        assert id !in ConsumedIds(rest) by {
          if id in ConsumedIds(rest) {
            var i :| 0 <= i < k && rest[i].Accepted? && rest[i].claims.tokenId == id;
            assert AcceptedId(log[i], id) && AcceptedId(log[k], id);
          }
        }
        assert ConsumedIds(log) == ConsumedIds(rest) + {id};
      } else {
        assert ConsumedIds(log) == ConsumedIds(rest);
      }
    }
  }

  /** There are never more engine calls than distinct consumed token ids. */
  lemma CallsWithinTokens(cfg: Config, expiry: string -> nat, actions: seq<Action>)
    requires Faithful(cfg) && ExpiryFixed(cfg, expiry, actions) && RunOk(cfg, IDLE, actions)
    requires !cfg.skipPolicy && !cfg.skipWallet
    ensures var log := Run(cfg, IDLE, actions).log; Calls(log) <= |ConsumedIds(log)|
  {
    CallsBalanced(cfg, actions);
    AcceptedAtMostOnce(cfg, expiry, actions);
    AcceptancesAreIds(Run(cfg, IDLE, actions).log);
  }

  // ---------------------------------------------------------------- whose token, whose request

  /** The entry is about its own handler's request: its token, checked at the reading, its wallet, or what it signs. */
  ghost predicate EntryOwn(cfg: Config, s: Service, e: Entry) {
    match e
    case Accepted(h, c, readAt) => h < |s.handlers| && cfg.check(s.handlers[h].req, readAt) == Ok(c)
    case Bound(h, wallet, key, _) =>
      h < |s.handlers| && wallet == s.handlers[h].req.wallet && key == s.handlers[h].req.key
    case Called(h, key, chain, payload) =>
      && h < |s.handlers| && key == s.handlers[h].req.key
      && chain == s.handlers[h].req.ChainOf() && payload == s.handlers[h].req.payload
    case Emitted(_) => true
  }

  ghost predicate PhaseOwn(cfg: Config, req: Request, phase: Phase) {
    phase.AtTryUse? ==> cfg.check(req, phase.readAt) == Ok(phase.claims)
  }

  ghost predicate OwnInv(cfg: Config, s: Service) {
    && (forall e :: e in s.log ==> EntryOwn(cfg, s, e))
    && (forall h :: 0 <= h < |s.handlers| ==> PhaseOwn(cfg, s.handlers[h].req, s.handlers[h].phase))
  }

  /** Handlers keep their requests. */
  lemma OwnKept(cfg: Config, s: Service, s': Service, e: Entry)
    requires EntryOwn(cfg, s, e) && |s.handlers| <= |s'.handlers|
    requires forall h :: 0 <= h < |s.handlers| ==> s'.handlers[h].req == s.handlers[h].req
    ensures EntryOwn(cfg, s', e)
  {
  }

  /** What a step writes is about its own handler's request. */
  lemma ReactOwn(cfg: Config, h: nat, req: Request, phase: Phase, session: Option<Session>,
                 now: nat, used: map<string, nat>, input: Input)
    requires PhaseOwn(cfg, req, phase)
    ensures var e := React(cfg, h, req, phase, session, now, used, input);
            && PhaseOwn(cfg, req, e.phase)
            && (e.entry.Some? ==>
                  match e.entry.value
                  case Accepted(k, c, readAt) => k == h && cfg.check(req, readAt) == Ok(c)
                  case Bound(k, wallet, key, _) => k == h && wallet == req.wallet && key == req.key
                  case Called(k, key, chain, payload) =>
                    k == h && key == req.key && chain == req.ChainOf() && payload == req.payload
                  case Emitted(_) => true)
  {
  }

  lemma StepOwn(cfg: Config, s: Service, h: nat, input: Input)
    requires OwnInv(cfg, s) && h < |s.handlers|
    ensures OwnInv(cfg, Step(cfg, s, h, input))
  {
    var s', e := Step(cfg, s, h, input), EffectOf(cfg, s, h, input);
    var req, phase := s.handlers[h].req, s.handlers[h].phase;
    ReactOwn(cfg, h, req, phase, SessionOf(s, h), s.now, s.used, input);
    assert forall k :: 0 <= k < |s.handlers| ==> s'.handlers[k].req == s.handlers[k].req;
    forall x | x in s'.log ensures EntryOwn(cfg, s', x) {
      if x in s.log {
        OwnKept(cfg, s, s', x);
      } else {
        assert e.entry == Some(x);
      }
    }
  }

  /** In every run each acceptance is of its handler's own token, and each call is for its handler's own request. */
  lemma {:induction false} RunOwn(cfg: Config, actions: seq<Action>)
    ensures OwnInv(cfg, Run(cfg, IDLE, actions))
  {
    if actions != [] {
      var k := |actions| - 1;
      RunOwn(cfg, actions[..k]);
      var s := Run(cfg, IDLE, actions[..k]);
      match actions[k]
      case Advance(h, input) => if h < |s.handlers| { StepOwn(cfg, s, h, input); }
      case Arrive(req) =>
        forall e | e in s.log ensures EntryOwn(cfg, Next(cfg, s, actions[k]), e) {
          OwnKept(cfg, s, Next(cfg, s, actions[k]), e);
        }
      case _ =>
        forall e | e in s.log ensures EntryOwn(cfg, Next(cfg, s, actions[k]), e) {
          OwnKept(cfg, s, Next(cfg, s, actions[k]), e);
        }
    }
  }

  /** An accepted token carries its claims under a valid signature, and they approve its handler's own request. */
  ghost predicate Authorised(V: Crypto, skew: nat, s: Service, e: Entry) {
    e.Accepted? ==>
      && e.h < |s.handlers|
      && var req := s.handlers[e.h].req;
      && Certifies(V, req.token, e.claims)
      && Approves(V, skew, e.claims, req.payload, req.key, req.ChainOf(), e.readAt)
  }

  lemma OwnAuthorised(V: Crypto, skew: nat, hasVerifier: bool, hasWallet: bool, s: Service, e: Entry)
    requires EntryOwn(Configure(V, skew, hasVerifier, hasWallet, false, false), s, e)
    ensures Authorised(V, skew, s, e)
  {
    if e.Accepted? {
      var req := s.handlers[e.h].req;
      var cfg := Configure(V, skew, hasVerifier, hasWallet, false, false);
      assert cfg.check(req, e.readAt) == Check(V, skew, req.token, req.payload, req.key, req.ChainOf(), e.readAt);
      CheckExact(V, skew, req.token, req.payload, req.key, req.ChainOf(), e.readAt);
    }
  }

  /**
   The same for the service as configured, when arriving tokens with equal ids
   have equal expiries; and every token it accepted was properly signed over
   claims that approve its handler's own request.
   */
  lemma ServiceCallsWithinTokens(V: Crypto, skew: nat, hasVerifier: bool, hasWallet: bool, actions: seq<Action>)
    requires TokensAgree(V, actions) && RunOk(Configure(V, skew, hasVerifier, hasWallet, false, false), IDLE, actions)
    ensures var cfg := Configure(V, skew, hasVerifier, hasWallet, false, false);
            var s := Run(cfg, IDLE, actions);
            && Gated(cfg, s.log) && Calls(s.log) <= |ConsumedIds(s.log)|
            && forall e :: e in s.log ==> EntryOwn(cfg, s, e) && Authorised(V, skew, s, e)
  {
    ServiceAuthorised(V, skew, hasVerifier, hasWallet, actions);
    var cfg := Configure(V, skew, hasVerifier, hasWallet, false, false);
    ConfigureFaithful(V, skew, hasVerifier, hasWallet, false, false);
    TokensFixExpiry(V, skew, hasVerifier, hasWallet, false, false, actions);
    CallsWithinTokens(cfg, id => ExpiryOf(V, actions, id), actions);
    EngineCallsGated(cfg, actions);
  }

  lemma ServiceAuthorised(V: Crypto, skew: nat, hasVerifier: bool, hasWallet: bool, actions: seq<Action>)
    ensures var cfg := Configure(V, skew, hasVerifier, hasWallet, false, false);
            var s := Run(cfg, IDLE, actions);
            forall e :: e in s.log ==> EntryOwn(cfg, s, e) && Authorised(V, skew, s, e)
  {
    var cfg := Configure(V, skew, hasVerifier, hasWallet, false, false);
    var s := Run(cfg, IDLE, actions);
    RunOwn(cfg, actions);
    forall e | e in s.log ensures EntryOwn(cfg, s, e) && Authorised(V, skew, s, e) {
      OwnAuthorised(V, skew, hasVerifier, hasWallet, s, e);
    }
  }
}

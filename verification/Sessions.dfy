/** Sessions and audit records agree, on every interleaving. */
module Sessions {
  import opened Wrappers
  import opened Pipeline

  predicate Terminal(status: Status) { status.Denied? || status.Signed? || status.Failed? }

  /** The moves a session may make. */
  predicate Allowed(a: Status, b: Status) {
    || a == b
    || (a.Pending? && (b.Denied? || b.Signing?))
    || (a.Signing? && (b.Signed? || b.Failed?))
  }

  function StatusOf(r: AuditResult): Status {
    match r
    case AuditSigned => Signed
    case AuditDenied => Denied
    case AuditFailed => Failed
  }

  /** The record reports exactly what the session says. */
  ghost predicate Reports(r: Record, h: nat, x: Session) {
    && r.session == h && r.key == x.key && r.chain == x.chain && r.hash == x.hash
    && StatusOf(r.result) == x.status && r.reason == x.reason
    && (r.signature.Some? <==> x.status.Signed?)
  }

  /** The reply tells the caller what the session says: the audited signature, or the recorded reason. */
  ghost predicate Answers(reply: Reply, r: Record, h: nat, x: Session) {
    match reply
    case Success(session, signature, _) => x.status.Signed? && session == h && r.signature == Some(signature)
    case Failure(code, message) =>
      && x.reason == Some(message) && code != InvalidArgument
      && (x.status.Denied? ==> code == FailedPrecondition || code == Unavailable)
  }

  ghost predicate ReasonOk(x: Session) {
    x.reason.Some? <==> x.status.Denied? || x.status.Failed?
  }

  /** The session of handler h describes its request. */
  ghost predicate Describes(cfg: Config, x: Session, req: Request) {
    x.key == req.key && x.chain == req.ChainOf() && x.hash == cfg.sha(req.payload)
  }

  /** The records emitted for handler h, in order. */
  function RecordsOf(log: seq<Entry>, h: nat): seq<Record> {
    if log == [] then []
    else
      var rest, e := RecordsOf(log[..|log| - 1], h), log[|log| - 1];
      if e.Emitted? && e.record.session == h then rest + [e.record] else rest
  }

  /** What a handler's phase says about its session and the records emitted for it. */
  ghost predicate PhaseSession(
      cfg: Config, h: nat, req: Request, phase: Phase, x: Option<Session>, records: seq<Record>)
  {
    && (phase.Received? || phase.Rejected? <==> x.None?)
    && (x.Some? ==> Describes(cfg, x.value, req) && ReasonOk(x.value))
    && match phase
       case Received => records == []
       case Rejected(reply) =>
         records == [] && req.BadArgument().Some? && reply == Failure(InvalidArgument, req.BadArgument().value)
       case AtPolicy | AtTryUse(_, _) | AtWallet | AtDispatch => x.value.status == Pending && records == []
       case Denying(_, code) =>
         x.value.status == Pending && records == [] && (code == FailedPrecondition || code == Unavailable)
       case AtCall | AtEngine | Returned(_) => x.value.status == Signing && records == []
       case Auditing(r, reply) =>
         Terminal(x.value.status) && Reports(r, h, x.value) && Answers(reply, r, h, x.value) && records == []
       case Finished(reply) =>
         Terminal(x.value.status) && |records| == 1 && Reports(records[0], h, x.value)
           && Answers(reply, records[0], h, x.value)
  }

  ghost predicate HandlerOk(cfg: Config, s: Service, h: nat)
    requires h < |s.handlers|
  {
    PhaseSession(cfg, h, s.handlers[h].req, s.handlers[h].phase, SessionOf(s, h), RecordsOf(s.log, h))
  }

  /** Handlers agree with their sessions and records; there are no others. */
  ghost predicate SessionInv(cfg: Config, s: Service) {
    && (forall h :: 0 <= h < |s.handlers| ==> HandlerOk(cfg, s, h))
    && (forall h :: h in s.sessions ==> h < |s.handlers|)
    && (forall h: nat :: h >= |s.handlers| ==> RecordsOf(s.log, h) == [])
  }

  lemma RecordsAppend(log: seq<Entry>, e: Entry, h: nat)
    ensures RecordsOf(log + [e], h) ==
            RecordsOf(log, h) + if e.Emitted? && e.record.session == h then [e.record] else []
  {
    assert (log + [e])[..|log|] == log;
  }

  /** A step emits only for its own session, keeps the agreement, and makes only allowed moves. */
  lemma ReactSession(cfg: Config, h: nat, req: Request, phase: Phase, x: Option<Session>, records: seq<Record>,
                     now: nat, used: map<string, nat>, input: Input)
    requires PhaseSession(cfg, h, req, phase, x, records)
    ensures var e := React(cfg, h, req, phase, x, now, used, input);
            var x' := if e.session.Some? then e.session else x;
            var emitted := e.entry.Some? && e.entry.value.Emitted?;
            && (emitted ==> e.entry.value.record.session == h)
            && PhaseSession(cfg, h, req, e.phase, x', if emitted then records + [e.entry.value.record] else records)
            && (x.Some? ==> Allowed(x.value.status, x'.value.status))
            && (x.Some? ==> x'.value.(status := x.value.status, reason := x.value.reason) == x.value)
            && (x.Some? && Terminal(x.value.status) ==> x' == x)
  {
  }

  /** Sessions are only added, keep what they describe, make only allowed moves, and stop at a terminal status. */
  ghost predicate Forward(s: Service, s': Service) {
    forall h :: h in s.sessions ==> MovesOk(s, s', h)
  }

  ghost predicate MovesOk(s: Service, s': Service, h: nat)
    requires h in s.sessions
  {
    && h in s'.sessions
    && Allowed(s.sessions[h].status, s'.sessions[h].status)
    && s'.sessions[h].(status := s.sessions[h].status, reason := s.sessions[h].reason) == s.sessions[h]
    && (Terminal(s.sessions[h].status) ==> s'.sessions[h] == s.sessions[h])
  }

  /** What a step does to the records of each session. */
  lemma StepRecords(cfg: Config, s: Service, h: nat, input: Input, k: nat)
    requires h < |s.handlers|
    ensures var e := EffectOf(cfg, s, h, input);
            RecordsOf(Step(cfg, s, h, input).log, k) == RecordsOf(s.log, k) +
              if e.entry.Some? && e.entry.value.Emitted? && e.entry.value.record.session == k
              then [e.entry.value.record] else []
  {
    var e := EffectOf(cfg, s, h, input);
    if e.entry.Some? { RecordsAppend(s.log, e.entry.value, k); }
  }

  /** Handler k after a step of handler h. */
  lemma StepHandlerOk(cfg: Config, s: Service, h: nat, input: Input, k: nat)
    requires h < |s.handlers| && k < |s.handlers| && HandlerOk(cfg, s, h) && HandlerOk(cfg, s, k)
    ensures HandlerOk(cfg, Step(cfg, s, h, input), k)
  {
    var s' := Step(cfg, s, h, input);
    ReactSession(cfg, h, s.handlers[h].req, s.handlers[h].phase, SessionOf(s, h), RecordsOf(s.log, h), s.now, s.used,
      input);
    StepRecords(cfg, s, h, input, k);
    if k != h { assert SessionOf(s', k) == SessionOf(s, k) && s'.handlers[k] == s.handlers[k]; }
  }

  lemma StepForward(cfg: Config, s: Service, h: nat, input: Input)
    requires h < |s.handlers| && HandlerOk(cfg, s, h)
    ensures Forward(s, Step(cfg, s, h, input))
  {
    ReactSession(cfg, h, s.handlers[h].req, s.handlers[h].phase, SessionOf(s, h), RecordsOf(s.log, h), s.now, s.used,
      input);
  }

  lemma StepSession(cfg: Config, s: Service, h: nat, input: Input)
    requires SessionInv(cfg, s) && h < |s.handlers|
    ensures SessionInv(cfg, Step(cfg, s, h, input)) && Forward(s, Step(cfg, s, h, input))
  {
    var s' := Step(cfg, s, h, input);
    assert HandlerOk(cfg, s, h);
    StepForward(cfg, s, h, input);
    forall k | 0 <= k < |s'.handlers| ensures HandlerOk(cfg, s', k) {
      assert HandlerOk(cfg, s, k);
      StepHandlerOk(cfg, s, h, input, k);
    }
    forall k: nat | k >= |s'.handlers| ensures RecordsOf(s'.log, k) == [] {
      ReactSession(cfg, h, s.handlers[h].req, s.handlers[h].phase, SessionOf(s, h), RecordsOf(s.log, h), s.now, s.used,
        input);
      StepRecords(cfg, s, h, input, k);
    }
  }

  lemma ArriveSession(cfg: Config, s: Service, req: Request)
    requires SessionInv(cfg, s)
    ensures SessionInv(cfg, Next(cfg, s, Arrive(req)))
  {
    var s' := Next(cfg, s, Arrive(req));
    forall k | 0 <= k < |s'.handlers| ensures HandlerOk(cfg, s', k) {
      if k < |s.handlers| {
        assert HandlerOk(cfg, s, k);
        assert SessionOf(s', k) == SessionOf(s, k);
      }
    }
  }

  /** Every action of every run keeps sessions and records in agreement and moves sessions forward only. */
  lemma NextSession(cfg: Config, s: Service, a: Action)
    requires SessionInv(cfg, s)
    ensures SessionInv(cfg, Next(cfg, s, a)) && Forward(s, Next(cfg, s, a))
  {
    match a
    case Advance(h, input) => if h < |s.handlers| { StepSession(cfg, s, h, input); }
    case Arrive(req) => ArriveSession(cfg, s, req);
    case _ =>
      forall k | 0 <= k < |s.handlers| ensures HandlerOk(cfg, Next(cfg, s, a), k) {
        assert HandlerOk(cfg, s, k);
        assert SessionOf(Next(cfg, s, a), k) == SessionOf(s, k);
      }
  }

  /**
   In every reachable state: a finished handler has exactly one record, which
   reports its session's final status, reason and request, and a reply that
   agrees with both; an unfinished or rejected one has none; a reason is
   present exactly on denial and failure.
   */
  lemma {:induction false} SessionsAndAuditAgree(cfg: Config, actions: seq<Action>)
    ensures SessionInv(cfg, Run(cfg, IDLE, actions))
  {
    if actions != [] {
      var k := |actions| - 1;
      SessionsAndAuditAgree(cfg, actions[..k]);
      NextSession(cfg, Run(cfg, IDLE, actions[..k]), actions[k]);
    }
  }

  /** Once a session is terminal no continuation of the run changes it. */
  lemma {:induction false} TerminalForever(cfg: Config, before: seq<Action>, after: seq<Action>, h: nat)
    requires h in Run(cfg, IDLE, before).sessions && Terminal(Run(cfg, IDLE, before).sessions[h].status)
    ensures h in Run(cfg, IDLE, before + after).sessions
    ensures Run(cfg, IDLE, before + after).sessions[h] == Run(cfg, IDLE, before).sessions[h]
    decreases |after|
  {
    if after == [] {
      assert before + after == before;
    } else {
      var k := |after| - 1;
      TerminalForever(cfg, before, after[..k], h);
      TerminalStep(cfg, before + after[..k], after[k], h);
      assert before + after == before + after[..k] + [after[k]];
    }
  }

  lemma TerminalStep(cfg: Config, actions: seq<Action>, a: Action, h: nat)
    requires h in Run(cfg, IDLE, actions).sessions && Terminal(Run(cfg, IDLE, actions).sessions[h].status)
    ensures h in Run(cfg, IDLE, actions + [a]).sessions
    ensures Run(cfg, IDLE, actions + [a]).sessions[h] == Run(cfg, IDLE, actions).sessions[h]
  {
    var s := Run(cfg, IDLE, actions);
    assert (actions + [a])[..|actions|] == actions;
    SessionsAndAuditAgree(cfg, actions);
    NextSession(cfg, s, a);
    assert MovesOk(s, Next(cfg, s, a), h);
  }
}

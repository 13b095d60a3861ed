/**
 The SignTx handler as code: one call, from request to reply, over the shared
 stores. Its effect on the stores is that of its handler's steps taken without
 interruption, which ties the code to the step model whose interleavings the
 other modules reason about.
 */
module Services {
  import opened Wrappers
  import opened Policy
  import opened Pipeline
  import opened Decisions

  class SessionStore {
    var sessions: map<nat, Session>

    constructor ()
      ensures sessions == map[]
    {
      sessions := map[];
    }

    method Insert(id: nat, session: Session)
      modifies this
      ensures sessions == old(sessions)[id := session]
    {
      sessions := sessions[id := session];
    }

    /** Updating a missing session is a no-op. */
    method UpdateStatus(id: nat, status: Status, reason: Option<string>)
      modifies this
      ensures sessions == if id in old(sessions)
                          then old(sessions)[id := old(sessions)[id].(status := status, reason := reason)]
                          else old(sessions)
    {
      if id in sessions {
        sessions := sessions[id := sessions[id].(status := status, reason := reason)];
      }
    }
  }

  class MpcService {
    const crypto: Crypto
    const skew: nat
    const verifier: TokenVerifier?
    const tokens: UsedTokenStore
    const clock: Clock
    const sessions: SessionStore
    const hasWallet: bool
    const skipPolicy: bool
    const skipWallet: bool
    /** Token uses, wallet bindings, engine calls and audit emissions, in order. */
    var log: seq<Entry>

    ghost predicate Valid() {
      verifier != null ==>
        verifier.crypto == crypto && verifier.maxSkew == skew && verifier.store == tokens && verifier.clock == clock
    }

    ghost function Cfg(): Config {
      Configure(crypto, skew, verifier != null, hasWallet, skipPolicy, skipWallet)
    }

    /** The shared state together with the handlers in flight. */
    ghost function State(handlers: seq<Handler>): Service
      reads this, tokens, clock, sessions
    {
      Service(clock.now, tokens.used, sessions.sessions, handlers, log)
    }

    constructor (crypto: Crypto, skew: nat, verifier: TokenVerifier?, tokens: UsedTokenStore, clock: Clock,
                 hasWallet: bool, skipPolicy: bool, skipWallet: bool)
      requires verifier != null ==>
                 verifier.crypto == crypto && verifier.maxSkew == skew && verifier.store == tokens
                   && verifier.clock == clock
      ensures Valid() && log == [] && sessions.sessions == map[] && this.tokens == tokens && this.clock == clock
              && fresh(sessions)
      ensures Cfg() == Configure(crypto, skew, verifier != null, hasWallet, skipPolicy, skipWallet)
    {
      this.crypto, this.skew, this.verifier, this.tokens, this.clock := crypto, skew, verifier, tokens, clock;
      this.hasWallet, this.skipPolicy, this.skipWallet := hasWallet, skipPolicy, skipWallet;
      sessions := new SessionStore();
      log := [];
    }

    /** Mark the session denied, emit the matching record and give the status to return. */
    method Deny(h: nat, req: Request, reason: string, code: Code) returns (reply: Reply)
      modifies this, sessions
      ensures var before := old(sessions.sessions);
              sessions.sessions ==
              if h in before then before[h := before[h].(status := Denied, reason := Some(reason))] else before
      ensures log == old(log) + [Emitted(Audit(Cfg(), h, req, AuditDenied, Some(reason), None))]
      ensures reply == Failure(code, reason)
    {
      sessions.UpdateStatus(h, Denied, Some(reason));
      var record := Record(h, req.key, req.ChainOf(), crypto.sha(req.payload), AuditDenied, Some(reason), None);
      log := log + [Emitted(record)];
      return Failure(code, reason);
    }

    /** Policy token, when required: the reason and code to deny with, if any. */
    method PolicyGate(h: nat, req: Request) returns (denial: Option<(string, Code)>)
      requires Valid()
      modifies this, tokens
      ensures match CheckPolicy(Cfg(), req, clock.now).phase
              case Denying(reason, code) =>
                denial == Some((reason, code)) && tokens.used == old(tokens.used) && log == old(log)
              case AtTryUse(c, readAt) =>
                if c.tokenId in old(tokens.used)
                then denial == Some((Replayed.Text(), FailedPrecondition)) && tokens.used == old(tokens.used)
                  && log == old(log)
                else denial == None && tokens.used == old(tokens.used)[c.tokenId := c.expiresAt]
                     && log == old(log) + [Accepted(h, c, readAt)]
              case _ => denial == None && tokens.used == old(tokens.used) && log == old(log)
    {
      if skipPolicy {
        return None;
      }
      if verifier == null {
        return Some(("policy_verifier_not_configured", FailedPrecondition));
      }
      var r := verifier.Verify(req.token, req.payload, req.key, req.ChainOf());
      if r.Err? {
        return Some((r.error.Text(), FailedPrecondition));
      }
      log := log + [Accepted(h, r.value, clock.now)];
      return None;
    }

    /** Wallet binding, when required: the reason and code to deny with, if any. */
    method WalletGate(
        h: nat, req: Request, reply: Result<WalletRecord, WalletError>) returns (denial: Option<(string, Code)>)
      modifies this
      ensures var e := CheckWallet(Cfg(), h, req, reply);
              && (e.phase.Denying? ==> denial == Some((e.phase.reason, e.phase.code)))
              && (!e.phase.Denying? ==> denial == None)
              && log == if e.entry.Some? then old(log) + [e.entry.value] else old(log)
    {
      if skipWallet {
        return None;
      }
      if !hasWallet {
        return Some(("wallet_management_not_configured", FailedPrecondition));
      }
      var err := CheckBinding(reply, req.key);
      if err.Some? {
        return Some((err.value.Text(), err.value.Code()));
      }
      log := log + [Bound(h, req.wallet, req.key, reply.value)];
      return None;
    }

    /** The stores hold `s`, in which handler h serves `req` and is at `phase`. */
    ghost predicate Holds(s: Service, h: nat, req: Request, phase: Phase)
      reads this, tokens, clock, sessions
    {
      h < |s.handlers| && s.handlers[h] == Handler(req, phase) && State(s.handlers) == s
    }

    /** The stores hold what handler h leaves when it runs from `s` to its end, and that end carries this reply. */
    ghost predicate Ended(s: Service, h: nat, input: Input, reply: Reply)
      requires h < |s.handlers|
      reads this, tokens, clock, sessions
    {
      var s' := Alone(Cfg(), s, h, input);
      && State(s'.handlers) == s' && h < |s'.handlers|
      && (s'.handlers[h].phase == Finished(reply) || s'.handlers[h].phase == Rejected(reply))
    }

    /** The session of h is signed exactly when the reply is a success. */
    ghost predicate Agrees(h: nat, reply: Reply)
      reads sessions
    {
      reply.Success? <==> h in sessions.sessions && sessions.sessions[h].status.Signed?
    }

    /** From a denial to the reply. */
    method FinishDenied(
        h: nat, req: Request, reason: string, code: Code, input: Input, ghost s: Service) returns (reply: Reply)
      requires Holds(s, h, req, Denying(reason, code)) && h in sessions.sessions
      modifies this, sessions
      ensures Ended(s, h, input, reply) && Agrees(h, reply)
    {
      ghost var s1 := Step(Cfg(), s, h, input);
      ghost var s2 := Step(Cfg(), s1, h, input);
      reply := Deny(h, req, reason, code);
      assert s1.handlers[h].phase == Auditing(Audit(Cfg(), h, req, AuditDenied, Some(reason), None), reply);
      assert s2.handlers[h].phase == Finished(reply) && Alone(Cfg(), s2, h, input) == s2;
      assert State(s2.handlers) == s2;
    }

    /** From dispatch to the reply. */
    method FinishDispatch(h: nat, req: Request, input: Input, ghost s: Service) returns (reply: Reply)
      requires Holds(s, h, req, AtDispatch) && h in sessions.sessions
      modifies this, sessions
      ensures Ended(s, h, input, reply) && Agrees(h, reply)
    {
      ghost var s1 := Step(Cfg(), s, h, input);
      sessions.UpdateStatus(h, Signing, None);
      assert Holds(s1, h, req, AtCall);
      ghost var s2 := Step(Cfg(), s1, h, input);
      log := log + [Called(h, req.key, req.ChainOf(), req.payload)];
      assert Holds(s2, h, req, AtEngine);
      ghost var s3 := Step(Cfg(), s2, h, input);
      assert Holds(s3, h, req, Returned(input.engine));
      assert Alone(Cfg(), s, h, input) == Alone(Cfg(), s1, h, input);
      assert Alone(Cfg(), s1, h, input) == Alone(Cfg(), s2, h, input);
      assert Alone(Cfg(), s2, h, input) == Alone(Cfg(), s3, h, input);
      reply := FinishReturned(h, req, input, s3);
    }

    /** From the engine's answer to the reply. */
    method FinishReturned(h: nat, req: Request, input: Input, ghost s: Service) returns (reply: Reply)
      requires Holds(s, h, req, Returned(input.engine)) && h in sessions.sessions
      modifies this, sessions
      ensures Ended(s, h, input, reply) && Agrees(h, reply)
    {
      ghost var s1 := Step(Cfg(), s, h, input);
      ghost var s2 := Step(Cfg(), s1, h, input);
      var record;
      match input.engine {
        case Ok(sig) =>
          sessions.UpdateStatus(h, Signed, None);
          record := Record(h, req.key, req.ChainOf(), crypto.sha(req.payload), AuditSigned, None, Some(sig.signature));
          reply := Success(h, sig.signature, sig.publicKey);
        case Err(e) =>
          sessions.UpdateStatus(h, Failed, Some(e.text));
          record := Record(h, req.key, req.ChainOf(), crypto.sha(req.payload), AuditFailed, Some(e.text), None);
          reply := Failure(e.kind.Code(), e.text);
      }
      assert Holds(s1, h, req, Auditing(record, reply));
      log := log + [Emitted(record)];
      assert s2.handlers[h].phase == Finished(reply) && Alone(Cfg(), s2, h, input) == s2;
      assert State(s2.handlers) == s2;
    }

    /** From the wallet check to the reply. */
    method FinishWallet(h: nat, req: Request, input: Input, ghost s: Service) returns (reply: Reply)
      requires Holds(s, h, req, AtWallet) && h in sessions.sessions
      modifies this, sessions
      ensures Ended(s, h, input, reply) && Agrees(h, reply)
    {
      ghost var s1 := Step(Cfg(), s, h, input);
      var denial := WalletGate(h, req, input.wallet);
      if denial.Some? {
        assert Holds(s1, h, req, Denying(denial.value.0, denial.value.1));
        reply := FinishDenied(h, req, denial.value.0, denial.value.1, input, s1);
        return;
      }
      assert Holds(s1, h, req, AtDispatch);
      reply := FinishDispatch(h, req, input, s1);
    }

    /** From the policy check to the reply. */
    method FinishPolicy(h: nat, req: Request, input: Input, ghost s: Service) returns (reply: Reply)
      requires Valid() && Holds(s, h, req, AtPolicy) && h in sessions.sessions
      modifies this, tokens, sessions
      ensures Ended(s, h, input, reply) && Agrees(h, reply)
    {
      ghost var s' := AfterPolicy(Cfg(), s, h, input);
      PolicySteps(Cfg(), s, h, req, input);
      var denial := PolicyGate(h, req);
      if denial.Some? {
        assert Holds(s', h, req, Denying(denial.value.0, denial.value.1));
        reply := FinishDenied(h, req, denial.value.0, denial.value.1, input, s');
        return;
      }
      assert Holds(s', h, req, AtWallet);
      reply := FinishWallet(h, req, input, s');
    }

    /** From the arguments to the reply. */
    method FinishReceived(h: nat, req: Request, input: Input, ghost s: Service) returns (reply: Reply)
      requires Valid() && Holds(s, h, req, Received) && h !in sessions.sessions
      modifies this, tokens, sessions
      ensures Ended(s, h, input, reply) && Agrees(h, reply)
    {
      ghost var s1 := Step(Cfg(), s, h, input);
      var complaint := req.BadArgument();
      if complaint.Some? {
        reply := Failure(InvalidArgument, complaint.value);
        assert s1.handlers[h].phase == Rejected(reply) && Alone(Cfg(), s1, h, input) == s1;
        assert State(s1.handlers) == s1;
        return;
      }
      sessions.Insert(h, Session(req.key, req.ChainOf(), crypto.sha(req.payload), Pending, None));
      assert Holds(s1, h, req, AtPolicy);
      reply := FinishPolicy(h, req, input, s1);
    }

    /**
     The whole handler. `others` are the handlers in flight around it, and h its
     fresh session id. The request is settled as the table of `Decisions` says,
     and stores and reply are those of its steps taken without interruption.
     */
    method SignTx(h: nat, req: Request, input: Input, ghost others: seq<Handler>) returns (reply: Reply)
      requires Valid() && |others| == h && h !in sessions.sessions
      modifies this, tokens, sessions
      ensures Ended(old(State(others + [Handler(req, Received)])), h, input, reply) && Agrees(h, reply)
      ensures Settled(crypto, Cfg(), old(State(others + [Handler(req, Received)])), h, req, input,
                      reply, tokens.used, sessions.sessions, log)
    {
      ghost var s := State(others + [Handler(req, Received)]);
      SignTxDecides(crypto, Cfg(), s, h, req, input);
      reply := FinishReceived(h, req, input, s);
    }
  }
}

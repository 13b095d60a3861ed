/**
 Single use of policy tokens over every interleaving, with pruning. Freshness
 lets a token through until `skew` past its expiry, while pruning drops its
 entry at expiry, so a prune must keep a margin: its cutoff plus the skew must
 lie before the clock, and before every clock reading that a handler still
 has in hand between its freshness check and its use of the token.
 */
module SingleUse {
  import opened Wrappers
  import opened Domain
  import opened Policy
  import opened Pipeline

  ghost predicate ExpiryFixedAt(cfg: Config, expiry: string -> nat, req: Request, now: nat) {
    var r := cfg.check(req, now);
    r.Ok? ==> r.value.expiresAt == expiry(r.value.tokenId)
  }

  /** Whenever the request's token passes, it shows the expiry of its id. */
  ghost predicate RequestFixed(cfg: Config, expiry: string -> nat, req: Request) {
    forall now :: ExpiryFixedAt(cfg, expiry, req, now)
  }

  /** Among the requests that arrive in a run, a token id determines its expiry: the issuer does not reuse ids. */
  ghost predicate ExpiryFixed(cfg: Config, expiry: string -> nat, actions: seq<Action>) {
    forall k :: 0 <= k < |actions| && actions[k].Arrive? ==> RequestFixed(cfg, expiry, actions[k].req)
  }

  /** Handler h holds a clock reading it has not used yet. */
  predicate Holding(s: Service, h: nat)
    requires h < |s.handlers|
  {
    s.handlers[h].phase.AtTryUse?
  }

  /** A prune that keeps the margin. */
  ghost predicate Margin(cfg: Config, s: Service, cutoff: nat) {
    && cutoff + cfg.skew < s.now
    && forall h :: 0 <= h < |s.handlers| && Holding(s, h) ==> cutoff + cfg.skew < s.handlers[h].phase.readAt
  }

  /** The clock does not go back and prunes keep the margin. */
  ghost predicate ActionOk(cfg: Config, s: Service, a: Action) {
    match a
    case Tick(time) => s.now <= time
    case PruneAt(cutoff) => Margin(cfg, s, cutoff)
    case _ => true
  }

  ghost predicate RunOk(cfg: Config, s: Service, actions: seq<Action>) {
    actions == [] ||
    (RunOk(cfg, s, actions[..|actions| - 1])
     && ActionOk(cfg, Run(cfg, s, actions[..|actions| - 1]), actions[|actions| - 1]))
  }

  // ---------------------------------------------------------------- the invariant

  predicate AcceptedId(e: Entry, id: string) { e.Accepted? && e.claims.tokenId == id }

  ghost predicate WasAccepted(log: seq<Entry>, id: string) {
    exists i :: 0 <= i < |log| && AcceptedId(log[i], id)
  }

  /** No two acceptances carry the same id. */
  ghost predicate AcceptedOnce(log: seq<Entry>) {
    forall i, j, id :: 0 <= i < j < |log| && AcceptedId(log[i], id) ==> !AcceptedId(log[j], id)
  }

  /** Too old to be used by any reading in hand or to come. */
  ghost predicate Dead(cfg: Config, expiry: string -> nat, s: Service, id: string) {
    && expiry(id) + cfg.skew < s.now
    && forall h :: 0 <= h < |s.handlers| && Holding(s, h) ==> expiry(id) + cfg.skew < s.handlers[h].phase.readAt
  }

  ghost predicate HoldingOk(cfg: Config, expiry: string -> nat, s: Service, h: nat)
    requires h < |s.handlers|
  {
    Holding(s, h) ==>
      var p := s.handlers[h].phase;
      && p.readAt <= s.now
      && p.claims.expiresAt == expiry(p.claims.tokenId)
      && p.readAt <= p.claims.expiresAt + cfg.skew
  }

  ghost predicate Inv(cfg: Config, expiry: string -> nat, s: Service) {
    && (forall h :: 0 <= h < |s.handlers| ==>
          HoldingOk(cfg, expiry, s, h) && RequestFixed(cfg, expiry, s.handlers[h].req))
    && (forall id :: id in s.used ==> s.used[id] == expiry(id))
    && (forall id :: WasAccepted(s.log, id) ==> id in s.used || Dead(cfg, expiry, s, id))
    && AcceptedOnce(s.log)
  }

  lemma AcceptAppend(log: seq<Entry>, e: Entry, id: string)
    ensures WasAccepted(log + [e], id) <==> WasAccepted(log, id) || AcceptedId(e, id)
  {
    if WasAccepted(log, id) {
      var i :| 0 <= i < |log| && AcceptedId(log[i], id);
      assert AcceptedId((log + [e])[i], id);
    }
    if AcceptedId(e, id) {
      assert AcceptedId((log + [e])[|log|], id);
    }
    if WasAccepted(log + [e], id) && !AcceptedId(e, id) {
      var i :| 0 <= i < |log + [e]| && AcceptedId((log + [e])[i], id);
      assert AcceptedId(log[i], id);
    }
  }

  lemma OnceAppend(log: seq<Entry>, e: Entry)
    requires AcceptedOnce(log)
    requires e.Accepted? ==> !WasAccepted(log, e.claims.tokenId)
    ensures AcceptedOnce(log + [e])
  {
    forall i, j, id | 0 <= i < j < |log + [e]| && AcceptedId((log + [e])[i], id)
      ensures !AcceptedId((log + [e])[j], id) {
      assert AcceptedId(log[i], id);
    }
  }

  /** A step takes a reading only from the present clock, and consumes only a token it had checked, unused until now. */
  lemma ReactHolding(cfg: Config, expiry: string -> nat, h: nat, req: Request, phase: Phase, session: Option<Session>,
                     now: nat, used: map<string, nat>, input: Input)
    requires Faithful(cfg) && RequestFixed(cfg, expiry, req)
    ensures var e := React(cfg, h, req, phase, session, now, used, input);
            && (e.phase.AtTryUse? ==>
                  e.phase.readAt == now && e.phase.claims.expiresAt == expiry(e.phase.claims.tokenId)
                  && now <= e.phase.claims.expiresAt + cfg.skew)
            && (e.token.Some? <==> e.entry.Some? && e.entry.value.Accepted?)
            && (e.token.Some? ==>
                  && phase.AtTryUse? && e.entry.value == Accepted(h, phase.claims, phase.readAt)
                  && e.token.value == (phase.claims.tokenId, phase.claims.expiresAt) && phase.claims.tokenId !in used)
  {
    assert FaithfulAt(cfg, req, now) && ExpiryFixedAt(cfg, expiry, req, now);
  }

  lemma DeadAfterStep(cfg: Config, expiry: string -> nat, s: Service, h: nat, input: Input, id: string)
    requires Faithful(cfg) && h < |s.handlers| && RequestFixed(cfg, expiry, s.handlers[h].req)
             && Dead(cfg, expiry, s, id)
    ensures Dead(cfg, expiry, Step(cfg, s, h, input), id)
  {
    ReactHolding(cfg, expiry, h, s.handlers[h].req, s.handlers[h].phase, SessionOf(s, h), s.now, s.used, input);
    var s' := Step(cfg, s, h, input);
    forall k | 0 <= k < |s'.handlers| && Holding(s', k) ensures expiry(id) + cfg.skew < s'.handlers[k].phase.readAt {
      if k != h { assert Holding(s, k); }
    }
  }

  lemma StepInv(cfg: Config, expiry: string -> nat, s: Service, h: nat, input: Input)
    requires Faithful(cfg) && Inv(cfg, expiry, s) && h < |s.handlers|
    ensures Inv(cfg, expiry, Step(cfg, s, h, input))
  {
    var s', e := Step(cfg, s, h, input), EffectOf(cfg, s, h, input);
    ReactHolding(cfg, expiry, h, s.handlers[h].req, s.handlers[h].phase, SessionOf(s, h), s.now, s.used, input);
    forall k | 0 <= k < |s'.handlers| ensures HoldingOk(cfg, expiry, s', k) {
      assert HoldingOk(cfg, expiry, s, k);
    }
    if e.token.Some? {
      var id := e.token.value.0;
      assert HoldingOk(cfg, expiry, s, h);
      assert !WasAccepted(s.log, id);
    }
    if e.entry.Some? { OnceAppend(s.log, e.entry.value); }
    forall id | WasAccepted(s'.log, id) ensures id in s'.used || Dead(cfg, expiry, s', id) {
      if e.entry.Some? { AcceptAppend(s.log, e.entry.value, id); }
      if WasAccepted(s.log, id) && id !in s.used {
        DeadAfterStep(cfg, expiry, s, h, input, id);
      }
    }
  }

  lemma PruneInv(cfg: Config, expiry: string -> nat, s: Service, cutoff: nat)
    requires Inv(cfg, expiry, s) && Margin(cfg, s, cutoff)
    ensures Inv(cfg, expiry, s.(used := Pruned(s.used, cutoff)))
  {
    var s' := s.(used := Pruned(s.used, cutoff));
    forall h | 0 <= h < |s'.handlers| ensures HoldingOk(cfg, expiry, s', h) {
      assert HoldingOk(cfg, expiry, s, h);
    }
    forall id | WasAccepted(s'.log, id) ensures id in s'.used || Dead(cfg, expiry, s', id) {
      if id in s.used && id !in s'.used {
        forall h | 0 <= h < |s.handlers| && Holding(s, h) ensures expiry(id) + cfg.skew < s.handlers[h].phase.readAt {
        }
      } else if id !in s.used {
        assert Dead(cfg, expiry, s, id);
        forall h | 0 <= h < |s'.handlers| && Holding(s', h)
          ensures expiry(id) + cfg.skew < s'.handlers[h].phase.readAt {
          assert Holding(s, h);
        }
      }
    }
  }

  lemma NextInv(cfg: Config, expiry: string -> nat, s: Service, a: Action)
    requires Faithful(cfg) && Inv(cfg, expiry, s) && ActionOk(cfg, s, a)
    requires a.Arrive? ==> RequestFixed(cfg, expiry, a.req)
    ensures Inv(cfg, expiry, Next(cfg, s, a))
  {
    match a
    case Advance(h, input) => if h < |s.handlers| { StepInv(cfg, expiry, s, h, input); }
    case PruneAt(cutoff) => PruneInv(cfg, expiry, s, cutoff);
    case _ =>
      var s' := Next(cfg, s, a);
      forall h | 0 <= h < |s'.handlers| ensures HoldingOk(cfg, expiry, s', h) {
        if h < |s.handlers| { assert HoldingOk(cfg, expiry, s, h); }
      }
      forall id | WasAccepted(s'.log, id) && id !in s'.used ensures Dead(cfg, expiry, s', id) {
        assert Dead(cfg, expiry, s, id);
        forall h | 0 <= h < |s'.handlers| && Holding(s', h)
          ensures expiry(id) + cfg.skew < s'.handlers[h].phase.readAt {
          assert h < |s.handlers| && Holding(s, h);
        }
      }
  }

  /** Each token id is accepted at most once, on every interleaving whose prunes keep the margin. */
  lemma {:induction false} AcceptedAtMostOnce(cfg: Config, expiry: string -> nat, actions: seq<Action>)
    requires Faithful(cfg) && ExpiryFixed(cfg, expiry, actions) && RunOk(cfg, IDLE, actions)
    ensures Inv(cfg, expiry, Run(cfg, IDLE, actions))
    ensures AcceptedOnce(Run(cfg, IDLE, actions).log)
  {
    if actions != [] {
      var k := |actions| - 1;
      AcceptedAtMostOnce(cfg, expiry, actions[..k]);
      NextInv(cfg, expiry, Run(cfg, IDLE, actions[..k]), actions[k]);
    }
  }

  // ---------------------------------------------------------------- the service's own verifier

  /** Action k brings a request whose token is signed over claims with this id. */
  ghost predicate Carries(V: Crypto, actions: seq<Action>, k: nat, id: string)
    requires k < |actions|
  {
    actions[k].Arrive? && Policy.Open(V, actions[k].req.token).Ok?
      && Policy.Open(V, actions[k].req.token).value.tokenId == id
  }

  /** Arriving tokens with equal ids have equal expiries. */
  ghost predicate TokensAgree(V: Crypto, actions: seq<Action>) {
    forall j, k, id ::
      0 <= j < |actions| && 0 <= k < |actions| && Carries(V, actions, j, id) && Carries(V, actions, k, id) ==>
      Policy.Open(V, actions[j].req.token).value.expiresAt == Policy.Open(V, actions[k].req.token).value.expiresAt
  }

  /** The expiry of an id in a run. */
  ghost function ExpiryOf(V: Crypto, actions: seq<Action>, id: string): nat {
    if k :| 0 <= k < |actions| && Carries(V, actions, k, id)
    then Policy.Open(V, actions[k].req.token).value.expiresAt
    else 0
  }

  lemma TokensFixExpiry(
      V: Crypto, skew: nat, hasVerifier: bool, hasWallet: bool, skipPolicy: bool, skipWallet: bool,
      actions: seq<Action>)
    requires TokensAgree(V, actions)
    ensures ExpiryFixed(Configure(V, skew, hasVerifier, hasWallet, skipPolicy, skipWallet),
                        id => ExpiryOf(V, actions, id), actions)
  {
    var cfg := Configure(V, skew, hasVerifier, hasWallet, skipPolicy, skipWallet);
    var expiry := id => ExpiryOf(V, actions, id);
    forall k, now | 0 <= k < |actions| && actions[k].Arrive? ensures ExpiryFixedAt(cfg, expiry, actions[k].req, now) {
      var req := actions[k].req;
      assert cfg.check(req, now) == Check(V, skew, req.token, req.payload, req.key, req.ChainOf(), now);
      if cfg.check(req, now).Ok? {
        var id := cfg.check(req, now).value.tokenId;
        assert Carries(V, actions, k, id);
      }
    }
  }

  /**
   For the service as configured: if arriving tokens with equal ids have equal
   expiries, the clock does not go back and prunes keep the margin, then each
   token id is accepted at most once, whatever the interleaving.
   */
  lemma ServiceAcceptsOnce(
      V: Crypto, skew: nat, hasVerifier: bool, hasWallet: bool, skipPolicy: bool, skipWallet: bool,
      actions: seq<Action>)
    requires TokensAgree(V, actions)
    requires RunOk(Configure(V, skew, hasVerifier, hasWallet, skipPolicy, skipWallet), IDLE, actions)
    ensures AcceptedOnce(Run(Configure(V, skew, hasVerifier, hasWallet, skipPolicy, skipWallet), IDLE, actions).log)
  {
    var cfg := Configure(V, skew, hasVerifier, hasWallet, skipPolicy, skipWallet);
    ConfigureFaithful(V, skew, hasVerifier, hasWallet, skipPolicy, skipWallet);
    TokensFixExpiry(V, skew, hasVerifier, hasWallet, skipPolicy, skipWallet, actions);
    AcceptedAtMostOnce(cfg, id => ExpiryOf(V, actions, id), actions);
  }

  // ---------------------------------------------------------------- the margin is needed

  lemma RunAppend(cfg: Config, s: Service, actions: seq<Action>, a: Action)
    ensures Run(cfg, s, actions + [a]) == Next(cfg, Run(cfg, s, actions), a)
  {
    assert (actions + [a])[..|actions|] == actions;
  }

  /** A waiting handler whose token passes the checks is two steps from holding its reading. */
  lemma ReadSteps(cfg: Config, s: Service, h: nat, input: Input, c: Claims)
    requires !cfg.skipPolicy && cfg.hasVerifier && h < |s.handlers|
    requires s.handlers[h].phase == Received && s.handlers[h].req.ValidArgs()
    requires cfg.check(s.handlers[h].req, s.now) == Ok(c)
    ensures var s' := Next(cfg, Next(cfg, s, Advance(h, input)), Advance(h, input));
            && s'.handlers == s.handlers[h := Handler(s.handlers[h].req, AtTryUse(c, s.now))]
            && s'.used == s.used && s'.log == s.log && s'.now == s.now
  {
    var s1 := Next(cfg, s, Advance(h, input));
    assert s1.handlers[h] == Handler(s.handlers[h].req, AtPolicy);
  }

  /** The third step uses the token if its id is not in the store. */
  lemma UseStep(cfg: Config, s: Service, h: nat, input: Input)
    requires h < |s.handlers| && Holding(s, h) && s.handlers[h].phase.claims.tokenId !in s.used
    ensures var s', p := Next(cfg, s, Advance(h, input)), s.handlers[h].phase;
            && s'.handlers == s.handlers[h := s.handlers[h].(phase := AtWallet)] && s'.now == s.now
            && s'.used == s.used[p.claims.tokenId := p.claims.expiresAt]
            && s'.log == s.log + [Accepted(h, p.claims, p.readAt)]
  {
  }

  /** A handler that has just arrived reads the clock in two steps. */
  lemma ReadRun(cfg: Config, actions: seq<Action>, h: nat, input: Input, c: Claims)
    requires !cfg.skipPolicy && cfg.hasVerifier
    requires var s := Run(cfg, IDLE, actions);
             && h < |s.handlers| && s.handlers[h].phase == Received && s.handlers[h].req.ValidArgs()
             && cfg.check(s.handlers[h].req, s.now) == Ok(c)
    ensures var s, s' := Run(cfg, IDLE, actions), Run(cfg, IDLE, actions + [Advance(h, input)] + [Advance(h, input)]);
            && s'.handlers == s.handlers[h := Handler(s.handlers[h].req, AtTryUse(c, s.now))]
            && s'.used == s.used && s'.log == s.log && s'.now == s.now
  {
    ReadSteps(cfg, Run(cfg, IDLE, actions), h, input, c);
    RunAppend(cfg, IDLE, actions, Advance(h, input));
    RunAppend(cfg, IDLE, actions + [Advance(h, input)], Advance(h, input));
  }

  /** A handler that holds a reading uses its token in one step. */
  lemma UseRun(cfg: Config, actions: seq<Action>, h: nat, input: Input)
    requires var s := Run(cfg, IDLE, actions);
             h < |s.handlers| && Holding(s, h) && s.handlers[h].phase.claims.tokenId !in s.used
    ensures var s, s' := Run(cfg, IDLE, actions), Run(cfg, IDLE, actions + [Advance(h, input)]);
            var p := s.handlers[h].phase;
            && s'.handlers == s.handlers[h := s.handlers[h].(phase := AtWallet)] && s'.now == s.now
            && s'.used == s.used[p.claims.tokenId := p.claims.expiresAt]
            && s'.log == s.log + [Accepted(h, p.claims, p.readAt)]
  {
    UseStep(cfg, Run(cfg, IDLE, actions), h, input);
    RunAppend(cfg, IDLE, actions, Advance(h, input));
  }

  lemma TwiceAccepted(log: seq<Entry>, c: Claims, now: nat)
    requires log == [Accepted(0, c, now), Accepted(1, c, now)]
    ensures !AcceptedOnce(log)
  {
    assert AcceptedId(log[0], c.tokenId) && AcceptedId(log[1], c.tokenId);
  }

  /** The first handler arrives at `now`. */
  function FirstArrives(req: Request, now: nat): seq<Action> { [Tick(now)] + [Arrive(req)] }

  lemma FirstArrived(cfg: Config, req: Request, now: nat)
    ensures Run(cfg, IDLE, FirstArrives(req, now)) == Service(now, map[], map[], [Handler(req, Received)], [])
  {
    RunAppend(cfg, IDLE, [], Tick(now));
    assert [] + [Tick(now)] == [Tick(now)];
    RunAppend(cfg, IDLE, [Tick(now)], Arrive(req));
  }

  // A reading in hand at the prune.

  /** Two handlers arrive with one token, and each reads the clock. */
  function BothRead(req: Request, input: Input, now: nat): seq<Action> {
    FirstArrives(req, now) + [Arrive(req)] + [Advance(0, input)] + [Advance(0, input)] + [Advance(1, input)]
      + [Advance(1, input)]
  }

  /** The first uses the token; the second has read the clock before the prune and uses the token after it. */
  function Replay(req: Request, input: Input, now: nat, later: nat, cutoff: nat): seq<Action> {
    BothRead(req, input, now) + [Advance(0, input)] + [Tick(later)] + [PruneAt(cutoff)] + [Advance(1, input)]
  }

  lemma BothHold(cfg: Config, req: Request, input: Input, now: nat, c: Claims)
    requires !cfg.skipPolicy && cfg.hasVerifier && req.ValidArgs() && cfg.check(req, now) == Ok(c)
    ensures var s := Run(cfg, IDLE, BothRead(req, input, now));
            && s.handlers == [Handler(req, AtTryUse(c, now)), Handler(req, AtTryUse(c, now))]
            && s.used == map[] && s.now == now && s.log == []
  {
    var arrived := FirstArrives(req, now) + [Arrive(req)];
    FirstArrived(cfg, req, now);
    RunAppend(cfg, IDLE, FirstArrives(req, now), Arrive(req));
    ReadRun(cfg, arrived, 0, input, c);
    ReadRun(cfg, arrived + [Advance(0, input)] + [Advance(0, input)], 1, input, c);
  }

  /** The store after the first use, the wait and the prune: the entry is gone, the second reading is not. */
  lemma EntryPruned(cfg: Config, req: Request, input: Input, now: nat, later: nat, cutoff: nat, c: Claims)
    requires !cfg.skipPolicy && cfg.hasVerifier && req.ValidArgs() && cfg.check(req, now) == Ok(c)
             && c.expiresAt <= cutoff
    ensures var used := BothRead(req, input, now) + [Advance(0, input)];
            var s := Run(cfg, IDLE, used + [Tick(later)] + [PruneAt(cutoff)]);
            && s.handlers == [Handler(req, AtWallet), Handler(req, AtTryUse(c, now))]
            && s.used == map[] && s.log == [Accepted(0, c, now)]
  {
    var used := BothRead(req, input, now) + [Advance(0, input)];
    BothHold(cfg, req, input, now, c);
    UseRun(cfg, BothRead(req, input, now), 0, input);
    RunAppend(cfg, IDLE, used, Tick(later));
    RunAppend(cfg, IDLE, used + [Tick(later)], PruneAt(cutoff));
  }

  /**
   Without the margin a token is accepted twice: any token that passes the
   checks at `now` and expires by the cutoff is. The prune may come as late as
   one likes, so it is not enough to keep the margin against the clock alone.
   */
  lemma ReplaySucceeds(cfg: Config, req: Request, input: Input, now: nat, later: nat, cutoff: nat, c: Claims)
    requires !cfg.skipPolicy && cfg.hasVerifier && req.ValidArgs() && cfg.check(req, now) == Ok(c)
    requires c.expiresAt <= cutoff && now <= later
    ensures Run(cfg, IDLE, Replay(req, input, now, later, cutoff)).log == [Accepted(0, c, now), Accepted(1, c, now)]
    ensures !AcceptedOnce(Run(cfg, IDLE, Replay(req, input, now, later, cutoff)).log)
  {
    EntryPruned(cfg, req, input, now, later, cutoff, c);
    UseRun(cfg, BothRead(req, input, now) + [Advance(0, input)] + [Tick(later)] + [PruneAt(cutoff)], 1, input);
    TwiceAccepted(Run(cfg, IDLE, Replay(req, input, now, later, cutoff)).log, c, now);
  }

  // No reading in hand at the prune.

  /** A handler arrives and uses its token. */
  function FirstTakes(req: Request, input: Input, now: nat): seq<Action> {
    FirstArrives(req, now) + [Advance(0, input)] + [Advance(0, input)] + [Advance(0, input)]
  }

  /** The second handler arrives after the prune: nobody holds a reading when the entry goes. */
  function LateReplay(req: Request, input: Input, now: nat, cutoff: nat): seq<Action> {
    FirstTakes(req, input, now) + [PruneAt(cutoff)] + [Arrive(req)] + [Advance(1, input)] + [Advance(1, input)]
      + [Advance(1, input)]
  }

  lemma FirstTook(cfg: Config, req: Request, input: Input, now: nat, c: Claims)
    requires !cfg.skipPolicy && cfg.hasVerifier && req.ValidArgs() && cfg.check(req, now) == Ok(c)
    ensures var s := Run(cfg, IDLE, FirstTakes(req, input, now));
            && s.handlers == [Handler(req, AtWallet)] && s.now == now
            && s.used == map[c.tokenId := c.expiresAt] && s.log == [Accepted(0, c, now)]
  {
    FirstArrived(cfg, req, now);
    ReadRun(cfg, FirstArrives(req, now), 0, input, c);
    UseRun(cfg, FirstArrives(req, now) + [Advance(0, input)] + [Advance(0, input)], 0, input);
  }

  /** After the prune the second handler arrives at an empty store, at the same time. */
  lemma SecondArrived(cfg: Config, req: Request, input: Input, now: nat, cutoff: nat, c: Claims)
    requires !cfg.skipPolicy && cfg.hasVerifier && req.ValidArgs() && cfg.check(req, now) == Ok(c)
             && c.expiresAt <= cutoff
    ensures var s := Run(cfg, IDLE, FirstTakes(req, input, now) + [PruneAt(cutoff)] + [Arrive(req)]);
            && s.handlers == [Handler(req, AtWallet), Handler(req, Received)]
            && s.now == now && s.used == map[] && s.log == [Accepted(0, c, now)]
  {
    FirstTook(cfg, req, input, now, c);
    RunAppend(cfg, IDLE, FirstTakes(req, input, now), PruneAt(cutoff));
    RunAppend(cfg, IDLE, FirstTakes(req, input, now) + [PruneAt(cutoff)], Arrive(req));
  }

  /** Without the margin against the clock a token is accepted on both sides of a prune that no reading overlaps. */
  lemma LateReplaySucceeds(cfg: Config, req: Request, input: Input, now: nat, cutoff: nat, c: Claims)
    requires !cfg.skipPolicy && cfg.hasVerifier && req.ValidArgs() && cfg.check(req, now) == Ok(c)
    requires c.expiresAt <= cutoff
    ensures Run(cfg, IDLE, LateReplay(req, input, now, cutoff)).log == [Accepted(0, c, now), Accepted(1, c, now)]
    ensures !AcceptedOnce(Run(cfg, IDLE, LateReplay(req, input, now, cutoff)).log)
    ensures forall h :: 0 <= h < |Run(cfg, IDLE, FirstTakes(req, input, now)).handlers| ==>
              !Holding(Run(cfg, IDLE, FirstTakes(req, input, now)), h)
  {
    var second := FirstTakes(req, input, now) + [PruneAt(cutoff)] + [Arrive(req)];
    FirstTook(cfg, req, input, now, c);
    SecondArrived(cfg, req, input, now, cutoff, c);
    ReadRun(cfg, second, 1, input, c);
    UseRun(cfg, second + [Advance(1, input)] + [Advance(1, input)], 1, input);
    TwiceAccepted(Run(cfg, IDLE, LateReplay(req, input, now, cutoff)).log, c, now);
  }

  /** Claims for an EVM payload that expire at the cutoff, issued now or, when that is past, at their expiry. */
  function MarginClaims(V: Crypto, now: nat, cutoff: nat, payload: Bytes, key: string, id: string): Claims {
    Claims(id, V.sha(payload), key, Evm, if cutoff < now then cutoff else now, cutoff)
  }

  function MarginRequest(V: Crypto, now: nat, cutoff: nat, payload: Bytes, key: string, id: string): Request {
    Request(1, key, payload, Mint(V, MarginClaims(V, now, cutoff, payload, key, id)), "")
  }

  /** Such a token passes the checks while the skew covers it. */
  lemma MarginAccepted(V: Crypto, skew: nat, now: nat, cutoff: nat, payload: Bytes, key: string, id: string)
    requires CryptoLaws(V) && payload != [] && key != "" && now <= cutoff + skew
    ensures var req := MarginRequest(V, now, cutoff, payload, key, id);
            && req.ValidArgs()
            && Configure(V, skew, true, true, false, false).check(req, now) ==
              Ok(MarginClaims(V, now, cutoff, payload, key, id))
  {
    var c, req := MarginClaims(V, now, cutoff, payload, key, id), MarginRequest(V, now, cutoff, payload, key, id);
    MintedAccepted(V, skew, c, payload, key, Evm, now);
    assert req.ChainOf() == Evm && Approves(V, skew, c, payload, key, Evm, now);
    assert Configure(V, skew, true, true, false, false).check(req, now) ==
      Check(V, skew, req.token, payload, key, Evm, now);
  }

  /**
   Both parts of the margin are exact for the service as configured. Whenever a
   cutoff plus the skew reaches the clock, some token minted for that moment is
   accepted on both sides of a prune with no reading in hand. Whenever it
   reaches only a reading in hand, however late the prune, some token is
   accepted twice as well. In both runs the arriving tokens agree on expiries,
   and the token is issued no later than it expires.
   */
  lemma MarginNeeded(V: Crypto, skew: nat, now: nat, later: nat, cutoff: nat, payload: Bytes, key: string, id: string,
                     input: Input)
    requires CryptoLaws(V) && payload != [] && key != "" && now <= later && now <= cutoff + skew
    ensures var cfg := Configure(V, skew, true, true, false, false);
            var c, req := MarginClaims(V, now, cutoff, payload, key, id),
              MarginRequest(V, now, cutoff, payload, key, id);
            var late, stalled := LateReplay(req, input, now, cutoff), Replay(req, input, now, later, cutoff);
            && req.token == Mint(V, c) && c.issuedAt <= c.expiresAt
            && TokensAgree(V, late) && !AcceptedOnce(Run(cfg, IDLE, late).log)
            && TokensAgree(V, stalled) && !AcceptedOnce(Run(cfg, IDLE, stalled).log)
  {
    var cfg := Configure(V, skew, true, true, false, false);
    var c, req := MarginClaims(V, now, cutoff, payload, key, id), MarginRequest(V, now, cutoff, payload, key, id);
    MarginAccepted(V, skew, now, cutoff, payload, key, id);
    ReplaySucceeds(cfg, req, input, now, later, cutoff, c);
    LateReplaySucceeds(cfg, req, input, now, cutoff, c);
    ReplaysBring(req, input, now, later, cutoff);
    OneToken(V, LateReplay(req, input, now, cutoff), req);
    OneToken(V, Replay(req, input, now, later, cutoff), req);
  }

  /** The only request that arrives is req. */
  ghost predicate OnlyBrings(actions: seq<Action>, req: Request) {
    forall k :: 0 <= k < |actions| && actions[k].Arrive? ==> actions[k].req == req
  }

  lemma ReplaysBring(req: Request, input: Input, now: nat, later: nat, cutoff: nat)
    ensures OnlyBrings(Replay(req, input, now, later, cutoff), req)
    ensures OnlyBrings(LateReplay(req, input, now, cutoff), req)
  {
    assert OnlyBrings(BothRead(req, input, now), req);
    assert OnlyBrings(FirstTakes(req, input, now), req);
  }

  lemma OneToken(V: Crypto, actions: seq<Action>, req: Request)
    requires OnlyBrings(actions, req)
    ensures TokensAgree(V, actions)
  {
  }
}

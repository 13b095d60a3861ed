/** The audit emitter: a bounded queue in front of a delivery task with bounded retries. */
module AuditEmitter {
  const CAPACITY: nat := 1024
  const RETRIES: nat := 3

  /** What became of a record that was taken from the queue, after how many delivery attempts. */
  datatype Fate = Delivered(attempts: nat) | GivenUp(attempts: nat) | Logged

  datatype Flight<R> = Idle | Sending(record: R, attempt: nat)

  /**
   `emitted` lists every record handed to the emitter and whether the queue took
   it; `settled` lists every record the delivery task is done with.
   */
  datatype Emitter<R> = Emitter(hasSink: bool, queue: seq<R>, flight: Flight<R>, emitted: seq<(R, bool)>,
    settled: seq<(R, Fate)>)

  datatype Event<R> = Emit(record: R) | Receive | Attempt(ok: bool)

  // ---------------------------------------------------------------- transitions

  /** A full queue drops the record instead of blocking. */
  function DoEmit<R>(s: Emitter<R>, r: R): Emitter<R> {
    if |s.queue| < CAPACITY then s.(queue := s.queue + [r], emitted := s.emitted + [(r, true)])
    else s.(emitted := s.emitted + [(r, false)])
  }

  function DoReceive<R>(s: Emitter<R>): Emitter<R> {
    if s.flight != Idle || s.queue == [] then s
    else if s.hasSink then s.(queue := s.queue[1..], flight := Sending(s.queue[0], 0))
    else s.(queue := s.queue[1..], settled := s.settled + [(s.queue[0], Logged)])
  }

  function DoAttempt<R>(s: Emitter<R>, ok: bool): Emitter<R> {
    match s.flight
    case Idle => s
    case Sending(r, attempt) =>
      if ok then s.(flight := Idle, settled := s.settled + [(r, Delivered(attempt + 1))])
      else if attempt < RETRIES then s.(flight := Sending(r, attempt + 1))
      else s.(flight := Idle, settled := s.settled + [(r, GivenUp(attempt + 1))])
  }

  function Next<R>(s: Emitter<R>, e: Event<R>): Emitter<R> {
    match e
    case Emit(r) => DoEmit(s, r)
    case Receive => DoReceive(s)
    case Attempt(ok) => DoAttempt(s, ok)
  }

  function Run<R>(s: Emitter<R>, es: seq<Event<R>>): Emitter<R> {
    if es == [] then s else Next(Run(s, es[..|es| - 1]), es[|es| - 1])
  }

  function Fresh<R>(hasSink: bool): Emitter<R> { Emitter(hasSink, [], Idle, [], []) }

  // ---------------------------------------------------------------- conservation

  /** The records the queue took, in emission order. */
  function Taken<R>(emitted: seq<(R, bool)>): seq<R> {
    if emitted == [] then []
    else
      var rest, last := Taken(emitted[..|emitted| - 1]), emitted[|emitted| - 1];
      if last.1 then rest + [last.0] else rest
  }

  function Records<R>(settled: seq<(R, Fate)>): (r: seq<R>)
    ensures |r| == |settled|
  {
    seq(|settled|, i requires 0 <= i < |settled| => settled[i].0)
  }

  function InFlight<R>(f: Flight<R>): seq<R> {
    match f case Idle => [] case Sending(r, _) => [r]
  }

  /**
   Nothing is lost or reordered after the queue: what it took is, in order, what
   is settled, then what is being sent, then what still waits.
   */
  ghost predicate Conserved<R>(s: Emitter<R>) {
    Taken(s.emitted) == Records(s.settled) + InFlight(s.flight) + s.queue
  }

  predicate FateOk(hasSink: bool, f: Fate) {
    match f
    case Delivered(n) => hasSink && 1 <= n <= 4
    case GivenUp(n) => hasSink && n == 4
    case Logged => !hasSink
  }

  ghost predicate Inv<R(!new)>(s: Emitter<R>) {
    && Conserved(s)
    && |s.queue| <= 1024
    && (s.flight.Sending? ==> s.hasSink && s.flight.attempt <= 3)
    && forall i :: 0 <= i < |s.settled| ==> FateOk(s.hasSink, s.settled[i].1)
  }

  lemma TakenAppend<R>(emitted: seq<(R, bool)>, r: R, took: bool)
    ensures Taken(emitted + [(r, took)]) == if took then Taken(emitted) + [r] else Taken(emitted)
  {
    assert (emitted + [(r, took)])[..|emitted|] == emitted;
  }

  lemma RecordsAppend<R>(settled: seq<(R, Fate)>, r: R, f: Fate)
    ensures Records(settled + [(r, f)]) == Records(settled) + [r]
  {
  }

  lemma EmitInv<R(!new)>(s: Emitter<R>, r: R)
    requires Inv(s)
    ensures Inv(DoEmit(s, r))
  {
    TakenAppend(s.emitted, r, |s.queue| < CAPACITY);
    var done := Records(s.settled) + InFlight(s.flight);
    assert done + (s.queue + [r]) == done + s.queue + [r];
  }

  lemma ReceiveInv<R(!new)>(s: Emitter<R>)
    requires Inv(s)
    ensures Inv(DoReceive(s))
  {
    if s.flight.Idle? && s.queue != [] {
      var r, rest, done := s.queue[0], s.queue[1..], Records(s.settled);
      RecordsAppend(s.settled, r, Logged);
      assert s.queue == [r] + rest;
      assert done + [] + s.queue == done + [r] + rest == done + [r] + [] + rest;
    }
  }

  lemma AttemptInv<R(!new)>(s: Emitter<R>, ok: bool)
    requires Inv(s)
    ensures Inv(DoAttempt(s, ok))
  {
    if s.flight.Sending? && (ok || s.flight.attempt == RETRIES) {
      var r, done := s.flight.record, Records(s.settled);
      RecordsAppend(s.settled, r, if ok then Delivered(s.flight.attempt + 1) else GivenUp(s.flight.attempt + 1));
      assert done + [r] + s.queue == done + [r] + [] + s.queue;
    }
  }

  lemma NextInv<R(!new)>(s: Emitter<R>, e: Event<R>)
    requires Inv(s)
    ensures Inv(Next(s, e))
  {
    match e
    case Emit(r) => EmitInv(s, r);
    case Receive => ReceiveInv(s);
    case Attempt(ok) => AttemptInv(s, ok);
  }

  /** In every run: conservation and order, the bound on the queue, and at most four attempts per record. */
  lemma {:induction false} EmitterConserves<R(!new)>(hasSink: bool, es: seq<Event<R>>)
    ensures Inv(Run(Fresh<R>(hasSink), es))
  {
    if es != [] {
      var k := |es| - 1;
      EmitterConserves(hasSink, es[..k]);
      NextInv(Run(Fresh<R>(hasSink), es[..k]), es[k]);
    }
  }

  /** Where the taken records stand among the emitted ones. */
  function Positions<R>(emitted: seq<(R, bool)>): (r: seq<nat>) {
    if emitted == [] then []
    else
      var rest, k := Positions(emitted[..|emitted| - 1]), |emitted| - 1;
      if emitted[k].1 then rest + [k] else rest
  }

  lemma {:induction false} PositionsLaw<R(!new)>(emitted: seq<(R, bool)>)
    ensures var p := Positions(emitted);
            && |p| == |Taken(emitted)|
            && (forall i :: 0 <= i < |p| ==> p[i] < |emitted| && emitted[p[i]] == (Taken(emitted)[i], true))
            && (forall i, j :: 0 <= i < j < |p| ==> p[i] < p[j])
  {
    if emitted != [] {
      var k := |emitted| - 1;
      PositionsLaw(emitted[..k]);
      var rest := Positions(emitted[..k]);
      assert forall i :: 0 <= i < |rest| ==> emitted[rest[i]] == emitted[..k][rest[i]];
    }
  }

  /** Records are settled in the order they were emitted: the i-th settled record is the i-th taken emission. */
  lemma SettledInOrder<R(!new)>(hasSink: bool, es: seq<Event<R>>)
    ensures var s := Run(Fresh<R>(hasSink), es);
            var p := Positions(s.emitted);
            && |s.settled| <= |p|
            && (forall i :: 0 <= i < |s.settled| ==> p[i] < |s.emitted| && s.emitted[p[i]] == (s.settled[i].0, true))
            && (forall i, j :: 0 <= i < j < |p| ==> p[i] < p[j])
  {
    var s := Run(Fresh<R>(hasSink), es);
    EmitterConserves(hasSink, es);
    PositionsLaw(s.emitted);
    forall i | 0 <= i < |s.settled| ensures Taken(s.emitted)[i] == s.settled[i].0 {
      assert Records(s.settled)[i] == s.settled[i].0;
    }
  }

  // ---------------------------------------------------------------- counting fates

  function Dropped<R>(emitted: seq<(R, bool)>): nat {
    if emitted == [] then 0 else Dropped(emitted[..|emitted| - 1]) + if emitted[|emitted| - 1].1 then 0 else 1
  }

  lemma {:induction false} TakenCount<R>(emitted: seq<(R, bool)>)
    ensures |Taken(emitted)| + Dropped(emitted) == |emitted|
  {
    if emitted != [] { TakenCount(emitted[..|emitted| - 1]); }
  }

  /** Every emitted record is in exactly one place: dropped at the full queue, settled, in flight or queued. */
  lemma EmitterPartitions<R(!new)>(hasSink: bool, es: seq<Event<R>>)
    ensures var s := Run(Fresh<R>(hasSink), es);
            |s.emitted| == Dropped(s.emitted) + |s.settled| + |InFlight(s.flight)| + |s.queue|
  {
    var s := Run(Fresh<R>(hasSink), es);
    EmitterConserves(hasSink, es);
    TakenCount(s.emitted);
  }

  // ---------------------------------------------------------------- the retry loop

  /** Milliseconds slept in all by the time of attempt 1, 2, 3 and 4. */
  const BACKOFF_MS: seq<nat> := [0, 200, 600, 1400]

  /** What the replies of the sink to attempts 0, 1, .. lead to, starting at `attempt`. */
  function Outcome(reply: nat -> bool, attempt: nat): (f: Fate)
    ensures !f.Logged? && f.attempts > attempt && (attempt <= 3 ==> f.attempts <= 4)
    decreases RETRIES - attempt
  {
    if reply(attempt) then Delivered(attempt + 1)
    else if attempt < RETRIES then Outcome(reply, attempt + 1)
    else GivenUp(attempt + 1)
  }

  function Pow2(k: nat): nat { if k == 0 then 1 else 2 * Pow2(k - 1) }

  /** Milliseconds slept before attempt k. */
  function Slept(k: nat): nat { if k == 0 then 0 else Slept(k - 1) + 100 * Pow2(k) }

  class Delivery<R> {
    const hasSink: bool
    var queue: seq<R>
    var settled: seq<(R, Fate)>

    constructor (hasSink: bool)
      ensures this.hasSink == hasSink && queue == [] && settled == []
    {
      this.hasSink, queue, settled := hasSink, [], [];
    }

    /** Queue a record without blocking; a full queue drops it. */
    method Emit(r: R) returns (taken: bool)
      modifies this
      ensures taken <==> |old(queue)| < 1024
      ensures queue == if taken then old(queue) + [r] else old(queue)
      ensures settled == old(settled)
    {
      taken := |queue| < CAPACITY;
      if taken { queue := queue + [r]; }
    }

    /**
     Take the oldest record and settle it: logged when there is no sink,
     otherwise tried until the sink answers or the retries run out, with a
     back-off before each retry.
     */
    method DeliverNext(reply: nat -> bool) returns (sleptMs: nat)
      requires queue != []
      modifies this
      ensures queue == old(queue)[1..]
      ensures settled == old(settled) + [(old(queue)[0], if hasSink then Outcome(reply, 0) else Logged)]
      ensures sleptMs == if hasSink then BACKOFF_MS[Outcome(reply, 0).attempts - 1] else 0
    {
      var r := queue[0];
      queue := queue[1..];
      sleptMs := 0;
      if !hasSink {
        settled := settled + [(r, Logged)];
        return;
      }
      var attempt: nat := 0;
      while !reply(attempt) && attempt < RETRIES
        invariant attempt <= RETRIES && sleptMs == Slept(attempt)
        invariant Outcome(reply, attempt) == Outcome(reply, 0)
        decreases RETRIES - attempt
      {
        attempt := attempt + 1;
        sleptMs := sleptMs + 100 * Pow2(attempt);
      }
      settled := settled + [(r, if reply(attempt) then Delivered(attempt + 1) else GivenUp(attempt + 1))];
      assert Slept(0) == 0 && Slept(1) == 200 && Slept(2) == 600 && Slept(3) == 1400;
    }
  }

  /**
   The outcome is a delivery exactly when one of the four attempts is answered,
   and counts attempts up to the first.
   */
  lemma {:induction false} OutcomeExact(reply: nat -> bool, attempt: nat)
    requires attempt <= 3
    ensures var f := Outcome(reply, attempt);
            && (f.Delivered? <==> exists k: nat :: attempt <= k <= 3 && reply(k))
            && (f.Delivered? ==> attempt < f.attempts <= 4 && reply(f.attempts - 1)
                                 && forall k: nat :: attempt <= k < f.attempts - 1 ==> !reply(k))
            && (!f.Delivered? ==> f == GivenUp(4))
    decreases RETRIES - attempt
  {
    if !reply(attempt) && attempt < RETRIES {
      OutcomeExact(reply, attempt + 1);
    }
  }

  /** The attempts the task makes on its current record, until it is settled. */
  function Attempts<R>(reply: nat -> bool, attempt: nat): seq<Event<R>>
    decreases RETRIES - attempt
  {
    [Attempt(reply(attempt))] + if !reply(attempt) && attempt < RETRIES then Attempts<R>(reply, attempt + 1) else []
  }

  function RunFrom<R>(s: Emitter<R>, es: seq<Event<R>>): Emitter<R>
    decreases |es|
  {
    if es == [] then s else RunFrom(Next(s, es[0]), es[1..])
  }

  /**
   The retry loop is a run of the step model: it settles the record in flight
   with `Outcome`, in at most four attempts.
   */
  lemma {:induction false} LoopIsRun<R>(s: Emitter<R>, reply: nat -> bool, attempt: nat)
    requires s.flight.Sending? && s.flight.attempt == attempt <= 3
    ensures RunFrom(s, Attempts<R>(reply, attempt)) ==
            s.(flight := Idle, settled := s.settled + [(s.flight.record, Outcome(reply, attempt))])
    ensures |Attempts<R>(reply, attempt)| <= 4 - attempt
    decreases RETRIES - attempt
  {
    var es := Attempts<R>(reply, attempt);
    if !reply(attempt) && attempt < RETRIES {
      assert es[1..] == Attempts<R>(reply, attempt + 1);
      LoopIsRun(DoAttempt(s, false), reply, attempt + 1);
    } else {
      assert es[1..] == [];
    }
  }

  /** A record is dropped exactly when 1024 are waiting; either way it is noted, and nothing else moves. */
  lemma EmitExact<R(!new)>(s: Emitter<R>, r: R)
    requires Inv(s)
    ensures var s', full := DoEmit(s, r), |s.queue| == 1024;
            && s'.emitted == s.emitted + [(r, !full)]
            && s'.queue == s.queue + (if full then [] else [r])
            && s'.flight == s.flight && s'.settled == s.settled && s'.hasSink == s.hasSink
  {
    assert |s.queue| == 1024 ==> s.queue + [] == s.queue;
  }

  /** The steps with which the delivery task takes its next record and is done with it. */
  function Turn<R>(hasSink: bool, reply: nat -> bool): seq<Event<R>> {
    [Receive] + if hasSink then Attempts<R>(reply, 0) else []
  }

  /** The delivery loop is a run of the step model: it settles the oldest record with the loop's outcome. */
  lemma DeliveryIsRun<R(!new)>(s: Emitter<R>, reply: nat -> bool)
    requires s.flight == Idle && s.queue != []
    ensures RunFrom(s, Turn<R>(s.hasSink, reply)) ==
            s.(queue := s.queue[1..],
               settled := s.settled + [(s.queue[0], if s.hasSink then Outcome(reply, 0) else Logged)])
  {
    var es := Turn<R>(s.hasSink, reply);
    assert es[1..] == if s.hasSink then Attempts<R>(reply, 0) else [];
    if s.hasSink { LoopIsRun(DoReceive(s), reply, 0); }
  }
}

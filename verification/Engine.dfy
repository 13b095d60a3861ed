/** The threshold engine: an ECDSA cluster and an EdDSA cluster behind one key map. */
module EngineSpec {
  import opened Wrappers
  import opened Domain
  import opened Curves
  import opened ClusterSpec

  datatype EngineError =
    | ProviderUnavailable
    | KeyNotFound(key: string)
    | Denied
    | Internal

  datatype EngineReply<+T> = Answer(value: T) | Error(error: EngineError) | Crash

  datatype Signature = Signature(sig: Bytes, publicKey: Bytes)

  datatype Metadata = Metadata(chain: Chain, publicKey: Bytes, epoch: nat)

  function Convert(e: ThresholdError): EngineError {
    match e
    case QuorumNotMet(_, _) => ProviderUnavailable
    case UnknownKey(k) => KeyNotFound(k)
    case ReconstructFailed => Internal
    case InvalidParams => Denied
  }

  function Lift<T>(r: Reply<T>): EngineReply<T> {
    match r
    case Done(v) => Answer(v)
    case Failed(e) => Error(Convert(e))
    case Panicked => Crash
  }

  datatype EngineState<S1, S2> = EngineState(ecdsa: ClusterState<S1>, eddsa: ClusterState<S2>,
    keys: map<string, Scheme>)

  /** The two curves. */
  datatype CurvePair<!S1(!new), !G1(!new), !S2(!new), !G2(!new)> = CurvePair(ecdsa: Curve<S1, G1>, eddsa: Curve<S2, G2>)

  /** Random choices for either cluster; only the one in charge draws them. */
  datatype Deals<S1, S2> = Deals(ecdsa: seq<Dealing<S1>>, eddsa: seq<Dealing<S2>>)
  datatype Zeros<S1, S2> = Zeros(ecdsa: seq<seq<S1>>, eddsa: seq<seq<S2>>)
  datatype Nonces<S1, S2> = Nonces(ecdsa: S1, eddsa: S2)

  ghost predicate EngineShape<S1, S2>(st: EngineState<S1, S2>) {
    Shape(st.ecdsa) && Shape(st.eddsa)
  }

  // ---------------------------------------------------------------- operations

  function EngineDkg<S1(!new), G1(!new), S2(!new), G2(!new)>(
      C: CurvePair<S1, G1, S2, G2>, st: EngineState<S1, S2>, chain: Chain, key: string, ds: Deals<S1, S2>)
    : (EngineState<S1, S2>, EngineReply<Bytes>)
    requires |st.ecdsa.nodes| == st.ecdsa.n && |st.eddsa.nodes| == st.eddsa.n
  {
    match chain.Scheme()
    case Ecdsa =>
      var (cluster, r) := Keygen(C.ecdsa, st.ecdsa, key, ds.ecdsa);
      (st.(ecdsa := cluster, keys := if r.Done? then st.keys[key := Ecdsa] else st.keys), Lift(r))
    case Eddsa =>
      var (cluster, r) := Keygen(C.eddsa, st.eddsa, key, ds.eddsa);
      (st.(eddsa := cluster, keys := if r.Done? then st.keys[key := Eddsa] else st.keys), Lift(r))
  }

  function WithKey<S>(st: ClusterState<S>, key: string, r: Reply<Bytes>): EngineReply<Signature> {
    if !r.Done? then (if r.Panicked? then Crash else Error(Convert(r.error)))
    else if key !in st.keys then Error(KeyNotFound(key))
    else Answer(Signature(r.value, st.keys[key].publicKey))
  }

  ghost function EngineSign<S1(!new), G1(!new), S2(!new), G2(!new)>(
      C: CurvePair<S1, G1, S2, G2>, st: EngineState<S1, S2>, key: string, chain: Chain, payload: Bytes,
      nonce: Nonces<S1, S2>)
    : EngineReply<Signature>
  {
    if key !in st.keys then Error(KeyNotFound(key))
    else if chain.Scheme() != st.keys[key] then Error(Denied)
    else
      match st.keys[key]
      case Ecdsa => WithKey(st.ecdsa, key, Sign(C.ecdsa, st.ecdsa, key, payload, nonce.ecdsa))
      case Eddsa => WithKey(st.eddsa, key, Sign(C.eddsa, st.eddsa, key, payload, nonce.eddsa))
  }

  function EngineRotate<S1(!new), G1(!new), S2(!new), G2(!new)>(
      C: CurvePair<S1, G1, S2, G2>, st: EngineState<S1, S2>, key: string, z: Zeros<S1, S2>)
    : (EngineState<S1, S2>, EngineReply<(Bytes, nat)>)
    requires EngineShape(st)
  {
    if key !in st.keys then (st, Error(KeyNotFound(key)))
    else
      match st.keys[key]
      case Ecdsa => var (cluster, r) := Refresh(C.ecdsa, st.ecdsa, key, z.ecdsa); (st.(ecdsa := cluster), Lift(r))
      case Eddsa => var (cluster, r) := Refresh(C.eddsa, st.eddsa, key, z.eddsa); (st.(eddsa := cluster), Lift(r))
  }

  function Describe<S>(st: ClusterState<S>, key: string, chain: Chain): EngineReply<Metadata> {
    if key in st.keys then Answer(Metadata(chain, st.keys[key].publicKey, st.keys[key].epoch))
    else Error(KeyNotFound(key))
  }

  function EngineMetadata<S1, S2>(st: EngineState<S1, S2>, key: string): EngineReply<Metadata> {
    if key !in st.keys then Error(KeyNotFound(key))
    else
      match st.keys[key]
      case Ecdsa => Describe(st.ecdsa, key, Evm)
      case Eddsa => Describe(st.eddsa, key, Solana)
  }
}

/** What holds of the engine over every run. */
module EngineRuns {
  import opened Wrappers
  import opened Domain
  import opened Curves
  import opened ClusterSpec
  import opened Polynomials
  import opened Dkg
  import opened ClusterRuns
  import opened EngineSpec

  datatype EngineEvent<S1, S2> =
    | DkgEvent(chain: Chain, key: string, deals: Deals<S1, S2>)
    | RotateEvent(key: string, zeros: Zeros<S1, S2>)
    | SignRequest(key: string, chain: Chain, payload: Bytes, nonce: Nonces<S1, S2>)
    | EcdsaOutage(index: nat, online: bool, delayMs: nat)
    | EddsaOutage(index: nat, online: bool, delayMs: nat)

  ghost predicate LawfulPair<S1(!new), G1(!new), S2(!new), G2(!new)>(C: CurvePair<S1, G1, S2, G2>) {
    Lawful(C.ecdsa) && Lawful(C.eddsa)
  }

  /** A generated id is new to the engine, as a fresh UUID is; random choices are canonical scalars. */
  ghost predicate EngineEventOk<S1(!new), G1(!new), S2(!new), G2(!new)>(
      C: CurvePair<S1, G1, S2, G2>, st: EngineState<S1, S2>, e: EngineEvent<S1, S2>)
  {
    match e
    case DkgEvent(_, key, deals) =>
      && key !in st.keys
      && DealingsOk(C.ecdsa, st.ecdsa, deals.ecdsa) && DealingsOk(C.eddsa, st.eddsa, deals.eddsa)
    case RotateEvent(_, z) =>
      && DealingsOk(C.ecdsa, st.ecdsa, ZeroDeals(C.ecdsa, z.ecdsa))
      && DealingsOk(C.eddsa, st.eddsa, ZeroDeals(C.eddsa, z.eddsa))
    case _ => true
  }

  function Outage<S>(st: ClusterState<S>, index: nat, online: bool, delayMs: nat): ClusterState<S> {
    SetDelay(SetOnline(st, index, online), index, delayMs)
  }

  ghost function EngineNext<S1(!new), G1(!new), S2(!new), G2(!new)>(
      C: CurvePair<S1, G1, S2, G2>, st: EngineState<S1, S2>, e: EngineEvent<S1, S2>): EngineState<S1, S2>
    requires EngineShape(st)
  {
    match e
    case DkgEvent(chain, key, deals) => EngineDkg(C, st, chain, key, deals).0
    case RotateEvent(key, zeros) => EngineRotate(C, st, key, zeros).0
    case SignRequest(_, _, _, _) => st
    case EcdsaOutage(i, online, d) => st.(ecdsa := Outage(st.ecdsa, i, online, d))
    case EddsaOutage(i, online, d) => st.(eddsa := Outage(st.eddsa, i, online, d))
  }

  /**
   Both clusters are consistent, and the engine's map says exactly which cluster
   knows which key: a key belongs to one cluster and is unknown to the other.
   */
  ghost predicate EngineGood<S1(!new), G1(!new), S2(!new), G2(!new)>(
      C: CurvePair<S1, G1, S2, G2>, st: EngineState<S1, S2>)
  {
    && Good(C.ecdsa, st.ecdsa) && Good(C.eddsa, st.eddsa)
    && forall key :: Placed(st, key)
  }

  ghost predicate Placed<S1, S2>(st: EngineState<S1, S2>, key: string) {
    && (key in st.ecdsa.keys <==> key in st.keys && st.keys[key] == Ecdsa)
    && (key in st.eddsa.keys <==> key in st.keys && st.keys[key] == Eddsa)
  }

  lemma OutageGood<S(!new), G(!new)>(C: Curve<S, G>, st: ClusterState<S>, index: nat, online: bool, delayMs: nat)
    requires FieldLaws(C) && GroupLaws(C) && Good(C, st)
    ensures Good(C, Outage(st, index, online, delayMs)) && Outage(st, index, online, delayMs).keys == st.keys
  {
    NextGood(C, st, OnlineEvent(index, online));
    NextGood(C, SetOnline(st, index, online), DelayEvent(index, delayMs));
  }

  lemma RotateGood<S1(!new), G1(!new), S2(!new), G2(!new)>(
      C: CurvePair<S1, G1, S2, G2>, st: EngineState<S1, S2>, key: string, z: Zeros<S1, S2>)
    requires LawfulPair(C) && EngineGood(C, st) && EngineEventOk(C, st, RotateEvent(key, z))
    ensures EngineGood(C, EngineRotate(C, st, key, z).0)
  {
    var st' := EngineRotate(C, st, key, z).0;
    RefreshGood(C.ecdsa, st.ecdsa, key, z.ecdsa);
    RefreshGood(C.eddsa, st.eddsa, key, z.eddsa);
    RefreshShape(C.ecdsa, st.ecdsa, key, z.ecdsa);
    RefreshShape(C.eddsa, st.eddsa, key, z.eddsa);
    forall k ensures Placed(st', k) { assert Placed(st, k); }
  }

  lemma DkgGood<S1(!new), G1(!new), S2(!new), G2(!new)>(
      C: CurvePair<S1, G1, S2, G2>, st: EngineState<S1, S2>, chain: Chain, key: string, ds: Deals<S1, S2>)
    requires LawfulPair(C) && EngineGood(C, st) && EngineEventOk(C, st, DkgEvent(chain, key, ds))
    ensures EngineGood(C, EngineDkg(C, st, chain, key, ds).0)
  {
    var st' := EngineDkg(C, st, chain, key, ds).0;
    assert Placed(st, key);
    if chain.Scheme() == Ecdsa {
      KeygenGood(C.ecdsa, st.ecdsa, key, ds.ecdsa);
    } else {
      KeygenGood(C.eddsa, st.eddsa, key, ds.eddsa);
    }
    forall k ensures Placed(st', k) { assert Placed(st, k); }
  }

  lemma EngineNextGood<S1(!new), G1(!new), S2(!new), G2(!new)>(
      C: CurvePair<S1, G1, S2, G2>, st: EngineState<S1, S2>, e: EngineEvent<S1, S2>)
    requires LawfulPair(C) && EngineGood(C, st) && EngineEventOk(C, st, e)
    ensures EngineGood(C, EngineNext(C, st, e))
  {
    match e
    case DkgEvent(chain, key, deals) => DkgGood(C, st, chain, key, deals);
    case RotateEvent(key, zeros) => RotateGood(C, st, key, zeros);
    case SignRequest(_, _, _, _) =>
    case EcdsaOutage(i, online, d) =>
      OutageGood(C.ecdsa, st.ecdsa, i, online, d);
      forall k ensures Placed(EngineNext(C, st, e), k) { assert Placed(st, k); }
    case EddsaOutage(i, online, d) =>
      OutageGood(C.eddsa, st.eddsa, i, online, d);
      forall k ensures Placed(EngineNext(C, st, e), k) { assert Placed(st, k); }
  }

  // ---------------------------------------------------------------- runs

  ghost predicate EngineRunOk<S1(!new), G1(!new), S2(!new), G2(!new)>(
      C: CurvePair<S1, G1, S2, G2>, st: EngineState<S1, S2>, es: seq<EngineEvent<S1, S2>>)
    decreases |es|
  {
    es == [] || (EngineShape(st) && EngineEventOk(C, st, es[0]) && EngineRunOk(C, EngineNext(C, st, es[0]), es[1..]))
  }

  ghost function EngineRun<S1(!new), G1(!new), S2(!new), G2(!new)>(
      C: CurvePair<S1, G1, S2, G2>, st: EngineState<S1, S2>, es: seq<EngineEvent<S1, S2>>): EngineState<S1, S2>
    requires EngineRunOk(C, st, es)
    decreases |es|
  {
    if es == [] then st else EngineRun(C, EngineNext(C, st, es[0]), es[1..])
  }

  /** In every reachable state the clusters are consistent and agree with the engine's map. */
  lemma {:induction false} EngineRunGood<S1(!new), G1(!new), S2(!new), G2(!new)>(
      C: CurvePair<S1, G1, S2, G2>, st: EngineState<S1, S2>, es: seq<EngineEvent<S1, S2>>)
    requires LawfulPair(C) && EngineGood(C, st) && EngineRunOk(C, st, es)
    ensures EngineGood(C, EngineRun(C, st, es))
    decreases |es|
  {
    if es != [] {
      EngineNextGood(C, st, es[0]);
      EngineRunGood(C, EngineNext(C, st, es[0]), es[1..]);
    }
  }

  lemma EngineInitialGood<S1(!new), G1(!new), S2(!new), G2(!new)>(
      C: CurvePair<S1, G1, S2, G2>, t: nat, n: nat, timeoutMs: nat)
    requires 1 <= t <= n < C.ecdsa.order && n < C.eddsa.order
    ensures EngineGood(C, EngineState(Initial<S1>(t, n, timeoutMs), Initial<S2>(t, n, timeoutMs), map[]))
  {
  }

  /** Every state reachable from a new engine is consistent. */
  lemma EngineReachable<S1(!new), G1(!new), S2(!new), G2(!new)>(
      C: CurvePair<S1, G1, S2, G2>, t: nat, n: nat, timeoutMs: nat, es: seq<EngineEvent<S1, S2>>)
    requires LawfulPair(C) && 1 <= t <= n < C.ecdsa.order && n < C.eddsa.order
    requires EngineRunOk(C, EngineState(Initial<S1>(t, n, timeoutMs), Initial<S2>(t, n, timeoutMs), map[]), es)
    ensures EngineGood(C,
            EngineRun(C, EngineState(Initial<S1>(t, n, timeoutMs), Initial<S2>(t, n, timeoutMs), map[]), es))
  {
    EngineInitialGood(C, t, n, timeoutMs);
    EngineRunGood(C, EngineState(Initial<S1>(t, n, timeoutMs), Initial<S2>(t, n, timeoutMs), map[]), es);
  }

  /** The record of a key, in the cluster of its scheme. */
  ghost predicate Recorded<S1, S2>(st: EngineState<S1, S2>, key: string, scheme: Scheme, info: KeyInfo) {
    && key in st.keys && st.keys[key] == scheme
    && match scheme
       case Ecdsa => key in st.ecdsa.keys && st.ecdsa.keys[key] == info
       case Eddsa => key in st.eddsa.keys && st.eddsa.keys[key] == info
  }

  /** This event is a rotation of `key` that succeeds. */
  ghost predicate Rotates<S1(!new), G1(!new), S2(!new), G2(!new)>(
      C: CurvePair<S1, G1, S2, G2>, st: EngineState<S1, S2>, e: EngineEvent<S1, S2>, key: string)
    requires EngineShape(st)
  {
    e.RotateEvent? && e.key == key && EngineRotate(C, st, key, e.zeros).1.Answer?
  }

  ghost function RotationCount<S1(!new), G1(!new), S2(!new), G2(!new)>(
      C: CurvePair<S1, G1, S2, G2>, st: EngineState<S1, S2>, es: seq<EngineEvent<S1, S2>>, key: string): nat
    requires EngineRunOk(C, st, es)
    decreases |es|
  {
    if es == [] then 0
    else (if Rotates(C, st, es[0], key) then 1 else 0) + RotationCount(C, EngineNext(C, st, es[0]), es[1..], key)
  }

  /** Every node of the cluster is online. */
  ghost predicate AllOnline<S>(st: ClusterState<S>) {
    forall i :: 0 <= i < |st.nodes| ==> st.nodes[i].online
  }

  /**
   A rotation goes through exactly when the cluster that owns the key has every
   node online; it keeps the public key, counts one epoch and leaves the other
   cluster alone. Otherwise it changes nothing at all, and reports an unknown key
   or an outage.
   */
  lemma RotateOutcome<S1(!new), G1(!new), S2(!new), G2(!new)>(
      C: CurvePair<S1, G1, S2, G2>, st: EngineState<S1, S2>, key: string, z: Zeros<S1, S2>)
    requires EngineShape(st) && Placed(st, key)
    ensures var (st', r) := EngineRotate(C, st, key, z);
            && (!r.Answer? ==> st' == st)
            && (r == Error(KeyNotFound(key)) <==> key !in st.ecdsa.keys && key !in st.eddsa.keys)
            && (key in st.ecdsa.keys && !AllOnline(st.ecdsa) ==> r == Error(ProviderUnavailable))
            && (key in st.eddsa.keys && !AllOnline(st.eddsa) ==> r == Error(ProviderUnavailable))
            && (key in st.ecdsa.keys && AllOnline(st.ecdsa) ==> r.Answer? && st' == st.(ecdsa := st'.ecdsa))
            && (key in st.eddsa.keys && AllOnline(st.eddsa) ==> r.Answer? && st' == st.(eddsa := st'.eddsa))
            && (r.Answer? ==>
                  && EngineMetadata(st, key).Answer?
                  && Rotated(EngineMetadata(st, key).value, EngineMetadata(st', key), r.value))
  {
    if key in st.keys {
      match st.keys[key]
      case Ecdsa => RefreshExact(C.ecdsa, st.ecdsa, key, z.ecdsa);
      case Eddsa => RefreshExact(C.eddsa, st.eddsa, key, z.eddsa);
    }
  }

  /** A successful rotation moves the shares of the owning cluster by its dealers' zero-sharings, and no other share. */
  lemma RotateShared<S1(!new), G1(!new), S2(!new), G2(!new)>(
      C: CurvePair<S1, G1, S2, G2>, st: EngineState<S1, S2>, key: string, z: Zeros<S1, S2>, c1: seq<S1>, c2: seq<S2>)
    requires LawfulPair(C) && EngineShape(st) && Placed(st, key) && EngineEventOk(C, st, RotateEvent(key, z))
    requires EngineRotate(C, st, key, z).1.Answer?
    ensures var st' := EngineRotate(C, st, key, z).0;
            && (key in st.ecdsa.keys && SharedBy(C.ecdsa, st.ecdsa, key, c1) ==>
                  Moved(C.ecdsa, st.ecdsa, st'.ecdsa, key, c1, ZeroDeals(C.ecdsa, z.ecdsa)))
            && (key in st.eddsa.keys && SharedBy(C.eddsa, st.eddsa, key, c2) ==>
                  Moved(C.eddsa, st.eddsa, st'.eddsa, key, c2, ZeroDeals(C.eddsa, z.eddsa)))
  {
    RotateOutcome(C, st, key, z);
    match st.keys[key]
    case Ecdsa =>
      OnlineAll(st.ecdsa.nodes);
      if SharedBy(C.ecdsa, st.ecdsa, key, c1) { RefreshShared(C.ecdsa, st.ecdsa, key, z.ecdsa, c1); }
    case Eddsa =>
      OnlineAll(st.eddsa.nodes);
      if SharedBy(C.eddsa, st.eddsa, key, c2) { RefreshShared(C.eddsa, st.eddsa, key, z.eddsa, c2); }
  }

  /** The shares of `key` went from c to c plus the sum of the dealings, and nothing else moved. */
  ghost predicate Moved<S(!new), G(!new)>(
      C: Curve<S, G>, st: ClusterState<S>, st': ClusterState<S>, key: string, c: seq<S>, ds: seq<Dealing<S>>)
    requires |c| == st.t && forall d :: 0 <= d < |ds| ==> |ds[d].random| + 1 == st.t
  {
    SharedBy(C, st', key, Plus(C, c, SumPoly(C, st.t, ds))) && OnlyKeyMoved(st, st', key)
  }

  ghost predicate Rotated(before: Metadata, after: EngineReply<Metadata>, reply: (Bytes, nat)) {
    && after == Answer(before.(epoch := before.epoch + 1))
    && reply == (before.publicKey, before.epoch + 1)
  }

  lemma NextRecorded<S1(!new), G1(!new), S2(!new), G2(!new)>(
      C: CurvePair<S1, G1, S2, G2>, st: EngineState<S1, S2>, e: EngineEvent<S1, S2>, key: string, scheme: Scheme,
      info: KeyInfo)
    requires EngineShape(st) && EngineEventOk(C, st, e) && Recorded(st, key, scheme, info)
    ensures Recorded(EngineNext(C, st, e), key, scheme,
                     if Rotates(C, st, e, key) then info.(epoch := info.epoch + 1) else info)
  {
    match e
    case DkgEvent(chain, k, deals) => DkgKeepsRecord(C, st, chain, k, deals, key);
    case RotateEvent(k, zeros) => RotateKeepsRecord(C, st, k, zeros, key, scheme, info);
    case _ =>
  }

  lemma RotateKeepsRecord<S1(!new), G1(!new), S2(!new), G2(!new)>(
      C: CurvePair<S1, G1, S2, G2>, st: EngineState<S1, S2>, k: string, z: Zeros<S1, S2>, key: string, scheme: Scheme,
      info: KeyInfo)
    requires EngineShape(st) && Recorded(st, key, scheme, info)
    ensures var (st', r) := EngineRotate(C, st, k, z);
            Recorded(st', key, scheme, if k == key && r.Answer? then info.(epoch := info.epoch + 1) else info)
  {
    if k in st.keys {
      match st.keys[k]
      case Ecdsa => RefreshRecord(C.ecdsa, st.ecdsa, k, z.ecdsa);
      case Eddsa => RefreshRecord(C.eddsa, st.eddsa, k, z.eddsa);
    }
  }

  /** Generating one key leaves the records of the others alone. */
  lemma DkgKeepsRecord<S1(!new), G1(!new), S2(!new), G2(!new)>(
      C: CurvePair<S1, G1, S2, G2>, st: EngineState<S1, S2>, chain: Chain, key: string, ds: Deals<S1, S2>,
      other: string)
    requires EngineShape(st) && other != key
    ensures var st' := EngineDkg(C, st, chain, key, ds).0;
            && (other in st.keys ==> other in st'.keys && st'.keys[other] == st.keys[other])
            && (other in st.ecdsa.keys ==> other in st'.ecdsa.keys && st'.ecdsa.keys[other] == st.ecdsa.keys[other])
            && (other in st.eddsa.keys ==> other in st'.eddsa.keys && st'.eddsa.keys[other] == st.eddsa.keys[other])
  {
  }

  /** What a refresh does to the records. */
  lemma RefreshRecord<S(!new), G(!new)>(C: Curve<S, G>, st: ClusterState<S>, key: string, random: seq<seq<S>>)
    requires Shape(st)
    ensures var (st', r) := Refresh(C, st, key, random);
            && (!r.Done? ==> st' == st)
            && (r.Done? ==>
                  && key in st.keys
                  && st'.keys == st.keys[key := st.keys[key].(epoch := st.keys[key].epoch + 1)])
            && (r == Failed(UnknownKey(key)) <==> OnlineCount(st.nodes) == st.n && key !in st.keys)
            && (r.Done? ==> r.value == (st'.keys[key].publicKey, st'.keys[key].epoch))
            && !r.Panicked?
  {
  }

  lemma DkgRecorded<S1(!new), G1(!new), S2(!new), G2(!new)>(
      C: CurvePair<S1, G1, S2, G2>, st: EngineState<S1, S2>, chain: Chain, key: string, ds: Deals<S1, S2>)
    requires |st.ecdsa.nodes| == st.ecdsa.n && |st.eddsa.nodes| == st.eddsa.n
    requires EngineDkg(C, st, chain, key, ds).1.Answer?
    ensures Recorded(EngineDkg(C, st, chain, key, ds).0, key, chain.Scheme(),
            KeyInfo(EngineDkg(C, st, chain, key, ds).1.value, 1))
  {
  }

  lemma RecordedMetadata<S1, S2>(st: EngineState<S1, S2>, key: string, scheme: Scheme, info: KeyInfo)
    requires Recorded(st, key, scheme, info)
    ensures EngineMetadata(st, key) ==
            Answer(Metadata(if scheme == Ecdsa then Evm else Solana, info.publicKey, info.epoch))
  {
  }

  lemma {:induction false} RunRecorded<S1(!new), G1(!new), S2(!new), G2(!new)>(
      C: CurvePair<S1, G1, S2, G2>, st: EngineState<S1, S2>, es: seq<EngineEvent<S1, S2>>,
      key: string, scheme: Scheme, info: KeyInfo)
    requires LawfulPair(C) && EngineGood(C, st) && EngineRunOk(C, st, es) && Recorded(st, key, scheme, info)
    ensures Recorded(EngineRun(C, st, es), key, scheme, info.(epoch := info.epoch + RotationCount(C, st, es, key)))
    decreases |es|
  {
    if es != [] {
      NextRecorded(C, st, es[0], key, scheme, info);
      EngineNextGood(C, st, es[0]);
      RunRecorded(C, EngineNext(C, st, es[0]), es[1..], key, scheme,
                  if Rotates(C, st, es[0], key) then info.(epoch := info.epoch + 1) else info);
    }
  }

  /** An answer is right for the responders there are; only a zero group secret on the strict curve crashes. */
  ghost predicate Serves<S(!new), G(!new)>(
      C: Curve<S, G>, st: ClusterState<S>, pk: Bytes, payload: Bytes, answer: EngineReply<Signature>)
  {
    var quorum := |Responders(st.nodes, st.timeoutMs)| >= st.t;
    && (!quorum ==> answer == Error(ProviderUnavailable))
    && (quorum && C.strict && pk == C.PublicKey(C.zero) ==> answer == Crash)
    && (quorum && !(C.strict && pk == C.PublicKey(C.zero)) ==>
          answer.Answer? && answer.value.publicKey == pk && C.Verify(pk, payload, answer.value.sig))
  }

  /** A signature is the group secret's, with this nonce. */
  ghost predicate SignedWith<S(!new), G(!new)>(
      C: Curve<S, G>, st: ClusterState<S>, key: string, payload: Bytes, nonce: S, answer: EngineReply<Signature>)
  {
    answer.Answer? ==>
      forall secret :: HasSecret(C, st, key, secret) ==> C.Sign(secret, nonce, payload) == Some(answer.value.sig)
  }

  /** Signing on one cluster, as the engine reports it. */
  lemma ClusterServes<S(!new), G(!new)>(C: Curve<S, G>, st: ClusterState<S>, key: string, payload: Bytes, nonce: S)
    requires Lawful(C) && Good(C, st) && key in st.keys && C.Elem(nonce)
    ensures var answer := WithKey(st, key, Sign(C, st, key, payload, nonce));
            && Serves(C, st, st.keys[key].publicKey, payload, answer)
            && SignedWith(C, st, key, payload, nonce, answer)
  {
    SignExact(C, st, key, payload, nonce);
  }

  /** What the engine answers for a recorded key. */
  ghost predicate Answers<S1(!new), G1(!new), S2(!new), G2(!new)>(
      C: CurvePair<S1, G1, S2, G2>, st: EngineState<S1, S2>, scheme: Scheme, pk: Bytes, chain: Chain, payload: Bytes,
      answer: EngineReply<Signature>)
  {
    if chain.Scheme() != scheme then answer == Error(Denied)
    else
      match scheme
      case Ecdsa => Serves(C.ecdsa, st.ecdsa, pk, payload, answer)
      case Eddsa => Serves(C.eddsa, st.eddsa, pk, payload, answer)
  }

  lemma EngineSignAnswers<S1(!new), G1(!new), S2(!new), G2(!new)>(
      C: CurvePair<S1, G1, S2, G2>, st: EngineState<S1, S2>, key: string, scheme: Scheme, info: KeyInfo,
      chain: Chain, payload: Bytes, nonce: Nonces<S1, S2>)
    requires LawfulPair(C) && EngineGood(C, st) && Recorded(st, key, scheme, info)
    requires C.ecdsa.Elem(nonce.ecdsa) && C.eddsa.Elem(nonce.eddsa)
    ensures Answers(C, st, scheme, info.publicKey, chain, payload, EngineSign(C, st, key, chain, payload, nonce))
  {
    match scheme
    case Ecdsa => ClusterServes(C.ecdsa, st.ecdsa, key, payload, nonce.ecdsa);
    case Eddsa => ClusterServes(C.eddsa, st.eddsa, key, payload, nonce.eddsa);
  }

  /**
   End to end for the engine: after a key generation that returned `pk`, and any
   later history, the metadata still shows `pk` with one epoch per successful
   rotation, a request on a chain of the other scheme is denied, and a request
   on a chain of the key's scheme is answered with a signature that verifies
   under `pk`, or reported unavailable when the quorum is missing.
   */
  lemma EngineLifecycle<S1(!new), G1(!new), S2(!new), G2(!new)>(
      C: CurvePair<S1, G1, S2, G2>, st0: EngineState<S1, S2>, chain: Chain, key: string, ds: Deals<S1, S2>,
      after: seq<EngineEvent<S1, S2>>, chain': Chain, payload: Bytes, nonce: Nonces<S1, S2>)
    requires LawfulPair(C) && EngineGood(C, st0) && EngineEventOk(C, st0, DkgEvent(chain, key, ds))
    requires EngineDkg(C, st0, chain, key, ds).1.Answer?
    requires EngineRunOk(C, EngineDkg(C, st0, chain, key, ds).0, after)
    requires C.ecdsa.Elem(nonce.ecdsa) && C.eddsa.Elem(nonce.eddsa)
    ensures var (st1, r) := EngineDkg(C, st0, chain, key, ds);
            ServedAfter(C, st1, after, key, chain.Scheme(), r.value, chain', payload, nonce)
  {
    DkgStarts(C, st0, chain, key, ds);
    RunServed(C, EngineDkg(C, st0, chain, key, ds).0, after, key, chain.Scheme(),
              EngineDkg(C, st0, chain, key, ds).1.value, chain', payload, nonce);
  }

  /** After a history the key is still described and served under `pk`, with one epoch per successful rotation. */
  ghost predicate ServedAfter<S1(!new), G1(!new), S2(!new), G2(!new)>(
      C: CurvePair<S1, G1, S2, G2>, st: EngineState<S1, S2>, after: seq<EngineEvent<S1, S2>>, key: string,
      scheme: Scheme, pk: Bytes, chain: Chain, payload: Bytes, nonce: Nonces<S1, S2>)
    requires EngineRunOk(C, st, after)
  {
    ServedAs(C, EngineRun(C, st, after), key, scheme, KeyInfo(pk, 1 + RotationCount(C, st, after, key)),
             chain, payload, nonce)
  }

  lemma DkgStarts<S1(!new), G1(!new), S2(!new), G2(!new)>(
      C: CurvePair<S1, G1, S2, G2>, st: EngineState<S1, S2>, chain: Chain, key: string, ds: Deals<S1, S2>)
    requires LawfulPair(C) && EngineGood(C, st) && EngineEventOk(C, st, DkgEvent(chain, key, ds))
    requires EngineDkg(C, st, chain, key, ds).1.Answer?
    ensures EngineGood(C, EngineDkg(C, st, chain, key, ds).0)
    ensures Recorded(EngineDkg(C, st, chain, key, ds).0, key, chain.Scheme(),
            KeyInfo(EngineDkg(C, st, chain, key, ds).1.value, 1))
  {
    DkgRecorded(C, st, chain, key, ds);
    DkgGood(C, st, chain, key, ds);
  }

  /** A key recorded at its first epoch is described and served with it after any history. */
  lemma RunServed<S1(!new), G1(!new), S2(!new), G2(!new)>(
      C: CurvePair<S1, G1, S2, G2>, st: EngineState<S1, S2>, after: seq<EngineEvent<S1, S2>>, key: string,
      scheme: Scheme, pk: Bytes,
      chain: Chain, payload: Bytes, nonce: Nonces<S1, S2>)
    requires LawfulPair(C) && EngineGood(C, st) && EngineRunOk(C, st, after)
             && Recorded(st, key, scheme, KeyInfo(pk, 1))
    requires C.ecdsa.Elem(nonce.ecdsa) && C.eddsa.Elem(nonce.eddsa)
    ensures ServedAfter(C, st, after, key, scheme, pk, chain, payload, nonce)
  {
    RunRecorded(C, st, after, key, scheme, KeyInfo(pk, 1));
    EngineRunGood(C, st, after);
    RecordServed(C, EngineRun(C, st, after), key, scheme, KeyInfo(pk, 1 + RotationCount(C, st, after, key)), chain,
      payload, nonce);
  }

  /** The engine's metadata is this record, and signing answers for its public key. */
  ghost predicate ServedAs<S1(!new), G1(!new), S2(!new), G2(!new)>(
      C: CurvePair<S1, G1, S2, G2>, st: EngineState<S1, S2>, key: string, scheme: Scheme, info: KeyInfo,
      chain: Chain, payload: Bytes, nonce: Nonces<S1, S2>)
  {
    && EngineMetadata(st, key) ==
       Answer(Metadata(if scheme == Ecdsa then Evm else Solana, info.publicKey, info.epoch))
    && Answers(C, st, scheme, info.publicKey, chain, payload, EngineSign(C, st, key, chain, payload, nonce))
  }

  /** A recorded key is described and served as recorded. */
  lemma RecordServed<S1(!new), G1(!new), S2(!new), G2(!new)>(
      C: CurvePair<S1, G1, S2, G2>, st: EngineState<S1, S2>, key: string, scheme: Scheme, info: KeyInfo,
      chain: Chain, payload: Bytes, nonce: Nonces<S1, S2>)
    requires LawfulPair(C) && EngineGood(C, st) && Recorded(st, key, scheme, info)
    requires C.ecdsa.Elem(nonce.ecdsa) && C.eddsa.Elem(nonce.eddsa)
    ensures ServedAs(C, st, key, scheme, info, chain, payload, nonce)
  {
    RecordedMetadata(st, key, scheme, info);
    EngineSignAnswers(C, st, key, scheme, info, chain, payload, nonce);
  }

  // ---------------------------------------------------------------- chain by chain

  /** What a generation did at the cluster in charge. */
  ghost predicate Generated<S(!new), G(!new)>(
      C: Curve<S, G>, st: ClusterState<S>, st': ClusterState<S>, key: string, ds: seq<Dealing<S>>,
      r: EngineReply<Bytes>)
    requires forall d :: 0 <= d < |ds| ==> |ds[d].random| + 1 == st.t
  {
    var refused := C.strict && SomeZeroSecret(C, ds);
    && (!AllOnline(st) ==> r == Error(ProviderUnavailable) && st' == st)
    && (AllOnline(st) ==> SharedBy(C, st', key, SumPoly(C, st.t, ds)) && OnlyKeyMoved(st, st', key))
    && (AllOnline(st) && refused ==> r == Error(Internal) && key !in st'.keys)
    && (AllOnline(st) && !refused ==>
          && r == Answer(C.PublicKey(SecretSum(C, ds)))
          && key in st'.keys && st'.keys[key] == KeyInfo(r.value, 1))
  }

  lemma ClusterGenerates<S(!new), G(!new)>(C: Curve<S, G>, st: ClusterState<S>, key: string, ds: seq<Dealing<S>>)
    requires Lawful(C) && Shape(st) && DealingsOk(C, st, ds) && key !in st.keys
    ensures Generated(C, st, Keygen(C, st, key, ds).0, key, ds, Lift(Keygen(C, st, key, ds).1))
  {
    KeygenExact(C, st, key, ds);
    OnlineAll(st.nodes);
    if AllOnline(st) { KeygenShared(C, st, key, ds); }
  }

  /**
   Which cluster generates a key, by the name of the chain: the ECDSA cluster for
   EVM and Bitcoin, the EdDSA cluster for Solana, Aptos and Sui. The other one is
   left alone and does not know the key.
   */
  lemma DkgOutcome<S1(!new), G1(!new), S2(!new), G2(!new)>(
      C: CurvePair<S1, G1, S2, G2>, st: EngineState<S1, S2>, chain: Chain, key: string, ds: Deals<S1, S2>)
    requires LawfulPair(C) && EngineGood(C, st) && EngineEventOk(C, st, DkgEvent(chain, key, ds))
    ensures var (st', r) := EngineDkg(C, st, chain, key, ds);
            && (chain in {Evm, Bitcoin} ==>
                  && Generated(C.ecdsa, st.ecdsa, st'.ecdsa, key, ds.ecdsa, r)
                  && st'.eddsa == st.eddsa && key !in st'.eddsa.keys)
            && (chain in {Solana, Aptos, Sui} ==>
                  && Generated(C.eddsa, st.eddsa, st'.eddsa, key, ds.eddsa, r)
                  && st'.ecdsa == st.ecdsa && key !in st'.ecdsa.keys)
            && (r.Answer? ==> (key in st'.ecdsa.keys <==> chain in {Evm, Bitcoin}))
            && (r.Answer? ==> (key in st'.eddsa.keys <==> chain in {Solana, Aptos, Sui}))
            && (!r.Answer? ==> st'.keys == st.keys)
  {
    assert Placed(st, key);
    if chain.Scheme() == Ecdsa {
      ClusterGenerates(C.ecdsa, st.ecdsa, key, ds.ecdsa);
    } else {
      ClusterGenerates(C.eddsa, st.eddsa, key, ds.eddsa);
    }
  }

  /**
   What signing answers for any key and chain: an unknown key is reported, a key
   is denied to exactly the chains of the other curve, and otherwise its cluster
   serves it, with the nonce drawn for that cluster.
   */
  lemma EngineSignExact<S1(!new), G1(!new), S2(!new), G2(!new)>(
      C: CurvePair<S1, G1, S2, G2>, st: EngineState<S1, S2>, key: string, chain: Chain, payload: Bytes,
      nonce: Nonces<S1, S2>)
    requires LawfulPair(C) && EngineGood(C, st) && C.ecdsa.Elem(nonce.ecdsa) && C.eddsa.Elem(nonce.eddsa)
    ensures var r := EngineSign(C, st, key, chain, payload, nonce);
            && (r == Error(KeyNotFound(key)) <==> key !in st.ecdsa.keys && key !in st.eddsa.keys)
            && (r == Error(Denied) <==>
                || (key in st.ecdsa.keys && chain in {Solana, Aptos, Sui})
                || (key in st.eddsa.keys && chain in {Evm, Bitcoin}))
            && (key in st.ecdsa.keys && chain in {Evm, Bitcoin} ==>
                  && Serves(C.ecdsa, st.ecdsa, st.ecdsa.keys[key].publicKey, payload, r)
                  && SignedWith(C.ecdsa, st.ecdsa, key, payload, nonce.ecdsa, r))
            && (key in st.eddsa.keys && chain in {Solana, Aptos, Sui} ==>
                  && Serves(C.eddsa, st.eddsa, st.eddsa.keys[key].publicKey, payload, r)
                  && SignedWith(C.eddsa, st.eddsa, key, payload, nonce.eddsa, r))
  {
    assert Placed(st, key);
    if key in st.ecdsa.keys {
      ClusterServes(C.ecdsa, st.ecdsa, key, payload, nonce.ecdsa);
    } else if key in st.eddsa.keys {
      ClusterServes(C.eddsa, st.eddsa, key, payload, nonce.eddsa);
    }
  }

  /** Metadata is the owning cluster's record, and an unknown key is reported. */
  lemma MetadataExact<S1, S2>(st: EngineState<S1, S2>, key: string)
    requires Placed(st, key)
    ensures var r := EngineMetadata(st, key);
            && (key !in st.ecdsa.keys && key !in st.eddsa.keys <==> r == Error(KeyNotFound(key)))
            && (key in st.ecdsa.keys ==>
                  r == Answer(Metadata(Evm, st.ecdsa.keys[key].publicKey, st.ecdsa.keys[key].epoch)))
            && (key in st.eddsa.keys ==>
                  r == Answer(Metadata(Solana, st.eddsa.keys[key].publicKey, st.eddsa.keys[key].epoch)))
  {
  }

  /** Metadata does not keep the chain a key was generated for: it is right for two of the five. */
  lemma MetadataChain<S1(!new), G1(!new), S2(!new), G2(!new)>(
      C: CurvePair<S1, G1, S2, G2>, st: EngineState<S1, S2>, chain: Chain, key: string, ds: Deals<S1, S2>)
    requires |st.ecdsa.nodes| == st.ecdsa.n && |st.eddsa.nodes| == st.eddsa.n
    requires EngineDkg(C, st, chain, key, ds).1.Answer?
    ensures var st' := EngineDkg(C, st, chain, key, ds).0;
            EngineMetadata(st', key).Answer?
              && (EngineMetadata(st', key).value.chain == chain <==> chain == Evm || chain == Solana)
  {
  }
}

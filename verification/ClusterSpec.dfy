/** The t-of-n cluster as a state and the transition each of its operations makes. */
module ClusterSpec {
  import opened Wrappers
  import opened Curves
  import opened Polynomials
  import opened Shamir

  datatype ThresholdError =
    | QuorumNotMet(needed: nat, got: nat)
    | UnknownKey(key: string)
    | ReconstructFailed
    | InvalidParams

  /** The outcome of an operation; `Panicked` is a failed `expect`. */
  datatype Reply<+T> = Done(value: T) | Failed(error: ThresholdError) | Panicked

  datatype NodeState<S> = NodeState(index: nat, online: bool, delayMs: nat, shares: map<string, S>)
  {
    /** The node answers a round: it is online and its delay fits the round timeout. */
    predicate Responds(timeoutMs: nat) { online && delayMs <= timeoutMs }

    function Put(key: string, share: S): NodeState<S> { this.(shares := shares[key := share]) }
  }

  datatype KeyInfo = KeyInfo(publicKey: Bytes, epoch: nat)

  datatype ClusterState<S> = ClusterState(
    t: nat, n: nat, timeoutMs: nat, nodes: seq<NodeState<S>>, keys: map<string, KeyInfo>)

  /** One dealer's random choices: its secret and the t - 1 higher coefficients. */
  datatype Dealing<S> = Dealing(secret: S, random: seq<S>)
  {
    function Coeffs(): seq<S> { [secret] + random }
  }

  // ---------------------------------------------------------------- what the loops compute

  /** The sum of the dealers' shares for node i. */
  function ShareSum<S(!new), G(!new)>(C: Curve<S, G>, ds: seq<Dealing<S>>, i: nat): S {
    if ds == [] then C.zero
    else C.Add(ShareSum(C, ds[..|ds| - 1], i), Eval(C, ds[|ds| - 1].Coeffs(), C.From(i)))
  }

  function Commitments<S(!new), G(!new)>(C: Curve<S, G>, ds: seq<Dealing<S>>): (r: seq<Bytes>)
    ensures |r| == |ds|
  {
    seq(|ds|, d requires 0 <= d < |ds| => C.PublicKey(ds[d].secret))
  }

  /** The sum of the encoded points, if they all parse. */
  function PointSum<S(!new), G(!new)>(C: Curve<S, G>, points: seq<Bytes>): Option<G> {
    if points == [] then Some(C.identity)
    else
      match (PointSum(C, points[..|points| - 1]), C.Decode(points[|points| - 1]))
      case (Some(acc), Some(p)) => Some(C.PointAdd(acc, p))
      case _ => None
  }

  function Aggregate<S(!new), G(!new)>(C: Curve<S, G>, points: seq<Bytes>): Option<Bytes> {
    match PointSum(C, points)
    case Some(acc) => Some(C.Encode(acc))
    case None => None
  }

  function OnlineCount<S>(nodes: seq<NodeState<S>>): (c: nat)
    ensures c <= |nodes|
  {
    if nodes == [] then 0
    else OnlineCount(nodes[..|nodes| - 1]) + if nodes[|nodes| - 1].online then 1 else 0
  }

  function ResponderCount<S>(nodes: seq<NodeState<S>>, timeoutMs: nat): (c: nat)
    ensures c <= |nodes|
  {
    if nodes == [] then 0
    else ResponderCount(nodes[..|nodes| - 1], timeoutMs) + if nodes[|nodes| - 1].Responds(timeoutMs) then 1 else 0
  }

  /** The shares of `key` that answer a round, in node order. */
  function Collect<S>(nodes: seq<NodeState<S>>, timeoutMs: nat, key: string): seq<Share<S>> {
    if nodes == [] then []
    else
      var rest, last := Collect(nodes[..|nodes| - 1], timeoutMs, key), nodes[|nodes| - 1];
      if last.Responds(timeoutMs) && key in last.shares then rest + [Share(last.index, last.shares[key])] else rest
  }

  // ---------------------------------------------------------------- operations

  /** The dealers' summed shares for nodes 1, .., n. */
  function Sums<S(!new), G(!new)>(C: Curve<S, G>, ds: seq<Dealing<S>>, n: nat): (r: seq<S>)
    ensures |r| == n && forall i :: 0 <= i < n ==> r[i] == ShareSum(C, ds, i + 1)
  {
    seq(n, i requires 0 <= i < n => ShareSum(C, ds, i + 1))
  }

  function PutShares<S>(nodes: seq<NodeState<S>>, key: string, shares: seq<S>): (r: seq<NodeState<S>>)
    requires |shares| == |nodes|
    ensures |r| == |nodes| && forall i :: 0 <= i < |nodes| ==> r[i] == nodes[i].Put(key, shares[i])
  {
    seq(|nodes|, i requires 0 <= i < |nodes| => nodes[i].Put(key, shares[i]))
  }

  function Keygen<S(!new), G(!new)>(C: Curve<S, G>, st: ClusterState<S>, key: string, ds: seq<Dealing<S>>)
    : (ClusterState<S>, Reply<Bytes>)
    requires |st.nodes| == st.n
  {
    var online := OnlineCount(st.nodes);
    if online != st.n then (st, Failed(QuorumNotMet(st.n, online)))
    else
      var stored := st.(nodes := PutShares(st.nodes, key, Sums(C, ds, st.n)));
      match Aggregate(C, Commitments(C, ds))
      case None => (stored, Failed(ReconstructFailed))
      case Some(pk) => (stored.(keys := stored.keys[key := KeyInfo(pk, 1)]), Done(pk))
  }

  ghost function Sign<S(!new), G(!new)>(
      C: Curve<S, G>, st: ClusterState<S>, key: string, msg: Bytes, nonce: S): Reply<Bytes>
  {
    if key !in st.keys then Failed(UnknownKey(key))
    else
      var collected := Collect(st.nodes, st.timeoutMs, key);
      if |collected| < st.t then Failed(QuorumNotMet(st.t, |collected|))
      else
        match Recovered(C, collected[..st.t])
        case None => Failed(ReconstructFailed)
        case Some(secret) =>
          match C.Sign(secret, nonce, msg)
          case None => Panicked
          case Some(sig) => Done(sig)
  }

  predicate AllHold<S>(nodes: seq<NodeState<S>>, key: string) {
    forall i :: 0 <= i < |nodes| ==> key in nodes[i].shares
  }

  /** Every node's share of `key` plus its delta. */
  function Shifted<S(!new), G(!new)>(C: Curve<S, G>, nodes: seq<NodeState<S>>, key: string, delta: seq<S>): (r: seq<S>)
    requires |delta| == |nodes| && AllHold(nodes, key)
    ensures |r| == |nodes| && forall i :: 0 <= i < |nodes| ==> r[i] == C.Add(nodes[i].shares[key], delta[i])
  {
    seq(|nodes|, i requires 0 <= i < |nodes| => C.Add(nodes[i].shares[key], delta[i]))
  }

  /** Every node holds a share of every known key, so the refresh never unwraps a missing one. */
  ghost predicate SharesPresent<S>(st: ClusterState<S>) {
    forall key :: key in st.keys ==> AllHold(st.nodes, key)
  }

  /** Sharings of zero with the given higher coefficients. */
  function ZeroDeals<S(!new), G(!new)>(C: Curve<S, G>, random: seq<seq<S>>): (ds: seq<Dealing<S>>)
    ensures |ds| == |random|
    ensures forall d :: 0 <= d < |ds| ==> ds[d] == Dealing(C.zero, random[d])
  {
    seq(|random|, d requires 0 <= d < |random| => Dealing(C.zero, random[d]))
  }

  /** The ceremony itself: move every share of a known key and count the epoch. */
  function RefreshKnown<S(!new), G(!new)>(
      C: Curve<S, G>, st: ClusterState<S>, key: string, random: seq<seq<S>>): ClusterState<S>
    requires |st.nodes| == st.n && key in st.keys && AllHold(st.nodes, key)
  {
    var shares := Shifted(C, st.nodes, key, Sums(C, ZeroDeals(C, random), st.n));
    var info := st.keys[key];
    st.(nodes := PutShares(st.nodes, key, shares), keys := st.keys[key := info.(epoch := info.epoch + 1)])
  }

  function Refresh<S(!new), G(!new)>(C: Curve<S, G>, st: ClusterState<S>, key: string, random: seq<seq<S>>)
    : (ClusterState<S>, Reply<(Bytes, nat)>)
    requires |st.nodes| == st.n && SharesPresent(st)
  {
    var online := OnlineCount(st.nodes);
    if online != st.n then (st, Failed(QuorumNotMet(st.n, online)))
    else if key !in st.keys then (st, Failed(UnknownKey(key)))
    else
      var st' := RefreshKnown(C, st, key, random);
      (st', Done((st'.keys[key].publicKey, st'.keys[key].epoch)))
  }

  function SetOnline<S>(st: ClusterState<S>, index: nat, online: bool): ClusterState<S> {
    if 1 <= index <= |st.nodes| then st.(nodes := st.nodes[index - 1 := st.nodes[index - 1].(online := online)]) else st
  }

  /** The delay is stored in 64 bits. */
  function SetDelay<S>(st: ClusterState<S>, index: nat, delayMs: nat): ClusterState<S> {
    if 1 <= index <= |st.nodes|
    then st.(nodes := st.nodes[index - 1 := st.nodes[index - 1].(delayMs := delayMs % 0x1_0000_0000_0000_0000)])
    else st
  }

  function Initial<S>(t: nat, n: nat, timeoutMs: nat): ClusterState<S> {
    ClusterState(t, n, timeoutMs, seq(n, i requires 0 <= i < n => NodeState(i + 1, true, 0, map[])), map[])
  }

  // ---------------------------------------------------------------- well-formedness

  /** A full set of dealings: one per node, t coefficients each, canonical scalars. */
  ghost predicate DealingsOk<S(!new), G(!new)>(C: Curve<S, G>, st: ClusterState<S>, ds: seq<Dealing<S>>) {
    && |ds| == st.n
    && forall d :: 0 <= d < |ds| ==> |ds[d].random| == st.t - 1 && C.Elem(ds[d].secret) && C.AllElem(ds[d].random)
  }

  /** The shape every operation keeps, whatever its inputs. */
  ghost predicate Shape<S>(st: ClusterState<S>) {
    && 1 <= st.t <= st.n == |st.nodes|
    && (forall i :: 0 <= i < st.n ==> st.nodes[i].index == i + 1)
    && SharesPresent(st)
  }
}

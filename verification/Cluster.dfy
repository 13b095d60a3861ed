/** The in-process cluster: nodes holding shares, and the coordinator that runs the ceremonies over them. */
module Clusters {
  import opened Wrappers
  import opened Curves
  import opened Polynomials
  import opened Shamir
  import opened ClusterSpec
  import opened ClusterRuns

  class Node<S(!new)> {
    const index: nat
    var online: bool
    var delayMs: nat
    var shares: map<string, S>

    constructor (index: nat)
      ensures View() == NodeState(index, true, 0, map[]) && this.index == index
    {
      this.index := index;
      online, delayMs, shares := true, 0, map[];
    }

    ghost function View(): NodeState<S>
      reads this
    {
      NodeState(index, online, delayMs, shares)
    }

    method PutShare(key: string, share: S)
      modifies this`shares
      ensures View() == old(View()).Put(key, share)
    {
      shares := shares[key := share];
    }

    method GetShare(key: string) returns (r: Option<S>)
      ensures r == if key in shares then Some(shares[key]) else None
    {
      r := if key in shares then Some(shares[key]) else None;
    }
  }

  ghost function Views<S(!new)>(nodes: seq<Node<S>>): (r: seq<NodeState<S>>)
    reads nodes
    ensures |r| == |nodes|
    ensures forall i :: 0 <= i < |nodes| ==> r[i] == nodes[i].View()
  {
    seq(|nodes|, i requires 0 <= i < |nodes| reads nodes => nodes[i].View())
  }

  class Cluster<S(!new), G(!new)> {
    const curve: Curve<S, G>
    const t: nat
    const n: nat
    const timeoutMs: nat
    const nodes: seq<Node<S>>
    var keys: map<string, KeyInfo>

    ghost function State(): ClusterState<S>
      reads this, nodes
    {
      ClusterState(t, n, timeoutMs, Views(nodes), keys)
    }

    ghost predicate Valid()
      reads this, nodes
    {
      Shape(State()) && Distinct(nodes)
    }

    constructor (curve: Curve<S, G>, t: nat, n: nat, timeoutMs: nat)
      requires 1 <= t <= n
      ensures Valid() && State() == Initial(t, n, timeoutMs) && this.curve == curve
      ensures forall i :: 0 <= i < |nodes| ==> fresh(nodes[i])
    {
      this.curve, this.t, this.n, this.timeoutMs := curve, t, n, timeoutMs;
      var ns: seq<Node<S>> := [];
      for i := 0 to n
        invariant |ns| == i && Distinct(ns)
        invariant forall k :: 0 <= k < i ==> fresh(ns[k]) && ns[k].View() == NodeState(k + 1, true, 0, map[])
      {
        var node := new Node<S>(i + 1);
        ns := ns + [node];
      }
      nodes := ns;
      keys := map[];
      new;
      assert Views(nodes) == Initial<S>(t, n, timeoutMs).nodes;
    }

    /** A cluster for valid parameters, an error otherwise. */
    static method Create(
        curve: Curve<S, G>, t: nat, n: nat, timeoutMs: nat) returns (r: Result<Cluster<S, G>, ThresholdError>)
      ensures r.Err? <==> t == 0 || t > n
      ensures r.Err? ==> r.error == InvalidParams
      ensures r.Ok? ==> r.value.Valid() && r.value.State() == Initial(t, n, timeoutMs) && r.value.curve == curve
      ensures r.Ok? ==> fresh(r.value)
    {
      if t == 0 || t > n {
        return Err(InvalidParams);
      }
      var c := new Cluster(curve, t, n, timeoutMs);
      return Ok(c);
    }

    method SetOnline(index: nat, online: bool)
      requires Valid()
      modifies nodes
      ensures Valid() && State() == ClusterSpec.SetOnline(old(State()), index, online)
    {
      ghost var before := Views(nodes);
      for i := 0 to |nodes|
        invariant Views(nodes) == before && !(1 <= index <= i)
      {
        assert before[i] == nodes[i].View();
        if nodes[i].index == index {
          nodes[i].online := online;
          assert Views(nodes) == before[i := before[i].(online := online)];
          return;
        }
      }
    }

    method SetDelay(index: nat, delayMs: nat)
      requires Valid()
      modifies nodes
      ensures Valid() && State() == ClusterSpec.SetDelay(old(State()), index, delayMs)
    {
      ghost var before := Views(nodes);
      for i := 0 to |nodes|
        invariant Views(nodes) == before && !(1 <= index <= i)
      {
        assert before[i] == nodes[i].View();
        if nodes[i].index == index {
          nodes[i].delayMs := delayMs % 0x1_0000_0000_0000_0000;
          assert Views(nodes) == before[i := before[i].(delayMs := delayMs % 0x1_0000_0000_0000_0000)];
          return;
        }
      }
    }

    method CountOnline() returns (count: nat)
      ensures count == OnlineCount(Views(nodes))
    {
      ghost var views := Views(nodes);
      count := 0;
      for i := 0 to |nodes|
        invariant count == OnlineCount(views[..i])
      {
        assert views[..i + 1][..i] == views[..i];
        assert views[i] == nodes[i].View();
        if nodes[i].online { count := count + 1; }
      }
      assert views[..|nodes|] == views;
    }

    /** One transport round asking every responding node for its share of `key`. */
    method Round(key: string) returns (out: seq<Share<S>>)
      ensures out == Collect(Views(nodes), timeoutMs, key)
    {
      ghost var views := Views(nodes);
      out := [];
      for i := 0 to |nodes|
        invariant out == Collect(views[..i], timeoutMs, key)
      {
        var node := nodes[i];
        assert views[..i + 1][..i] == views[..i];
        assert views[i] == node.View();
        if !node.online { continue; }
        if node.delayMs <= timeoutMs {
          var share := node.GetShare(key);
          if share.Some? { out := out + [Share(node.index, share.value)]; }
        }
      }
      assert views[..|nodes|] == views;
    }

    /** One transport round in which every responding node acknowledges a ceremony. */
    method Acknowledge() returns (acks: seq<bool>)
      ensures |acks| == ResponderCount(Views(nodes), timeoutMs)
      ensures forall i :: 0 <= i < |acks| ==> acks[i]
    {
      ghost var views := Views(nodes);
      acks := [];
      for i := 0 to |nodes|
        invariant |acks| == ResponderCount(views[..i], timeoutMs)
        invariant forall k :: 0 <= k < |acks| ==> acks[k]
      {
        var node := nodes[i];
        assert views[..i + 1][..i] == views[..i];
        assert views[i] == node.View();
        if !node.online { continue; }
        if node.delayMs <= timeoutMs { acks := acks + [true]; }
      }
      assert views[..|nodes|] == views;
    }

    /** Add one dealer's shares to the running sums. */
    method AddSharing(sums: array<S>, shares: seq<Share<S>>)
      requires sums.Length == |shares|
      modifies sums
      ensures forall i :: 0 <= i < |shares| ==> sums[i] == curve.Add(old(sums[i]), shares[i].value)
    {
      for i := 0 to |shares|
        invariant forall k :: 0 <= k < i ==> sums[k] == curve.Add(old(sums[k]), shares[k].value)
        invariant forall k :: i <= k < |shares| ==> sums[k] == old(sums[k])
      {
        sums[i] := curve.Add(sums[i], shares[i].value);
      }
    }

    /** Every dealer commits to its secret and deals it; the shares are summed node by node. */
    method SumDealings(ds: seq<Dealing<S>>) returns (sums: array<S>, commitments: seq<Bytes>)
      requires 1 <= t <= n && forall d :: 0 <= d < |ds| ==> |ds[d].random| == t - 1
      ensures fresh(sums) && sums[..] == Sums(curve, ds, n)
      ensures commitments == Commitments(curve, ds)
    {
      sums := new S[n](_ => curve.zero);
      commitments := [];
      for d := 0 to |ds|
        invariant forall i :: 0 <= i < n ==> sums[i] == ShareSum(curve, ds[..d], i + 1)
        invariant commitments == Commitments(curve, ds)[..d]
      {
        commitments := commitments + [curve.PublicKey(ds[d].secret)];
        var shares := Split(curve, ds[d].secret, t, n, ds[d].random);
        AddSharing(sums, shares);
        assert ds[..d + 1][..d] == ds[..d] && ds[..d + 1][d] == ds[d];
      }
      assert ds[..|ds|] == ds;
    }

    /** Every dealer deals zero; the shares are summed node by node. */
    method SumZeroSharings(random: seq<seq<S>>) returns (delta: array<S>)
      requires 1 <= t <= n && forall d :: 0 <= d < |random| ==> |random[d]| == t - 1
      ensures fresh(delta) && delta[..] == Sums(curve, ZeroDeals(curve, random), n)
    {
      ghost var ds := ZeroDeals(curve, random);
      delta := new S[n](_ => curve.zero);
      for d := 0 to |random|
        invariant forall i :: 0 <= i < n ==> delta[i] == ShareSum(curve, ds[..d], i + 1)
      {
        var z := SplitZero(curve, t, n, random[d]);
        AddSharing(delta, z);
        assert ds[d].Coeffs() == [curve.zero] + random[d];
        assert ds[..d + 1][..d] == ds[..d] && ds[..d + 1][d] == ds[d];
      }
      assert ds[..|ds|] == ds;
    }

    /** Give every node its share. */
    method PutAll(key: string, shares: seq<S>)
      requires |shares| == |nodes| && Distinct(nodes)
      modifies nodes
      ensures Views(nodes) == PutShares(old(Views(nodes)), key, shares)
    {
      ghost var before := Views(nodes);
      for i := 0 to |nodes|
        invariant forall k :: 0 <= k < i ==> nodes[k].View() == before[k].Put(key, shares[k])
        invariant forall k :: i <= k < |nodes| ==> nodes[k].View() == before[k]
      {
        nodes[i].PutShare(key, shares[i]);
      }
    }

    /** Give every node its share of the summed dealings. */
    method DealShares(key: string, ds: seq<Dealing<S>>) returns (commitments: seq<Bytes>)
      requires 1 <= t <= n == |nodes| && Distinct(nodes)
      requires forall d :: 0 <= d < |ds| ==> |ds[d].random| == t - 1
      modifies nodes
      ensures Views(nodes) == PutShares(old(Views(nodes)), key, Sums(curve, ds, n))
      ensures commitments == Commitments(curve, ds)
    {
      var sums;
      sums, commitments := SumDealings(ds);
      PutAll(key, sums[..]);
    }

    /** Add to every node's share of `key`, reading and then writing node by node. */
    method AddAll(key: string, delta: seq<S>)
      requires |delta| == |nodes| && Distinct(nodes) && AllHold(Views(nodes), key)
      modifies nodes
      ensures Views(nodes) == PutShares(old(Views(nodes)), key, Shifted(curve, old(Views(nodes)), key, delta))
    {
      ghost var before := Views(nodes);
      ghost var shifted := Shifted(curve, before, key, delta);
      for i := 0 to |nodes|
        invariant forall k :: 0 <= k < i ==> nodes[k].View() == before[k].Put(key, shifted[k])
        invariant forall k :: i <= k < |nodes| ==> nodes[k].View() == before[k]
      {
        assert nodes[i].View() == before[i] && key in before[i].shares;
        var share := nodes[i].GetShare(key);
        nodes[i].PutShare(key, curve.Add(share.value, delta[i]));
      }
    }

    /** Add the summed zero-sharings to every node's share of `key`. */
    method AddShares(key: string, random: seq<seq<S>>)
      requires 1 <= t <= n == |nodes| && Distinct(nodes)
      requires forall d :: 0 <= d < |random| ==> |random[d]| == t - 1
      requires AllHold(Views(nodes), key)
      modifies nodes
      ensures var ds := ZeroDeals(curve, random);
              Views(nodes) == PutShares(old(Views(nodes)), key,
                Shifted(curve, old(Views(nodes)), key, Sums(curve, ds, n)))
    {
      ghost var before := Views(nodes);
      var delta := SumZeroSharings(random);
      assert Views(nodes) == before;
      AddAll(key, delta[..]);
    }

    /** Decode and add the points; any that does not parse makes the sum fail. */
    method AggregatePublic(points: seq<Bytes>) returns (r: Option<Bytes>)
      ensures r == Aggregate(curve, points)
    {
      var acc := curve.identity;
      for i := 0 to |points|
        invariant PointSum(curve, points[..i]) == Some(acc)
      {
        assert points[..i + 1][..i] == points[..i];
        var p := curve.Decode(points[i]);
        if p.None? {
          PointSumPrefix(curve, points, i + 1);
          return None;
        }
        acc := curve.PointAdd(acc, p.value);
      }
      assert points[..|points|] == points;
      return Some(curve.Encode(acc));
    }

    method Keygen(key: string, ds: seq<Dealing<S>>) returns (r: Reply<Bytes>)
      requires Valid() && |ds| == n && forall d :: 0 <= d < |ds| ==> |ds[d].random| == t - 1
      modifies this, nodes
      ensures Valid()
      ensures State() == ClusterSpec.Keygen(curve, old(State()), key, ds).0
      ensures r == ClusterSpec.Keygen(curve, old(State()), key, ds).1
    {
      var online := CountOnline();
      if online != n {
        return Failed(QuorumNotMet(n, online));
      }
      ghost var before := State();
      var acks := Acknowledge();
      var commitments := DealShares(key, ds);
      ghost var stored := PutShares(before.nodes, key, Sums(curve, ds, n));
      assert Views(nodes) == stored;
      var pk := AggregatePublic(commitments);
      KeygenShape(curve, before, key, ds);
      if pk.None? {
        assert State() == before.(nodes := stored);
        return Failed(ReconstructFailed);
      }
      PutKey(key, KeyInfo(pk.value, 1));
      assert State() == before.(nodes := stored, keys := keys);
      return Done(pk.value);
    }

    method Sign(key: string, msg: Bytes, nonce: S) returns (r: Reply<Bytes>)
      ensures r == ClusterSpec.Sign(curve, State(), key, msg, nonce)
    {
      if key !in keys {
        return Failed(UnknownKey(key));
      }
      var collected := Round(key);
      if |collected| < t {
        return Failed(QuorumNotMet(t, |collected|));
      }
      collected := collected[..t];
      var secret := Reconstruct(curve, collected);
      if secret.None? {
        return Failed(ReconstructFailed);
      }
      var sig := curve.Sign(secret.value, nonce, msg);
      return if sig.Some? then Done(sig.value) else Panicked;
    }

    /** Add a zero-sharing per dealer, with the given random coefficients, to every share of `key`. */
    method Refresh(key: string, random: seq<seq<S>>) returns (r: Reply<(Bytes, nat)>)
      requires Valid() && |random| == n && forall d :: 0 <= d < |random| ==> |random[d]| == t - 1
      modifies this, nodes
      ensures Valid()
      ensures State() == ClusterSpec.Refresh(curve, old(State()), key, random).0
      ensures r == ClusterSpec.Refresh(curve, old(State()), key, random).1
    {
      var online := CountOnline();
      if online != n {
        return Failed(QuorumNotMet(n, online));
      }
      if key !in keys {
        return Failed(UnknownKey(key));
      }
      var acks := Acknowledge();
      RefreshShape(curve, State(), key, random);
      r := RefreshKnown(key, random);
    }

    /** The ceremony itself, once every node is online and the key is known. */
    method RefreshKnown(key: string, random: seq<seq<S>>) returns (r: Reply<(Bytes, nat)>)
      requires 1 <= t <= n == |nodes| && Distinct(nodes) && key in keys && AllHold(Views(nodes), key)
      requires forall d :: 0 <= d < |random| ==> |random[d]| == t - 1
      modifies this, nodes
      ensures State() == ClusterSpec.RefreshKnown(curve, old(State()), key, random)
      ensures key in keys && r == Done((keys[key].publicKey, keys[key].epoch))
    {
      ghost var before := State();
      AddShares(key, random);
      var info := keys[key].(epoch := keys[key].epoch + 1);
      PutKey(key, info);
      assert State() == before.(nodes := Views(nodes), keys := before.keys[key := info]);
      return Done((info.publicKey, info.epoch));
    }

    /** Record a key's public key and epoch. */
    method PutKey(key: string, info: KeyInfo)
      modifies this`keys
      ensures keys == old(keys)[key := info] && Views(nodes) == old(Views(nodes))
    {
      ghost var before := Views(nodes);
      keys := keys[key := info];
      assert Views(nodes) == before;
    }
  }

  lemma PointSumPrefix<S(!new), G(!new)>(C: Curve<S, G>, points: seq<Bytes>, k: nat)
    requires k <= |points| && PointSum(C, points[..k]).None?
    ensures PointSum(C, points).None?
    decreases |points|
  {
    if k < |points| {
      assert points[..|points| - 1][..k] == points[..k];
      PointSumPrefix(C, points[..|points| - 1], k);
    } else {
      assert points[..k] == points;
    }
  }
}

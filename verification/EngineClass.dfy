/** The engine object: two clusters and the map that says which one owns a key. */
module Engines {
  import opened Wrappers
  import opened Domain
  import opened Curves
  import opened ClusterSpec
  import opened Clusters
  import opened EngineSpec

  class ThresholdEngine<S1(!new), G1(!new), S2(!new), G2(!new)> {
    const ecdsa: Cluster<S1, G1>
    const eddsa: Cluster<S2, G2>
    var keys: map<string, Scheme>

    /** The clusters share no object. */
    ghost predicate Separate() {
      && (ecdsa as object) != eddsa
      && forall i, j ::
           0 <= i < |ecdsa.nodes| && 0 <= j < |eddsa.nodes| ==> (ecdsa.nodes[i] as object) != eddsa.nodes[j]
    }

    ghost predicate Valid()
      reads this, ecdsa, ecdsa.nodes, eddsa, eddsa.nodes
    {
      ecdsa.Valid() && eddsa.Valid() && Separate()
    }

    ghost function State(): EngineState<S1, S2>
      reads this, ecdsa, ecdsa.nodes, eddsa, eddsa.nodes
    {
      EngineState(ecdsa.State(), eddsa.State(), keys)
    }

    ghost function Curves(): CurvePair<S1, G1, S2, G2> {
      CurvePair(ecdsa.curve, eddsa.curve)
    }

    constructor (c1: Curve<S1, G1>, c2: Curve<S2, G2>, t: nat, n: nat, timeoutMs: nat)
      requires 1 <= t <= n
      ensures Valid() && Curves() == CurvePair(c1, c2)
      ensures State() == EngineState(Initial(t, n, timeoutMs), Initial(t, n, timeoutMs), map[])
    {
      var a := new Cluster(c1, t, n, timeoutMs);
      var b := new Cluster(c2, t, n, timeoutMs);
      ecdsa, eddsa, keys := a, b, map[];
    }

    method Dkg(chain: Chain, key: string, ds: Deals<S1, S2>) returns (r: EngineReply<Bytes>)
      requires Valid()
      requires |ds.ecdsa| == ecdsa.n && forall d :: 0 <= d < |ds.ecdsa| ==> |ds.ecdsa[d].random| == ecdsa.t - 1
      requires |ds.eddsa| == eddsa.n && forall d :: 0 <= d < |ds.eddsa| ==> |ds.eddsa[d].random| == eddsa.t - 1
      modifies this, ecdsa, ecdsa.nodes, eddsa, eddsa.nodes
      ensures Valid()
      ensures State() == EngineDkg(Curves(), old(State()), chain, key, ds).0
      ensures r == EngineDkg(Curves(), old(State()), chain, key, ds).1
    {
      var pk;
      match chain.Scheme() {
        case Ecdsa => pk := KeygenEcdsa(key, ds.ecdsa);
        case Eddsa => pk := KeygenEddsa(key, ds.eddsa);
      }
      if pk.Done? {
        Claim(key, chain.Scheme());
      }
      r := Lift(pk);
    }

    /** Record which cluster owns `key`. */
    method Claim(key: string, scheme: Scheme)
      requires Valid()
      modifies this
      ensures Valid() && State() == old(State()).(keys := old(keys)[key := scheme])
    {
      ghost var before := State();
      keys := keys[key := scheme];
      assert ecdsa.State() == before.ecdsa && eddsa.State() == before.eddsa;
    }

    method KeygenEcdsa(key: string, ds: seq<Dealing<S1>>) returns (r: Reply<Bytes>)
      requires Valid()
      requires |ds| == ecdsa.n && forall d :: 0 <= d < |ds| ==> |ds[d].random| == ecdsa.t - 1
      modifies ecdsa, ecdsa.nodes
      ensures Valid()
      ensures State() == old(State()).(ecdsa := Keygen(ecdsa.curve, old(State()).ecdsa, key, ds).0)
      ensures r == Keygen(ecdsa.curve, old(State()).ecdsa, key, ds).1
    {
      ghost var other := eddsa.State();
      r := ecdsa.Keygen(key, ds);
      assert eddsa.State() == other;
    }

    method KeygenEddsa(key: string, ds: seq<Dealing<S2>>) returns (r: Reply<Bytes>)
      requires Valid()
      requires |ds| == eddsa.n && forall d :: 0 <= d < |ds| ==> |ds[d].random| == eddsa.t - 1
      modifies eddsa, eddsa.nodes
      ensures Valid()
      ensures State() == old(State()).(eddsa := Keygen(eddsa.curve, old(State()).eddsa, key, ds).0)
      ensures r == Keygen(eddsa.curve, old(State()).eddsa, key, ds).1
    {
      ghost var other := ecdsa.State();
      r := eddsa.Keygen(key, ds);
      assert ecdsa.State() == other;
    }

    method RotateKey(key: string, z: Zeros<S1, S2>) returns (r: EngineReply<(Bytes, nat)>)
      requires Valid()
      requires |z.ecdsa| == ecdsa.n && forall d :: 0 <= d < |z.ecdsa| ==> |z.ecdsa[d]| == ecdsa.t - 1
      requires |z.eddsa| == eddsa.n && forall d :: 0 <= d < |z.eddsa| ==> |z.eddsa[d]| == eddsa.t - 1
      modifies ecdsa, ecdsa.nodes, eddsa, eddsa.nodes
      ensures Valid()
      ensures State() == EngineRotate(Curves(), old(State()), key, z).0
      ensures r == EngineRotate(Curves(), old(State()), key, z).1
    {
      if key !in keys {
        return Error(KeyNotFound(key));
      }
      var out;
      match keys[key] {
        case Ecdsa => out := RefreshEcdsa(key, z.ecdsa);
        case Eddsa => out := RefreshEddsa(key, z.eddsa);
      }
      r := Lift(out);
    }

    method RefreshEcdsa(key: string, random: seq<seq<S1>>) returns (r: Reply<(Bytes, nat)>)
      requires Valid() && |random| == ecdsa.n && forall d :: 0 <= d < |random| ==> |random[d]| == ecdsa.t - 1
      modifies ecdsa, ecdsa.nodes
      ensures Valid()
      ensures State() == old(State()).(ecdsa := Refresh(ecdsa.curve, old(State()).ecdsa, key, random).0)
      ensures r == Refresh(ecdsa.curve, old(State()).ecdsa, key, random).1
    {
      ghost var other := eddsa.State();
      r := ecdsa.Refresh(key, random);
      assert eddsa.State() == other;
    }

    method RefreshEddsa(key: string, random: seq<seq<S2>>) returns (r: Reply<(Bytes, nat)>)
      requires Valid() && |random| == eddsa.n && forall d :: 0 <= d < |random| ==> |random[d]| == eddsa.t - 1
      modifies eddsa, eddsa.nodes
      ensures Valid()
      ensures State() == old(State()).(eddsa := Refresh(eddsa.curve, old(State()).eddsa, key, random).0)
      ensures r == Refresh(eddsa.curve, old(State()).eddsa, key, random).1
    {
      ghost var other := ecdsa.State();
      r := eddsa.Refresh(key, random);
      assert ecdsa.State() == other;
    }

    method Sign(key: string, chain: Chain, payload: Bytes, nonce: Nonces<S1, S2>) returns (r: EngineReply<Signature>)
      ensures r == EngineSign(Curves(), State(), key, chain, payload, nonce)
    {
      if key !in keys {
        return Error(KeyNotFound(key));
      }
      if chain.Scheme() != keys[key] {
        return Error(Denied);
      }
      match keys[key]
      case Ecdsa =>
        var sig := ecdsa.Sign(key, payload, nonce.ecdsa);
        if sig.Panicked? { return Crash; }
        if sig.Failed? { return Error(Convert(sig.error)); }
        if key !in ecdsa.keys { return Error(KeyNotFound(key)); }
        return Answer(Signature(sig.value, ecdsa.keys[key].publicKey));
      case Eddsa =>
        var sig := eddsa.Sign(key, payload, nonce.eddsa);
        if sig.Panicked? { return Crash; }
        if sig.Failed? { return Error(Convert(sig.error)); }
        if key !in eddsa.keys { return Error(KeyNotFound(key)); }
        return Answer(Signature(sig.value, eddsa.keys[key].publicKey));
    }
  }
}

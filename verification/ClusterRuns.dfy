/**
 What holds of the cluster over every run: shares of a key always lie on one
 polynomial whose constant term is the key's secret, so every quorum signs for
 the public key that key generation returned.
 */
module ClusterRuns {
  import opened Wrappers
  import opened Curves
  import opened FieldAlgebra
  import opened Polynomials
  import opened Shamir
  import opened ClusterSpec
  import opened Dkg

  /** The n shares of `key` are the values at 1, .., n of the polynomial `c` with t coefficients. */
  ghost predicate SharedBy<S(!new), G(!new)>(C: Curve<S, G>, st: ClusterState<S>, key: string, c: seq<S>) {
    && |c| == st.t && C.AllElem(c)
    && forall i :: 0 <= i < |st.nodes| ==>
         key in st.nodes[i].shares && st.nodes[i].shares[key] == Eval(C, c, C.From(i + 1))
  }

  /** `secret` is the group secret behind `key`. */
  ghost predicate HasSecret<S(!new), G(!new)>(C: Curve<S, G>, st: ClusterState<S>, key: string, secret: S) {
    exists c :: SharedBy(C, st, key, c) && |c| > 0 && c[0] == secret
  }

  /** `key` is known, its shares lie on one polynomial, and that polynomial's secret has the recorded public key. */
  ghost predicate Consistent<S(!new), G(!new)>(C: Curve<S, G>, st: ClusterState<S>, key: string) {
    key in st.keys && exists secret :: HasSecret(C, st, key, secret) && st.keys[key].publicKey == C.PublicKey(secret)
  }

  ghost predicate Good<S(!new), G(!new)>(C: Curve<S, G>, st: ClusterState<S>) {
    && Shape(st) && st.n < C.order
    && forall key {:trigger Consistent(C, st, key)} :: key in st.keys ==> Consistent(C, st, key)
  }

  // ---------------------------------------------------------------- secrets

  lemma AllSharesRecover<S(!new), G(!new)>(C: Curve<S, G>, st: ClusterState<S>, key: string, c: seq<S>)
    requires FieldLaws(C) && Shape(st) && st.n < C.order && SharedBy(C, st, key, c)
    ensures Recovered(C, seq(st.n, i requires 0 <= i < st.n => Share(i + 1, st.nodes[i].shares[key]))) == Some(c[0])
  {
    var shares := seq(st.n, i requires 0 <= i < st.n => Share(i + 1, st.nodes[i].shares[key]));
    Interpolation(C, c, shares);
  }

  /** A key has at most one group secret. */
  lemma SecretUnique<S(!new), G(!new)>(C: Curve<S, G>, st: ClusterState<S>, key: string, a: S, b: S)
    requires FieldLaws(C) && Shape(st) && st.n < C.order
    requires HasSecret(C, st, key, a) && HasSecret(C, st, key, b)
    ensures a == b
  {
    var c :| SharedBy(C, st, key, c) && |c| > 0 && c[0] == a;
    var d :| SharedBy(C, st, key, d) && |d| > 0 && d[0] == b;
    AllSharesRecover(C, st, key, c);
    AllSharesRecover(C, st, key, d);
    var shares := seq(st.n, i requires 0 <= i < st.n => Share(i + 1, st.nodes[i].shares[key]));
    assert Recovered(C, shares) == Some(a);
  }

  /** Nothing but the shares of `key` matters to its secret. */
  lemma SecretFrame<S(!new), G(!new)>(C: Curve<S, G>, st: ClusterState<S>, st': ClusterState<S>, key: string, secret: S)
    requires HasSecret(C, st, key, secret)
    requires st'.t == st.t && |st'.nodes| == |st.nodes|
    requires forall i :: 0 <= i < |st.nodes| && key in st.nodes[i].shares ==>
               key in st'.nodes[i].shares && st'.nodes[i].shares[key] == st.nodes[i].shares[key]
    ensures HasSecret(C, st', key, secret)
  {
    var c :| SharedBy(C, st, key, c) && |c| > 0 && c[0] == secret;
    assert SharedBy(C, st', key, c);
  }

  // ---------------------------------------------------------------- key generation

  lemma KeygenShape<S(!new), G(!new)>(C: Curve<S, G>, st: ClusterState<S>, key: string, ds: seq<Dealing<S>>)
    requires Shape(st)
    ensures var st' := Keygen(C, st, key, ds).0;
            Shape(st') && st'.t == st.t && st'.n == st.n && st.keys.Keys <= st'.keys.Keys <= st.keys.Keys + {key}
  {
  }

  /** From a to b a node changed at most its share of `key`, which it now holds. */
  ghost predicate ShareMoved<S>(a: NodeState<S>, b: NodeState<S>, key: string) {
    && b.index == a.index && b.online == a.online && b.delayMs == a.delayMs && key in b.shares
    && forall k :: k != key ==> (k in b.shares <==> k in a.shares) && (k in a.shares ==> b.shares[k] == a.shares[k])
  }

  /** From st to st' only shares and the record of `key` may have changed. */
  ghost predicate OnlyKeyMoved<S>(st: ClusterState<S>, st': ClusterState<S>, key: string) {
    && st'.t == st.t && st'.n == st.n && st'.timeoutMs == st.timeoutMs && |st'.nodes| == |st.nodes|
    && (forall i :: 0 <= i < |st.nodes| ==> ShareMoved(st.nodes[i], st'.nodes[i], key))
    && (forall k :: k != key ==> (k in st'.keys <==> k in st.keys) && (k in st.keys ==> st'.keys[k] == st.keys[k]))
  }

  /**
   Key generation with every node online leaves node i with the summed
   polynomial at i, all its coefficients being sums of the dealers' ones, whether
   or not aggregation then succeeds; nothing but the key moves.
   */
  lemma KeygenShared<S(!new), G(!new)>(C: Curve<S, G>, st: ClusterState<S>, key: string, ds: seq<Dealing<S>>)
    requires FieldLaws(C) && Shape(st) && DealingsOk(C, st, ds) && OnlineCount(st.nodes) == st.n
    ensures var st', c := Keygen(C, st, key, ds).0, SumPoly(C, st.t, ds);
            && SharedBy(C, st', key, c) && OnlyKeyMoved(st, st', key)
            && forall k :: 0 <= k < st.t ==> c[k] == CoefficientSum(C, ds, k)
  {
    var c := SumPoly(C, st.t, ds);
    forall k | 0 <= k < st.t ensures c[k] == CoefficientSum(C, ds, k) {
      SumPolyCoefficients(C, st.t, ds, k);
    }
    KeygenOnCurve(C, st, key, ds);
    KeygenMoves(C, st, key, ds);
  }

  lemma KeygenOnCurve<S(!new), G(!new)>(C: Curve<S, G>, st: ClusterState<S>, key: string, ds: seq<Dealing<S>>)
    requires FieldLaws(C) && Shape(st) && DealingsOk(C, st, ds) && OnlineCount(st.nodes) == st.n
    ensures SharedBy(C, Keygen(C, st, key, ds).0, key, SumPoly(C, st.t, ds))
  {
    var st', c := Keygen(C, st, key, ds).0, SumPoly(C, st.t, ds);
    SumPolySecret(C, st.t, ds);
    forall i | 0 <= i < |st'.nodes|
      ensures key in st'.nodes[i].shares && st'.nodes[i].shares[key] == Eval(C, c, C.From(i + 1))
    {
      ShareSumIsEval(C, st.t, ds, i + 1);
    }
  }

  lemma KeygenMoves<S(!new), G(!new)>(C: Curve<S, G>, st: ClusterState<S>, key: string, ds: seq<Dealing<S>>)
    requires |st.nodes| == st.n && OnlineCount(st.nodes) == st.n
    ensures OnlyKeyMoved(st, Keygen(C, st, key, ds).0, key)
  {
    var st' := Keygen(C, st, key, ds).0;
    forall i | 0 <= i < |st.nodes| ensures ShareMoved(st.nodes[i], st'.nodes[i], key) {
      PutMoves(st.nodes[i], key, Sums(C, ds, st.n)[i]);
    }
  }

  lemma PutMoves<S>(node: NodeState<S>, key: string, share: S)
    ensures ShareMoved(node, node.Put(key, share), key) && node.Put(key, share).shares[key] == share
  {
  }

  /** The stored shares lie on the summed polynomial, whether or not aggregation then succeeds. */
  lemma KeygenSecret<S(!new), G(!new)>(C: Curve<S, G>, st: ClusterState<S>, key: string, ds: seq<Dealing<S>>)
    requires FieldLaws(C) && Shape(st) && DealingsOk(C, st, ds) && OnlineCount(st.nodes) == st.n
    ensures HasSecret(C, Keygen(C, st, key, ds).0, key, SecretSum(C, ds))
  {
    KeygenShared(C, st, key, ds);
    SumPolySecret(C, st.t, ds);
    assert SharedBy(C, Keygen(C, st, key, ds).0, key, SumPoly(C, st.t, ds));
  }

  lemma ConsistentFrame<S(!new), G(!new)>(C: Curve<S, G>, st: ClusterState<S>, st': ClusterState<S>, key: string)
    requires Consistent(C, st, key)
    requires key in st'.keys && st'.keys[key].publicKey == st.keys[key].publicKey
    requires st'.t == st.t && |st'.nodes| == |st.nodes|
    requires forall i :: 0 <= i < |st.nodes| && key in st.nodes[i].shares ==>
               key in st'.nodes[i].shares && st'.nodes[i].shares[key] == st.nodes[i].shares[key]
    ensures Consistent(C, st', key)
  {
    var secret :| HasSecret(C, st, key, secret) && st.keys[key].publicKey == C.PublicKey(secret);
    SecretFrame(C, st, st', key, secret);
  }

  /**
   Key generation keeps the cluster consistent except in one case, exactly: the
   id was already in use, the strict curve refused a zero dealer secret after
   the new shares were stored, and the new secret is not the old one.
   */
  lemma KeygenGood<S(!new), G(!new)>(C: Curve<S, G>, st: ClusterState<S>, key: string, ds: seq<Dealing<S>>)
    requires FieldLaws(C) && GroupLaws(C) && Good(C, st) && DealingsOk(C, st, ds)
    ensures Good(C, Keygen(C, st, key, ds).0) <==>
            || key !in st.keys
            || OnlineCount(st.nodes) != st.n
            || !(C.strict && SomeZeroSecret(C, ds))
            || st.keys[key].publicKey == C.PublicKey(SecretSum(C, ds))
  {
    var st' := Keygen(C, st, key, ds).0;
    KeygenShape(C, st, key, ds);
    if OnlineCount(st.nodes) == st.n {
      AggregateIsSum(C, ds);
      KeygenConsistent(C, st, key, ds);
      forall k | k in st.keys && k != key ensures Consistent(C, st', k) {
        ConsistentFrame(C, st, st', k);
      }
      assert Good(C, st') <==> (key in st'.keys ==> Consistent(C, st', key));
    }
  }

  /** After the shares of `key` are replaced, the record is right exactly when it names the new secret. */
  lemma KeygenConsistent<S(!new), G(!new)>(C: Curve<S, G>, st: ClusterState<S>, key: string, ds: seq<Dealing<S>>)
    requires FieldLaws(C) && GroupLaws(C) && Shape(st) && st.n < C.order && DealingsOk(C, st, ds)
    requires OnlineCount(st.nodes) == st.n
    ensures var st' := Keygen(C, st, key, ds).0;
            Consistent(C, st', key) <==>
              key in st'.keys && st'.keys[key].publicKey == C.PublicKey(SecretSum(C, ds))
  {
    var st' := Keygen(C, st, key, ds).0;
    KeygenShape(C, st, key, ds);
    KeygenSecret(C, st, key, ds);
    if Consistent(C, st', key) {
      var secret :| HasSecret(C, st', key, secret) && st'.keys[key].publicKey == C.PublicKey(secret);
      SecretUnique(C, st', key, secret, SecretSum(C, ds));
    }
  }

  // ---------------------------------------------------------------- refresh

  /** A refresh moves the shares from c to c plus the sum of the zero-sharings, and nothing else. */
  lemma RefreshShared<S(!new), G(!new)>(
      C: Curve<S, G>, st: ClusterState<S>, key: string, random: seq<seq<S>>, c: seq<S>)
    requires FieldLaws(C) && Shape(st) && DealingsOk(C, st, ZeroDeals(C, random))
    requires SharedBy(C, st, key, c) && OnlineCount(st.nodes) == st.n && key in st.keys
    ensures SharedBy(C, Refresh(C, st, key, random).0, key, Plus(C, c, SumPoly(C, st.t, ZeroDeals(C, random))))
    ensures OnlyKeyMoved(st, Refresh(C, st, key, random).0, key)
  {
    RefreshOnCurve(C, st, key, random, c);
    RefreshMoves(C, st, key, random);
  }

  lemma RefreshMoves<S(!new), G(!new)>(C: Curve<S, G>, st: ClusterState<S>, key: string, random: seq<seq<S>>)
    requires Shape(st) && OnlineCount(st.nodes) == st.n && key in st.keys
    ensures OnlyKeyMoved(st, Refresh(C, st, key, random).0, key)
  {
    var st' := Refresh(C, st, key, random).0;
    var shares := Shifted(C, st.nodes, key, Sums(C, ZeroDeals(C, random), st.n));
    forall i | 0 <= i < |st.nodes| ensures ShareMoved(st.nodes[i], st'.nodes[i], key) {
      PutMoves(st.nodes[i], key, shares[i]);
    }
  }

  lemma RefreshOnCurve<S(!new), G(!new)>(
      C: Curve<S, G>, st: ClusterState<S>, key: string, random: seq<seq<S>>, c: seq<S>)
    requires FieldLaws(C) && Shape(st) && DealingsOk(C, st, ZeroDeals(C, random))
    requires SharedBy(C, st, key, c) && OnlineCount(st.nodes) == st.n && key in st.keys
    ensures SharedBy(C, Refresh(C, st, key, random).0, key, Plus(C, c, SumPoly(C, st.t, ZeroDeals(C, random))))
  {
    var st', z := Refresh(C, st, key, random).0, SumPoly(C, st.t, ZeroDeals(C, random));
    var c' := Plus(C, c, z);
    assert C.AllElem(c') by {
      forall i | 0 <= i < |c'| ensures C.Elem(c'[i]) { Closed(C, c[i], z[i]); }
    }
    forall i | 0 <= i < |st'.nodes|
      ensures key in st'.nodes[i].shares && st'.nodes[i].shares[key] == Eval(C, c', C.From(i + 1))
    {
      ShareSumIsEval(C, st.t, ZeroDeals(C, random), i + 1);
      EvalPlus(C, c, z, C.From(i + 1));
      assert st.nodes[i].shares[key] == Eval(C, c, C.From(i + 1));
    }
  }

  /** A refresh keeps the group secret. */
  lemma RefreshSecret<S(!new), G(!new)>(
      C: Curve<S, G>, st: ClusterState<S>, key: string, random: seq<seq<S>>, secret: S)
    requires FieldLaws(C) && Shape(st) && DealingsOk(C, st, ZeroDeals(C, random))
    requires HasSecret(C, st, key, secret)
    ensures HasSecret(C, Refresh(C, st, key, random).0, key, secret)
  {
    if OnlineCount(st.nodes) == st.n && key in st.keys {
      var c :| SharedBy(C, st, key, c) && |c| > 0 && c[0] == secret;
      RefreshShared(C, st, key, random, c);
      ZeroConstant(C, st.t, c, random);
    }
  }

  /** Adding the summed zero-sharings keeps the constant term. */
  lemma ZeroConstant<S(!new), G(!new)>(C: Curve<S, G>, t: nat, c: seq<S>, random: seq<seq<S>>)
    requires FieldLaws(C) && |c| == t && t >= 1 && C.Elem(c[0])
    requires forall d :: 0 <= d < |random| ==> |random[d]| + 1 == t && C.AllElem(random[d])
    ensures Plus(C, c, SumPoly(C, t, ZeroDeals(C, random)))[0] == c[0]
  {
    SumPolySecret(C, t, ZeroDeals(C, random));
    ZeroSecretSum(C, ZeroDeals(C, random));
    Unit(C, c[0]);
  }

  lemma RefreshGood<S(!new), G(!new)>(C: Curve<S, G>, st: ClusterState<S>, key: string, random: seq<seq<S>>)
    requires FieldLaws(C) && Good(C, st) && DealingsOk(C, st, ZeroDeals(C, random))
    ensures Good(C, Refresh(C, st, key, random).0)
  {
    var st' := Refresh(C, st, key, random).0;
    RefreshShape(C, st, key, random);
    forall k | k in st'.keys ensures Consistent(C, st', k) {
      assert Consistent(C, st, k);
      if k == key {
        var secret :| HasSecret(C, st, k, secret) && st.keys[k].publicKey == C.PublicKey(secret);
        RefreshSecret(C, st, key, random, secret);
      } else {
        ConsistentFrame(C, st, st', k);
      }
    }
  }

  lemma RefreshShape<S(!new), G(!new)>(C: Curve<S, G>, st: ClusterState<S>, key: string, random: seq<seq<S>>)
    requires Shape(st)
    ensures var st' := Refresh(C, st, key, random).0;
            && Shape(st') && st'.t == st.t && st'.n == st.n && st'.keys.Keys == st.keys.Keys
            && forall k :: k in st.keys ==> st'.keys[k].publicKey == st.keys[k].publicKey
  {
  }

  // ---------------------------------------------------------------- membership

  lemma {:induction false} OnlineAll<S>(nodes: seq<NodeState<S>>)
    ensures OnlineCount(nodes) == |nodes| <==> forall i :: 0 <= i < |nodes| ==> nodes[i].online
  {
    if nodes != [] {
      var k := |nodes| - 1;
      OnlineAll(nodes[..k]);
      if forall i :: 0 <= i < k ==> nodes[..k][i].online {
        assert forall i :: 0 <= i < k ==> nodes[i].online == nodes[..k][i].online;
      }
    }
  }

  /** The nodes that are online. */
  ghost function Online<S>(nodes: seq<NodeState<S>>): set<nat> {
    set i: nat | i < |nodes| && nodes[i].online
  }

  /** The nodes that are online and within the round timeout. */
  ghost function Responders<S>(nodes: seq<NodeState<S>>, timeoutMs: nat): set<nat> {
    set i: nat | i < |nodes| && nodes[i].online && nodes[i].delayMs <= timeoutMs
  }

  lemma {:induction false} OnlineSet<S>(nodes: seq<NodeState<S>>)
    ensures OnlineCount(nodes) == |Online(nodes)|
  {
    if nodes != [] {
      var k := |nodes| - 1;
      OnlineSet(nodes[..k]);
      var rest := Online(nodes[..k]);
      assert Online(nodes) == if nodes[k].online then rest + {k} else rest;
    }
  }

  /** Counting responders is the size of the set of nodes that respond. */
  lemma {:induction false} ResponderSet<S>(nodes: seq<NodeState<S>>, timeoutMs: nat)
    ensures ResponderCount(nodes, timeoutMs) == |Responders(nodes, timeoutMs)|
  {
    if nodes != [] {
      var k := |nodes| - 1;
      ResponderSet(nodes[..k], timeoutMs);
      var rest := Responders(nodes[..k], timeoutMs);
      assert Responders(nodes, timeoutMs) == if nodes[k].Responds(timeoutMs) then rest + {k} else rest;
    }
  }

  /** Switching a node sets its flag and nothing else; an unknown index does nothing. */
  lemma SwitchExact<S>(st: ClusterState<S>, index: nat, online: bool, delayMs: nat, i: nat)
    requires Shape(st) && i < st.n
    ensures var a, b := SetOnline(st, index, online), SetDelay(st, index, delayMs);
            && a == st.(nodes := a.nodes) && b == st.(nodes := b.nodes) && |a.nodes| == |b.nodes| == st.n
            && a.nodes[i] == (if st.nodes[i].index == index then st.nodes[i].(online := online) else st.nodes[i])
            && b.nodes[i].delayMs == (if st.nodes[i].index != index then st.nodes[i].delayMs
                                      else if delayMs <= 0xFFFF_FFFF_FFFF_FFFF then delayMs
                                      else delayMs % 0x1_0000_0000_0000_0000)
            && b.nodes[i] == st.nodes[i].(delayMs := b.nodes[i].delayMs)
  {
  }

  /**
   A refresh goes through exactly when every node is online and the key is known,
   and then counts one epoch under the same public key. Otherwise it changes
   nothing, and says how many nodes were online or that the key is unknown.
   */
  lemma RefreshExact<S(!new), G(!new)>(C: Curve<S, G>, st: ClusterState<S>, key: string, random: seq<seq<S>>)
    requires Shape(st)
    ensures var (st', r) := Refresh(C, st, key, random);
            && (r.Done? <==> key in st.keys && forall i :: 0 <= i < st.n ==> st.nodes[i].online)
            && (!r.Done? ==> st' == st)
            && (r.Done? ==>
                  && r.value == (st.keys[key].publicKey, st.keys[key].epoch + 1)
                  && st'.keys == st.keys[key := KeyInfo(r.value.0, r.value.1)])
            && ((exists i :: 0 <= i < st.n && !st.nodes[i].online) <==>
                r == Failed(QuorumNotMet(st.n, |Online(st.nodes)|)))
            && ((forall i :: 0 <= i < st.n ==> st.nodes[i].online) && key !in st.keys <==> r == Failed(UnknownKey(key)))
            && !r.Panicked?
  {
    OnlineAll(st.nodes);
    OnlineSet(st.nodes);
  }

  /**
   Key generation succeeds exactly when every node is online and no dealer secret
   is refused, with the key of the summed secret. With a node offline it changes
   nothing and says how many were online; a refused secret is its only other
   failure.
   */
  lemma KeygenExact<S(!new), G(!new)>(C: Curve<S, G>, st: ClusterState<S>, key: string, ds: seq<Dealing<S>>)
    requires FieldLaws(C) && GroupLaws(C) && Shape(st) && DealingsOk(C, st, ds)
    ensures var (st', r) := Keygen(C, st, key, ds);
            var online := forall i :: 0 <= i < st.n ==> st.nodes[i].online;
            && (r.Done? <==> online && !(C.strict && SomeZeroSecret(C, ds)))
            && (r.Done? ==> r.value == C.PublicKey(SecretSum(C, ds)) && st'.keys == st.keys[key := KeyInfo(r.value, 1)])
            && (!r.Done? ==> st'.keys == st.keys)
            && (!online ==> st' == st && r == Failed(QuorumNotMet(st.n, |Online(st.nodes)|)))
            && (online && C.strict && SomeZeroSecret(C, ds) ==> r == Failed(ReconstructFailed))
            && !r.Panicked?
  {
    OnlineAll(st.nodes);
    OnlineSet(st.nodes);
    AggregateIsSum(C, ds);
  }

  // ---------------------------------------------------------------- signing

  /** A round collects one share per responding node, all on the key's polynomial, with distinct indices. */
  lemma {:induction false} CollectLies<S(!new), G(!new)>(
      C: Curve<S, G>, nodes: seq<NodeState<S>>, timeoutMs: nat, key: string, c: seq<S>)
    requires forall i :: 0 <= i < |nodes| ==>
               nodes[i].index == i + 1 && key in nodes[i].shares && nodes[i].shares[key] == Eval(C, c, C.From(i + 1))
    ensures var r := Collect(nodes, timeoutMs, key);
            && |r| == ResponderCount(nodes, timeoutMs)
            && LieOn(C, r, c) && DistinctIndices(r) && IndicesBelow(r, |nodes| + 1)
  {
    if nodes != [] {
      var k := |nodes| - 1;
      CollectLies(C, nodes[..k], timeoutMs, key, c);
      var rest, r := Collect(nodes[..k], timeoutMs, key), Collect(nodes, timeoutMs, key);
      assert forall i :: 0 <= i < |rest| ==> r[i] == rest[i];
    }
  }

  /** What a round collects on a key whose shares lie on a polynomial: exactly one share per responder. */
  lemma CollectCount<S(!new), G(!new)>(C: Curve<S, G>, st: ClusterState<S>, key: string, secret: S)
    requires Shape(st) && HasSecret(C, st, key, secret)
    ensures |Collect(st.nodes, st.timeoutMs, key)| == ResponderCount(st.nodes, st.timeoutMs)
  {
    var c :| SharedBy(C, st, key, c) && |c| > 0 && c[0] == secret;
    CollectLies(C, st.nodes, st.timeoutMs, key, c);
  }

  /** Every quorum recovers the same scalar: the group secret. */
  lemma QuorumRecovers<S(!new), G(!new)>(C: Curve<S, G>, st: ClusterState<S>, key: string, secret: S)
    requires FieldLaws(C) && Shape(st) && st.n < C.order && HasSecret(C, st, key, secret)
    requires ResponderCount(st.nodes, st.timeoutMs) >= st.t
    ensures |Collect(st.nodes, st.timeoutMs, key)| >= st.t
    ensures Recovered(C, Collect(st.nodes, st.timeoutMs, key)[..st.t]) == Some(secret)
  {
    var c :| SharedBy(C, st, key, c) && |c| > 0 && c[0] == secret;
    CollectLies(C, st.nodes, st.timeoutMs, key, c);
    Interpolation(C, c, Collect(st.nodes, st.timeoutMs, key)[..st.t]);
  }

  /** What `sign` answers for a known key, in full. */
  ghost function SignAnswer<S(!new), G(!new)>(
      C: Curve<S, G>, st: ClusterState<S>, secret: S, msg: Bytes, nonce: S): Reply<Bytes>
  {
    var got := ResponderCount(st.nodes, st.timeoutMs);
    if got < st.t then Failed(QuorumNotMet(st.t, got))
    else if C.strict && secret == C.zero then Panicked
    else match C.Sign(secret, nonce, msg) case Some(sig) => Done(sig) case None => Panicked
  }

  /**
   Exact availability and correctness of signing. With fewer than t responders
   the quorum error carries the exact count. With t or more, reconstruction
   does not fail, and the signature verifies under the recorded public key,
   whichever nodes responded; only the zero secret of the strict curve panics.
   */
  lemma SignOutcome<S(!new), G(!new)>(C: Curve<S, G>, st: ClusterState<S>, key: string, secret: S, msg: Bytes, nonce: S)
    requires Lawful(C) && Shape(st) && st.n < C.order && C.Elem(nonce)
    requires key in st.keys && HasSecret(C, st, key, secret) && st.keys[key].publicKey == C.PublicKey(secret)
    ensures Sign(C, st, key, msg, nonce) == SignAnswer(C, st, secret, msg, nonce)
    ensures Sign(C, st, key, msg, nonce).Panicked? <==>
            ResponderCount(st.nodes, st.timeoutMs) >= st.t && C.strict && secret == C.zero
    ensures Sign(C, st, key, msg, nonce).Done? ==>
            C.Verify(st.keys[key].publicKey, msg, Sign(C, st, key, msg, nonce).value)
  {
    CollectCount(C, st, key, secret);
    if ResponderCount(st.nodes, st.timeoutMs) >= st.t {
      QuorumRecovers(C, st, key, secret);
      var c :| SharedBy(C, st, key, c) && |c| > 0 && c[0] == secret;
      assert SignAt(C, secret, nonce, msg);
    }
  }

  /**
   Signing in full, for any key of a consistent cluster: unknown keys, a missing
   quorum with the number of nodes that answered, and otherwise the signature of
   the group secret with the nonce drawn, which verifies under the recorded key;
   only the zero secret of the strict curve panics.
   */
  lemma SignExact<S(!new), G(!new)>(C: Curve<S, G>, st: ClusterState<S>, key: string, msg: Bytes, nonce: S)
    requires Lawful(C) && Good(C, st) && C.Elem(nonce)
    ensures var r, up := Sign(C, st, key, msg, nonce), |Responders(st.nodes, st.timeoutMs)|;
            && (key !in st.keys <==> r == Failed(UnknownKey(key)))
            && (key in st.keys && up < st.t <==> r == Failed(QuorumNotMet(st.t, up)))
            && (key in st.keys && up >= st.t ==> Signs(C, st, key, msg, nonce, r))
  {
    ResponderSet(st.nodes, st.timeoutMs);
    if key in st.keys {
      assert Consistent(C, st, key);
      var secret :| HasSecret(C, st, key, secret) && st.keys[key].publicKey == C.PublicKey(secret);
      SecretElem(C, st, key, secret);
      SignOutcome(C, st, key, secret, msg, nonce);
      if ResponderCount(st.nodes, st.timeoutMs) >= st.t {
        SignsSecret(C, st, key, secret, msg, nonce);
      }
    }
  }

  /** The reply is the group secret's signature, which verifies under the recorded key. */
  ghost predicate Signs<S(!new), G(!new)>(
      C: Curve<S, G>, st: ClusterState<S>, key: string, msg: Bytes, nonce: S, r: Reply<Bytes>)
    requires key in st.keys
  {
    var pk := st.keys[key].publicKey;
    if C.strict && pk == C.PublicKey(C.zero) then r == Panicked
    else
      && r.Done? && C.Verify(pk, msg, r.value)
      && forall secret :: HasSecret(C, st, key, secret) ==> C.Sign(secret, nonce, msg) == Some(r.value)
  }

  lemma SecretElem<S(!new), G(!new)>(C: Curve<S, G>, st: ClusterState<S>, key: string, secret: S)
    requires HasSecret(C, st, key, secret)
    ensures C.Elem(secret)
  {
    var c :| SharedBy(C, st, key, c) && |c| > 0 && c[0] == secret;
  }

  lemma SignsSecret<S(!new), G(!new)>(
      C: Curve<S, G>, st: ClusterState<S>, key: string, secret: S, msg: Bytes, nonce: S)
    requires Lawful(C) && Shape(st) && st.n < C.order && C.Elem(nonce) && C.Elem(secret)
    requires key in st.keys && HasSecret(C, st, key, secret) && st.keys[key].publicKey == C.PublicKey(secret)
    requires ResponderCount(st.nodes, st.timeoutMs) >= st.t
    ensures Signs(C, st, key, msg, nonce, Sign(C, st, key, msg, nonce))
  {
    SignOutcome(C, st, key, secret, msg, nonce);
    assert SignAt(C, secret, nonce, msg) && PointAt(C, secret, C.zero);
    forall other | HasSecret(C, st, key, other) ensures other == secret {
      SecretUnique(C, st, key, other, secret);
    }
  }

  // ---------------------------------------------------------------- a reused id

  lemma {:induction false} AllRespond<S>(nodes: seq<NodeState<S>>, timeoutMs: nat)
    requires forall i :: 0 <= i < |nodes| ==> nodes[i].Responds(timeoutMs)
    ensures OnlineCount(nodes) == ResponderCount(nodes, timeoutMs) == |nodes|
  {
    if nodes != [] { AllRespond(nodes[..|nodes| - 1], timeoutMs); }
  }

  /** What `sign` returns when the shares hold `secret`, whatever key is recorded. */
  lemma SignsWith<S(!new), G(!new)>(C: Curve<S, G>, st: ClusterState<S>, key: string, secret: S, msg: Bytes, nonce: S)
    requires Lawful(C) && Shape(st) && st.n < C.order && C.Elem(nonce) && C.Elem(secret)
    requires key in st.keys && HasSecret(C, st, key, secret) && ResponderCount(st.nodes, st.timeoutMs) >= st.t
    ensures Sign(C, st, key, msg, nonce) == SignAnswer(C, st, secret, msg, nonce)
    ensures Sign(C, st, key, msg, nonce).Done? ==>
            C.Verify(C.PublicKey(secret), msg, Sign(C, st, key, msg, nonce).value)
  {
    QuorumRecovers(C, st, key, secret);
    assert SignAt(C, secret, nonce, msg);
  }

  /**
   The failing case of `KeygenGood`. On the strict curve, from a new cluster: a
   key generation that succeeds, then one of the same id in which a dealer drew
   zero and the secrets sum to something else. The second reports a failure, yet
   the shares now hold its secret while the record still shows the first key:
   signing panics when that secret is zero, and otherwise signs for a public key
   that is not the recorded one.
   */
  lemma ReuseBreaksKey<S(!new), G(!new)>(
      C: Curve<S, G>, t: nat, n: nat, timeoutMs: nat, key: string, ds1: seq<Dealing<S>>, ds2: seq<Dealing<S>>,
      msg: Bytes, nonce: S)
    requires Lawful(C) && C.strict && 1 <= t <= n < C.order && C.Elem(nonce)
    requires DealingsOk(C, Initial<S>(t, n, timeoutMs), ds1) && !SomeZeroSecret(C, ds1)
    requires DealingsOk(C, Initial<S>(t, n, timeoutMs), ds2) && SomeZeroSecret(C, ds2)
    requires SecretSum(C, ds1) != SecretSum(C, ds2)
    ensures var (st1, r1) := Keygen(C, Initial<S>(t, n, timeoutMs), key, ds1);
            var (st2, r2) := Keygen(C, st1, key, ds2);
            && r1 == Done(C.PublicKey(SecretSum(C, ds1))) && Good(C, st1)
            && r2 == Failed(ReconstructFailed) && !Good(C, st2)
            && key in st2.keys && st2.keys[key].publicKey == r1.value != C.PublicKey(SecretSum(C, ds2))
            && var answer := Sign(C, st2, key, msg, nonce);
               if SecretSum(C, ds2) == C.zero then answer == Panicked
               else answer.Done? && C.Verify(C.PublicKey(SecretSum(C, ds2)), msg, answer.value)
  {
    var st0 := Initial<S>(t, n, timeoutMs);
    InitialGood(C, t, n, timeoutMs);
    AllRespond(st0.nodes, timeoutMs);
    var st1 := Keygen(C, st0, key, ds1).0;
    AggregateIsSum(C, ds1);
    KeygenGood(C, st0, key, ds1);
    AllRespond(st1.nodes, timeoutMs);
    KeysDiffer(C, ds1, ds2);
    ReuseBreaks(C, st1, key, ds2, msg, nonce);
  }

  lemma KeysDiffer<S(!new), G(!new)>(C: Curve<S, G>, ds1: seq<Dealing<S>>, ds2: seq<Dealing<S>>)
    requires FieldLaws(C) && GroupLaws(C) && SecretSum(C, ds1) != SecretSum(C, ds2)
    ensures C.PublicKey(SecretSum(C, ds1)) != C.PublicKey(SecretSum(C, ds2))
  {
    SecretSumElem(C, ds1);
    SecretSumElem(C, ds2);
    assert PointAt(C, SecretSum(C, ds1), SecretSum(C, ds2));
  }

  lemma ReuseBreaks<S(!new), G(!new)>(
      C: Curve<S, G>, st: ClusterState<S>, key: string, ds: seq<Dealing<S>>, msg: Bytes, nonce: S)
    requires Lawful(C) && C.strict && Good(C, st) && C.Elem(nonce) && DealingsOk(C, st, ds) && SomeZeroSecret(C, ds)
    requires key in st.keys && st.keys[key].publicKey != C.PublicKey(SecretSum(C, ds))
    requires OnlineCount(st.nodes) == ResponderCount(st.nodes, st.timeoutMs) == st.n
    ensures var (st', r) := Keygen(C, st, key, ds);
            && r == Failed(ReconstructFailed) && !Good(C, st')
            && st'.keys == st.keys
            && var answer := Sign(C, st', key, msg, nonce);
               if SecretSum(C, ds) == C.zero then answer == Panicked
               else answer.Done? && C.Verify(C.PublicKey(SecretSum(C, ds)), msg, answer.value)
  {
    var st' := Keygen(C, st, key, ds).0;
    ReuseState(C, st, key, ds);
    SecretSumElem(C, ds);
    SignsWith(C, st', key, SecretSum(C, ds), msg, nonce);
    assert SignAt(C, SecretSum(C, ds), nonce, msg);
  }

  /** What the failed generation leaves behind. */
  lemma ReuseState<S(!new), G(!new)>(C: Curve<S, G>, st: ClusterState<S>, key: string, ds: seq<Dealing<S>>)
    requires Lawful(C) && C.strict && Good(C, st) && DealingsOk(C, st, ds) && SomeZeroSecret(C, ds)
    requires key in st.keys && st.keys[key].publicKey != C.PublicKey(SecretSum(C, ds)) && OnlineCount(st.nodes) == st.n
    ensures var (st', r) := Keygen(C, st, key, ds);
            && r == Failed(ReconstructFailed) && !Good(C, st') && Shape(st')
            && st'.keys == st.keys && st'.t == st.t && st'.n == st.n && st'.timeoutMs == st.timeoutMs
            && HasSecret(C, st', key, SecretSum(C, ds))
            && ResponderCount(st'.nodes, st.timeoutMs) == ResponderCount(st.nodes, st.timeoutMs)
  {
    AggregateIsSum(C, ds);
    KeygenGood(C, st, key, ds);
    KeygenShape(C, st, key, ds);
    KeygenSecret(C, st, key, ds);
    SameResponders(st.nodes, Keygen(C, st, key, ds).0.nodes, st.timeoutMs);
  }

  lemma {:induction false} SameResponders<S>(a: seq<NodeState<S>>, b: seq<NodeState<S>>, timeoutMs: nat)
    requires |a| == |b| && forall i :: 0 <= i < |a| ==> a[i].online == b[i].online && a[i].delayMs == b[i].delayMs
    ensures ResponderCount(a, timeoutMs) == ResponderCount(b, timeoutMs)
  {
    if a != [] { SameResponders(a[..|a| - 1], b[..|b| - 1], timeoutMs); }
  }

  lemma SingleSecret<S(!new), G(!new)>(C: Curve<S, G>, secret: S)
    requires FieldLaws(C) && C.Elem(secret)
    ensures SecretSum(C, [Dealing(secret, [])]) == secret
  {
    var ds := [Dealing(secret, [])];
    assert ds[..0] == [] && SecretSum(C, ds[..0]) == C.zero;
    Unit(C, secret);
    Ring(C, C.zero, secret, secret);
  }

  /** The smallest instance: one node, a dealer secret of one, then of zero. Signing then panics. */
  lemma ReuseExample<S(!new), G(!new)>(C: Curve<S, G>, key: string, msg: Bytes, nonce: S)
    requires Lawful(C) && C.strict && C.Elem(nonce)
    ensures var st1 := Keygen(C, Initial<S>(1, 1, 0), key, [Dealing(C.one, [])]).0;
            var st2 := Keygen(C, st1, key, [Dealing(C.zero, [])]).0;
            && Good(C, st1) && !Good(C, st2) && Sign(C, st2, key, msg, nonce) == Panicked
  {
    var ds1, ds2 := [Dealing(C.one, [])], [Dealing(C.zero, [])];
    SingleSecret(C, C.one);
    SingleSecret(C, C.zero);
    assert ds2[0].secret == C.zero;
    ReuseBreaksKey(C, 1, 1, 0, key, ds1, ds2, msg, nonce);
  }

  // ---------------------------------------------------------------- runs

  datatype Event<S> =
    | KeygenEvent(key: string, dealings: seq<Dealing<S>>)
    | RefreshEvent(key: string, random: seq<seq<S>>)
    | SignEvent(key: string, msg: Bytes, nonce: S)
    | OnlineEvent(index: nat, online: bool)
    | DelayEvent(index: nat, delayMs: nat)

  /** Random choices are canonical scalars and key generation uses an id that is not in use. */
  ghost predicate EventOk<S(!new), G(!new)>(C: Curve<S, G>, st: ClusterState<S>, e: Event<S>) {
    match e
    case KeygenEvent(key, ds) => DealingsOk(C, st, ds) && key !in st.keys
    case RefreshEvent(key, random) => DealingsOk(C, st, ZeroDeals(C, random))
    case SignEvent(_, _, nonce) => C.Elem(nonce)
    case _ => true
  }

  ghost function Next<S(!new), G(!new)>(C: Curve<S, G>, st: ClusterState<S>, e: Event<S>): ClusterState<S>
    requires Shape(st)
  {
    match e
    case KeygenEvent(key, ds) => Keygen(C, st, key, ds).0
    case RefreshEvent(key, random) => Refresh(C, st, key, random).0
    case SignEvent(_, _, _) => st
    case OnlineEvent(index, online) => SetOnline(st, index, online)
    case DelayEvent(index, delayMs) => SetDelay(st, index, delayMs)
  }

  /** The operations never lose a share: this is the part of consistency that needs no assumption on ids. */
  lemma NextShape<S(!new), G(!new)>(C: Curve<S, G>, st: ClusterState<S>, e: Event<S>)
    requires Shape(st)
    ensures Shape(Next(C, st, e)) && Next(C, st, e).t == st.t && Next(C, st, e).n == st.n
  {
    match e
    case KeygenEvent(key, ds) => KeygenShape(C, st, key, ds);
    case RefreshEvent(key, random) => RefreshShape(C, st, key, random);
    case _ =>
  }

  ghost predicate RunOk<S(!new), G(!new)>(C: Curve<S, G>, st: ClusterState<S>, es: seq<Event<S>>)
    decreases |es|
  {
    es == [] || (Shape(st) && EventOk(C, st, es[0]) && RunOk(C, Next(C, st, es[0]), es[1..]))
  }

  ghost function Run<S(!new), G(!new)>(C: Curve<S, G>, st: ClusterState<S>, es: seq<Event<S>>): ClusterState<S>
    requires RunOk(C, st, es)
    decreases |es|
  {
    if es == [] then st else Run(C, Next(C, st, es[0]), es[1..])
  }

  lemma NextGood<S(!new), G(!new)>(C: Curve<S, G>, st: ClusterState<S>, e: Event<S>)
    requires FieldLaws(C) && GroupLaws(C) && Good(C, st) && EventOk(C, st, e)
    ensures Good(C, Next(C, st, e))
  {
    match e
    case KeygenEvent(key, ds) => KeygenGood(C, st, key, ds);
    case RefreshEvent(key, random) => RefreshGood(C, st, key, random);
    case _ => FlagGood(C, st, e);
  }

  /** Flags, delays and signing rounds touch no share and no key. */
  lemma FlagGood<S(!new), G(!new)>(C: Curve<S, G>, st: ClusterState<S>, e: Event<S>)
    requires Good(C, st) && !e.KeygenEvent? && !e.RefreshEvent?
    ensures Good(C, Next(C, st, e))
  {
    NextShape(C, st, e);
    forall key | key in st.keys ensures Consistent(C, Next(C, st, e), key) {
      ConsistentFrame(C, st, Next(C, st, e), key);
    }
  }

  /** The invariant of every run. */
  lemma {:induction false} RunGood<S(!new), G(!new)>(C: Curve<S, G>, st: ClusterState<S>, es: seq<Event<S>>)
    requires FieldLaws(C) && GroupLaws(C) && Good(C, st) && RunOk(C, st, es)
    ensures Good(C, Run(C, st, es))
    decreases |es|
  {
    if es != [] {
      NextGood(C, st, es[0]);
      RunGood(C, Next(C, st, es[0]), es[1..]);
    }
  }

  lemma InitialGood<S(!new), G(!new)>(C: Curve<S, G>, t: nat, n: nat, timeoutMs: nat)
    requires 1 <= t <= n < C.order
    ensures Good(C, Initial<S>(t, n, timeoutMs))
  {
  }

  /** Every state reachable from a new cluster is consistent. */
  lemma Reachable<S(!new), G(!new)>(C: Curve<S, G>, t: nat, n: nat, timeoutMs: nat, es: seq<Event<S>>)
    requires FieldLaws(C) && GroupLaws(C) && 1 <= t <= n < C.order
    requires RunOk(C, Initial<S>(t, n, timeoutMs), es)
    ensures Good(C, Run(C, Initial<S>(t, n, timeoutMs), es))
  {
    InitialGood(C, t, n, timeoutMs);
    RunGood(C, Initial<S>(t, n, timeoutMs), es);
  }

  /** The refreshes of `key` in a run that succeed. */
  ghost function Rotations<S(!new), G(!new)>(C: Curve<S, G>, st: ClusterState<S>, es: seq<Event<S>>, key: string): nat
    requires RunOk(C, st, es)
    decreases |es|
  {
    if es == [] then 0
    else
      (if es[0].RefreshEvent? && es[0].key == key && Refresh(C, st, key, es[0].random).1.Done? then 1 else 0)
      + Rotations(C, Next(C, st, es[0]), es[1..], key)
  }

  lemma NextKeepsKey<S(!new), G(!new)>(C: Curve<S, G>, st: ClusterState<S>, e: Event<S>, key: string, secret: S)
    requires FieldLaws(C) && Shape(st) && EventOk(C, st, e)
    requires key in st.keys && HasSecret(C, st, key, secret)
    ensures var st' := Next(C, st, e);
            var step := if e.RefreshEvent? && e.key == key && Refresh(C, st, key, e.random).1.Done? then 1 else 0;
            && Shape(st') && st'.t == st.t && st'.n == st.n
            && key in st'.keys && HasSecret(C, st', key, secret)
            && st'.keys[key] == KeyInfo(st.keys[key].publicKey, st.keys[key].epoch + step)
  {
    NextShape(C, st, e);
    if e.RefreshEvent? && e.key == key {
      RefreshSecret(C, st, key, e.random, secret);
    } else {
      NextFrame(C, st, e, key);
      SecretFrame(C, st, Next(C, st, e), key, secret);
    }
  }

  /** Events other than a refresh of `key` leave the record and the shares of a known key alone. */
  lemma NextFrame<S(!new), G(!new)>(C: Curve<S, G>, st: ClusterState<S>, e: Event<S>, key: string)
    requires Shape(st) && EventOk(C, st, e) && key in st.keys && !(e.RefreshEvent? && e.key == key)
    ensures var st' := Next(C, st, e);
            && key in st'.keys && st'.keys[key] == st.keys[key]
            && |st'.nodes| == |st.nodes|
            && forall i :: 0 <= i < |st.nodes| ==>
                 key in st'.nodes[i].shares && st'.nodes[i].shares[key] == st.nodes[i].shares[key]
  {
    match e
    case KeygenEvent(other, ds) => assert other != key;
    case RefreshEvent(other, random) => assert other != key;
    case _ =>
  }

  /** A known key keeps its secret and public key for ever, and its epoch counts the successful refreshes. */
  lemma {:induction false} RunKeepsKey<S(!new), G(!new)>(
      C: Curve<S, G>, st: ClusterState<S>, es: seq<Event<S>>, key: string, secret: S)
    requires FieldLaws(C) && Shape(st) && RunOk(C, st, es)
    requires key in st.keys && HasSecret(C, st, key, secret)
    ensures var st' := Run(C, st, es);
            && Shape(st') && st'.t == st.t && st'.n == st.n
            && key in st'.keys && HasSecret(C, st', key, secret)
            && st'.keys[key] == KeyInfo(st.keys[key].publicKey, st.keys[key].epoch + Rotations(C, st, es, key))
    decreases |es|
  {
    if es != [] {
      var st1 := Next(C, st, es[0]);
      NextKeepsKey(C, st, es[0], key, secret);
      RunKeepsKey(C, st1, es[1..], key, secret);
    }
  }

  /**
   End to end: start a fresh cluster, let anything happen, generate a key,
   let anything happen again (outages, slow nodes, other keys, any number of
   refreshes), then sign. With a quorum the signature verifies under the public
   key that key generation returned; without one the exact count is reported.
   */
  lemma Lifecycle<S(!new), G(!new)>(
      C: Curve<S, G>, t: nat, n: nat, timeoutMs: nat, before: seq<Event<S>>,
      key: string, ds: seq<Dealing<S>>, after: seq<Event<S>>, msg: Bytes, nonce: S)
    requires Lawful(C) && 1 <= t <= n < C.order && C.Elem(nonce)
    requires RunOk(C, Initial<S>(t, n, timeoutMs), before)
    requires var st0 := Run(C, Initial<S>(t, n, timeoutMs), before);
             && Shape(st0) && EventOk(C, st0, KeygenEvent(key, ds)) && Keygen(C, st0, key, ds).1.Done?
             && RunOk(C, Keygen(C, st0, key, ds).0, after)
    ensures var st0 := Run(C, Initial<S>(t, n, timeoutMs), before);
            var (st1, reply) := Keygen(C, st0, key, ds);
            var st2 := Run(C, st1, after);
            && reply == Done(C.PublicKey(SecretSum(C, ds)))
            && key in st2.keys
            && st2.keys[key] == KeyInfo(reply.value, 1 + Rotations(C, st1, after, key))
            && Sign(C, st2, key, msg, nonce) == SignAnswer(C, st2, SecretSum(C, ds), msg, nonce)
            && (ResponderCount(st2.nodes, st2.timeoutMs) >= t && !(C.strict && SecretSum(C, ds) == C.zero) ==>
                  && Sign(C, st2, key, msg, nonce).Done?
                  && C.Verify(reply.value, msg, Sign(C, st2, key, msg, nonce).value))
  {
    var init := Initial<S>(t, n, timeoutMs);
    assert Shape(init);
    RunDims(C, init, before);
    SignAfterKeygen(C, Run(C, init, before), key, ds, after, msg, nonce);
  }

  lemma SignAfterKeygen<S(!new), G(!new)>(
      C: Curve<S, G>, st0: ClusterState<S>, key: string, ds: seq<Dealing<S>>, after: seq<Event<S>>, msg: Bytes,
      nonce: S)
    requires Lawful(C) && Shape(st0) && st0.n < C.order && C.Elem(nonce)
    requires EventOk(C, st0, KeygenEvent(key, ds)) && Keygen(C, st0, key, ds).1.Done?
    requires RunOk(C, Keygen(C, st0, key, ds).0, after)
    ensures var (st1, reply) := Keygen(C, st0, key, ds);
            var st2 := Run(C, st1, after);
            && reply == Done(C.PublicKey(SecretSum(C, ds)))
            && st2.t == st0.t
            && key in st2.keys
            && st2.keys[key] == KeyInfo(reply.value, 1 + Rotations(C, st1, after, key))
            && Sign(C, st2, key, msg, nonce) == SignAnswer(C, st2, SecretSum(C, ds), msg, nonce)
            && (ResponderCount(st2.nodes, st2.timeoutMs) >= st2.t && !(C.strict && SecretSum(C, ds) == C.zero) ==>
                  && Sign(C, st2, key, msg, nonce).Done?
                  && C.Verify(reply.value, msg, Sign(C, st2, key, msg, nonce).value))
  {
    var st1 := Keygen(C, st0, key, ds).0;
    KeygenShape(C, st0, key, ds);
    AggregateIsSum(C, ds);
    KeygenSecret(C, st0, key, ds);
    RunKeepsKey(C, st1, after, key, SecretSum(C, ds));
    SignOutcome(C, Run(C, st1, after), key, SecretSum(C, ds), msg, nonce);
  }

  lemma {:induction false} RunDims<S(!new), G(!new)>(C: Curve<S, G>, st: ClusterState<S>, es: seq<Event<S>>)
    requires Shape(st) && RunOk(C, st, es)
    ensures Shape(Run(C, st, es)) && Run(C, st, es).t == st.t && Run(C, st, es).n == st.n
    decreases |es|
  {
    if es != [] {
      NextShape(C, st, es[0]);
      RunDims(C, Next(C, st, es[0]), es[1..]);
    }
  }
}

/**
 A signing round that overlaps a refresh. No lock spans the share updates, so
 the round may see some nodes before their update and some after it; `post`
 says which, and may be any pattern.
 */
module TornRefresh {
  import opened Wrappers
  import opened Curves
  import opened FieldAlgebra
  import opened Polynomials
  import opened Shamir
  import opened ClusterSpec
  import opened Dkg
  import opened ClusterRuns
  import opened MixedEpochs

  // ---------------------------------------------------------------- the interleaving

  /** The nodes while a refresh writes them and a round reads them, each in node order. */
  datatype Watch<T> = Watch(cells: seq<T>, written: nat, read: seq<T>)

  /** One turn: the refresh writes its next node, or the round reads its next node. */
  function Turn<T>(w: Watch<T>, write: bool, refreshed: seq<T>): Watch<T> {
    if write
    then if w.written < |w.cells| && w.written < |refreshed|
         then w.(cells := w.cells[w.written := refreshed[w.written]], written := w.written + 1)
         else w
    else if |w.read| < |w.cells| then w.(read := w.read + [w.cells[|w.read|]]) else w
  }

  /** The turns of a schedule; `true` is a write. */
  function RunWatch<T>(cells: seq<T>, refreshed: seq<T>, schedule: seq<bool>): Watch<T> {
    if schedule == [] then Watch(cells, 0, [])
    else Turn(RunWatch(cells, refreshed, schedule[..|schedule| - 1]), schedule[|schedule| - 1], refreshed)
  }

  /** How far the refresh has written, and what the round has read: whether each node was written first. */
  datatype Progress = Progress(written: nat, post: seq<bool>)

  function Note(n: nat, p: Progress, write: bool): Progress {
    if write then (if p.written < n then p.(written := p.written + 1) else p)
    else if |p.post| < n then p.(post := p.post + [p.written > |p.post|]) else p
  }

  function Observe(n: nat, schedule: seq<bool>): Progress {
    if schedule == [] then Progress(0, [])
    else Note(n, Observe(n, schedule[..|schedule| - 1]), schedule[|schedule| - 1])
  }

  lemma ObserveSnoc(n: nat, schedule: seq<bool>, write: bool)
    ensures Observe(n, schedule + [write]) == Note(n, Observe(n, schedule), write)
  {
    assert (schedule + [write])[..|schedule|] == schedule;
  }

  ghost predicate Tracks<T>(cells: seq<T>, refreshed: seq<T>, w: Watch<T>, p: Progress)
    requires |refreshed| == |cells|
  {
    && w.written == p.written <= |cells| && |w.read| == |p.post| <= |cells| == |w.cells|
    && (forall i :: 0 <= i < |cells| ==> w.cells[i] == if i < p.written then refreshed[i] else cells[i])
    && (forall i :: 0 <= i < |w.read| ==> w.read[i] == if p.post[i] then refreshed[i] else cells[i])
  }

  lemma TurnTracks<T>(cells: seq<T>, refreshed: seq<T>, w: Watch<T>, p: Progress, write: bool)
    requires |refreshed| == |cells| && Tracks(cells, refreshed, w, p)
    ensures Tracks(cells, refreshed, Turn(w, write, refreshed), Note(|cells|, p, write))
  {
    var w', p' := Turn(w, write, refreshed), Note(|cells|, p, write);
    forall i | 0 <= i < |w'.read| ensures w'.read[i] == if p'.post[i] then refreshed[i] else cells[i] {
      if i < |w.read| { assert w'.read[i] == w.read[i] && p'.post[i] == p.post[i]; }
    }
  }

  /** Whichever of the two versions of each node the round read, `Observe` tells. */
  lemma {:induction false} WatchOutcome<T>(cells: seq<T>, refreshed: seq<T>, schedule: seq<bool>)
    requires |refreshed| == |cells|
    ensures Tracks(cells, refreshed, RunWatch(cells, refreshed, schedule), Observe(|cells|, schedule))
  {
    if schedule != [] {
      var rest, write := schedule[..|schedule| - 1], schedule[|schedule| - 1];
      WatchOutcome(cells, refreshed, rest);
      TurnTracks(cells, refreshed, RunWatch(cells, refreshed, rest), Observe(|cells|, rest), write);
    }
  }

  function Weave(post: seq<bool>): seq<bool> {
    if post == [] then []
    else Weave(post[..|post| - 1]) + [post[|post| - 1]] + [!post[|post| - 1]]
  }

  /** Every pattern occurs: some order of the writes and reads shows the round exactly this one. */
  lemma {:induction false} EveryPatternSeen(n: nat, post: seq<bool>)
    requires |post| <= n
    ensures Observe(n, Weave(post)) == Progress(|post|, post)
  {
    if post != [] {
      var k := |post| - 1;
      var before, a := Weave(post[..k]), post[k];
      EveryPatternSeen(n, post[..k]);
      PairSeen(n, before, post[..k], a);
      assert post[..k] + [a] == post;
    }
  }

  lemma PairSeen(n: nat, before: seq<bool>, post: seq<bool>, a: bool)
    requires |post| < n && Observe(n, before) == Progress(|post|, post)
    ensures Observe(n, before + [a] + [!a]) == Progress(|post| + 1, post + [a])
  {
    ObserveSnoc(n, before, a);
    ObserveSnoc(n, before + [a], !a);
  }

  /** The nodes as the overlapping round sees them. */
  function Seen<S(!new), G(!new)>(
      C: Curve<S, G>, st: ClusterState<S>, key: string, random: seq<seq<S>>, post: seq<bool>): (r: seq<NodeState<S>>)
    requires |st.nodes| == st.n == |post| && key in st.keys && AllHold(st.nodes, key)
    ensures |r| == st.n
  {
    var st' := RefreshKnown(C, st, key, random);
    seq(st.n, i requires 0 <= i < st.n => if post[i] then st'.nodes[i] else st.nodes[i])
  }

  /** Node i is seen holding its share of c (before the refresh) or of c + z (after it). */
  ghost predicate SeenAt<S(!new), G(!new)>(
      C: Curve<S, G>, nodes: seq<NodeState<S>>, key: string, c: seq<S>, z: seq<S>, post: seq<bool>, i: nat)
    requires i < |nodes| <= |post|
  {
    && nodes[i].index == i + 1 && key in nodes[i].shares
    && Share(i + 1, nodes[i].shares[key]) == EpochShare(C, c, z, i + 1, post[i])
  }

  /** What the refresh leaves at node i. */
  lemma RefreshedNode<S(!new), G(!new)>(C: Curve<S, G>, st: ClusterState<S>, key: string, random: seq<seq<S>>, i: nat)
    requires |st.nodes| == st.n && key in st.keys && AllHold(st.nodes, key) && i < st.n
    ensures RefreshKnown(C, st, key, random).nodes[i] ==
            st.nodes[i].Put(key, C.Add(st.nodes[i].shares[key], ShareSum(C, ZeroDeals(C, random), i + 1)))
  {
  }

  lemma SeenShares<S(!new), G(!new)>(
      C: Curve<S, G>, st: ClusterState<S>, key: string, random: seq<seq<S>>, post: seq<bool>, c: seq<S>, i: nat)
    requires FieldLaws(C) && Shape(st) && key in st.keys && SharedBy(C, st, key, c)
    requires |post| == st.n && DealingsOk(C, st, ZeroDeals(C, random)) && i < st.n
    ensures SeenAt(C, Seen(C, st, key, random, post), key, c, SumPoly(C, st.t, ZeroDeals(C, random)), post, i)
  {
    var ds, before := ZeroDeals(C, random), st.nodes[i];
    assert before.index == i + 1 && before.shares[key] == Eval(C, c, C.From(i + 1));
    if post[i] {
      RefreshedNode(C, st, key, random, i);
      assert Seen(C, st, key, random, post)[i] == before.Put(key, C.Add(before.shares[key], ShareSum(C, ds, i + 1)));
      ShareSumIsEval(C, st.t, ds, i + 1);
    } else {
      assert Seen(C, st, key, random, post)[i] == before;
    }
  }

  /** The nodes that answer a round, as indices. */
  function Responding<S>(nodes: seq<NodeState<S>>, timeoutMs: nat): (r: seq<nat>) {
    if nodes == [] then []
    else
      var rest, last := Responding(nodes[..|nodes| - 1], timeoutMs), nodes[|nodes| - 1];
      if last.Responds(timeoutMs) then rest + [last.index] else rest
  }

  lemma {:induction false} RespondingIndices<S(!new)>(nodes: seq<NodeState<S>>, timeoutMs: nat)
    requires forall i :: 0 <= i < |nodes| ==> nodes[i].index == i + 1
    ensures var r := Responding(nodes, timeoutMs);
            && |r| == ResponderCount(nodes, timeoutMs) && Distinct(r)
            && forall i :: 0 <= i < |r| ==> 0 < r[i] <= |nodes|
  {
    if nodes != [] {
      var k := |nodes| - 1;
      RespondingIndices(nodes[..k], timeoutMs);
      var rest, r := Responding(nodes[..k], timeoutMs), Responding(nodes, timeoutMs);
      assert forall i :: 0 <= i < |rest| ==> r[i] == rest[i];
    }
  }

  /** Which side of the refresh each listed node was seen on. */
  function Sides(post: seq<bool>, indices: seq<nat>): (r: seq<bool>)
    ensures |r| == |indices|
  {
    seq(|indices|, i requires 0 <= i < |indices| => 0 < indices[i] <= |post| && post[indices[i] - 1])
  }

  lemma MixedAppend<S(!new), G(!new)>(C: Curve<S, G>, c: seq<S>, z: seq<S>, rest: seq<nat>, i: nat, post: seq<bool>)
    requires i < |post|
    ensures var r := rest + [i + 1];
            Mixed(C, c, z, r, Sides(post, r)) ==
              Mixed(C, c, z, rest, Sides(post, rest)) + [EpochShare(C, c, z, i + 1, post[i])]
  {
  }

  lemma {:induction false} CollectMixed<S(!new), G(!new)>(
      C: Curve<S, G>, nodes: seq<NodeState<S>>, timeoutMs: nat, key: string, c: seq<S>, z: seq<S>, post: seq<bool>)
    requires |post| >= |nodes|
    requires forall i :: 0 <= i < |nodes| ==> SeenAt(C, nodes, key, c, z, post, i)
    ensures var r := Responding(nodes, timeoutMs);
            Collect(nodes, timeoutMs, key) == Mixed(C, c, z, r, Sides(post, r))
  {
    if nodes != [] {
      var k := |nodes| - 1;
      forall i | 0 <= i < k ensures SeenAt(C, nodes[..k], key, c, z, post, i) {
        assert SeenAt(C, nodes, key, c, z, post, i);
      }
      CollectMixed(C, nodes[..k], timeoutMs, key, c, z, post);
      assert SeenAt(C, nodes, key, c, z, post, k);
      MixedAppend(C, c, z, Responding(nodes[..k], timeoutMs), k, post);
    }
  }

  /** What t of the collected shares combine to. */
  lemma MixedRound<S(!new), G(!new)>(
      C: Curve<S, G>, nodes: seq<NodeState<S>>, timeoutMs: nat, key: string, c: seq<S>, z: seq<S>, post: seq<bool>)
    requires FieldLaws(C) && |nodes| < C.order && |post| == |nodes|
    requires forall i :: 0 <= i < |nodes| ==> SeenAt(C, nodes, key, c, z, post, i)
    requires C.AllElem(c) && 1 <= |c| <= ResponderCount(nodes, timeoutMs)
    ensures |Collect(nodes, timeoutMs, key)| == |Responding(nodes, timeoutMs)| == ResponderCount(nodes, timeoutMs)
    ensures var used := Responding(nodes, timeoutMs)[..|c|];
            && NodeSet(C, used)
            && Collect(nodes, timeoutMs, key)[..|c|] == Mixed(C, c, z, used, Sides(post, used))
            && Recovered(C, Collect(nodes, timeoutMs, key)[..|c|]) ==
              Some(C.Add(c[0], Drift(C, z, used, Sides(post, used))))
  {
    forall i | 0 <= i < |nodes| ensures nodes[i].index == i + 1 {
      assert SeenAt(C, nodes, key, c, z, post, i);
    }
    RespondingIndices(nodes, timeoutMs);
    CollectMixed(C, nodes, timeoutMs, key, c, z, post);
    var all := Responding(nodes, timeoutMs);
    var used := all[..|c|];
    assert Sides(post, used) == Sides(post, all)[..|c|];
    assert Mixed(C, c, z, all, Sides(post, all))[..|c|] == Mixed(C, c, z, used, Sides(post, used));
    MixedReconstruct(C, c, z, used, Sides(post, used));
  }

  /**
   The scalar an overlapping round signs with is the group secret plus the
   drift of the zero-sharing over the responders already refreshed; it is the
   group secret exactly when that drift is zero, which it always is when the
   first t responders were all seen on the same side of the refresh.
   */
  lemma TornSign<S(!new), G(!new)>(
      C: Curve<S, G>, st: ClusterState<S>, key: string, random: seq<seq<S>>, post: seq<bool>, c: seq<S>)
    requires FieldLaws(C) && Shape(st) && st.n < C.order && key in st.keys && SharedBy(C, st, key, c)
    requires |post| == st.n && DealingsOk(C, st, ZeroDeals(C, random))
    requires ResponderCount(Seen(C, st, key, random, post), st.timeoutMs) >= st.t
    ensures |Responding(Seen(C, st, key, random, post), st.timeoutMs)| >= st.t
    ensures |Collect(Seen(C, st, key, random, post), st.timeoutMs, key)| >= st.t
    ensures var nodes, z := Seen(C, st, key, random, post), SumPoly(C, st.t, ZeroDeals(C, random));
            var used := Responding(nodes, st.timeoutMs)[..st.t];
            var sides := Sides(post, used);
            var got := Recovered(C, Collect(nodes, st.timeoutMs, key)[..st.t]);
            && got == Some(C.Add(c[0], Drift(C, z, used, sides)))
            && (got == Some(c[0]) <==> Drift(C, z, used, sides) == C.zero)
            && (Uniform(sides) ==> got == Some(c[0]))
  {
    var nodes, z := Seen(C, st, key, random, post), SumPoly(C, st.t, ZeroDeals(C, random));
    forall i | 0 <= i < st.n ensures SeenAt(C, nodes, key, c, z, post, i) {
      SeenShares(C, st, key, random, post, c, i);
    }
    MixedRound(C, nodes, st.timeoutMs, key, c, z, post);
    var used := Responding(nodes, st.timeoutMs)[..st.t];
    var sides := Sides(post, used);
    DriftZero(C, c[0], z, used, sides);
    SumPolySecret(C, st.t, ZeroDeals(C, random));
    ZeroSecretSum(C, ZeroDeals(C, random));
    if Uniform(sides) {
      UnmixedReconstruct(C, c, z, used, sides);
    }
  }

  lemma DriftZero<S(!new), G(!new)>(C: Curve<S, G>, secret: S, z: seq<S>, used: seq<nat>, sides: seq<bool>)
    requires FieldLaws(C) && C.Elem(secret) && |sides| == |used|
    ensures C.Add(secret, Drift(C, z, used, sides)) == secret <==> Drift(C, z, used, sides) == C.zero
  {
    var d := Drift(C, z, used, sides);
    Lagrange.CombineElem(C, C.zero, Points(C, used), Deltas(C, z, used, sides), |used|);
    Unit(C, secret);
    if C.Add(secret, d) == secret {
      Ring(C, secret, d, d);
      AddCancel(C, d, C.zero, secret);
    }
  }

  /** A refresh moves no flag: who responds does not depend on what the round sees of it. */
  lemma {:induction false} RespondingSame<S(!new)>(a: seq<NodeState<S>>, b: seq<NodeState<S>>, timeoutMs: nat)
    requires |a| == |b|
    requires forall i :: 0 <= i < |a| ==>
             a[i].index == b[i].index && a[i].online == b[i].online && a[i].delayMs == b[i].delayMs
    ensures Responding(a, timeoutMs) == Responding(b, timeoutMs)
            && ResponderCount(a, timeoutMs) == ResponderCount(b, timeoutMs)
  {
    if a != [] { RespondingSame(a[..|a| - 1], b[..|b| - 1], timeoutMs); }
  }

  /** The nodes whose shares the round combines. */
  function Used<S>(st: ClusterState<S>): seq<nat>
    requires |Responding(st.nodes, st.timeoutMs)| >= st.t
  {
    Responding(st.nodes, st.timeoutMs)[..st.t]
  }

  /** What an overlapping round recovers. */
  ghost function TornScalar<S(!new), G(!new)>(
      C: Curve<S, G>, st: ClusterState<S>, key: string, random: seq<seq<S>>, post: seq<bool>): Option<S>
    requires |st.nodes| == st.n == |post| && key in st.keys && AllHold(st.nodes, key)
    requires |Collect(Seen(C, st, key, random, post), st.timeoutMs, key)| >= st.t
  {
    Recovered(C, Collect(Seen(C, st, key, random, post), st.timeoutMs, key)[..st.t])
  }

  /** A state and a pattern for which the round has its quorum. */
  ghost predicate Overlap<S(!new), G(!new)>(
      C: Curve<S, G>, st: ClusterState<S>, key: string, post: seq<bool>, c: seq<S>)
  {
    && FieldLaws(C) && Shape(st) && st.n < C.order && key in st.keys && SharedBy(C, st, key, c) && |post| == st.n
    && ResponderCount(st.nodes, st.timeoutMs) >= st.t
  }

  lemma OverlapQuorum<S(!new), G(!new)>(
      C: Curve<S, G>, st: ClusterState<S>, key: string, random: seq<seq<S>>, post: seq<bool>, c: seq<S>)
    requires Overlap(C, st, key, post, c) && DealingsOk(C, st, ZeroDeals(C, random))
    ensures |Responding(st.nodes, st.timeoutMs)| >= st.t
    ensures |Collect(Seen(C, st, key, random, post), st.timeoutMs, key)| >= st.t
    ensures Drifts(C, st, key, random, post, c)
  {
    var nodes := Seen(C, st, key, random, post);
    RespondingIndices(st.nodes, st.timeoutMs);
    RespondingSame(nodes, st.nodes, st.timeoutMs);
    TornSign(C, st, key, random, post, c);
  }

  /** The recovered scalar is the secret plus the drift over the nodes combined. */
  ghost predicate Drifts<S(!new), G(!new)>(
      C: Curve<S, G>, st: ClusterState<S>, key: string, random: seq<seq<S>>, post: seq<bool>, c: seq<S>)
    requires |st.nodes| == st.n == |post| && key in st.keys && AllHold(st.nodes, key) && c != []
    requires forall d :: 0 <= d < |random| ==> |random[d]| + 1 == st.t
  {
    && |Responding(st.nodes, st.timeoutMs)| >= st.t
    && |Collect(Seen(C, st, key, random, post), st.timeoutMs, key)| >= st.t
    && TornScalar(C, st, key, random, post) ==
       Some(C.Add(c[0], Drift(C, SumPoly(C, st.t, ZeroDeals(C, random)), Used(st), Sides(post, Used(st)))))
  }

  /**
   When the combined nodes were seen on different sides of the refresh, the
   dealers' random choices can make the round recover any scalar at all.
   */
  lemma TornReachesAll<S(!new), G(!new)>(
      C: Curve<S, G>, st: ClusterState<S>, key: string, post: seq<bool>, c: seq<S>,
      result: S) returns (random: seq<seq<S>>)
    requires Overlap(C, st, key, post, c) && C.Elem(result)
    requires |Responding(st.nodes, st.timeoutMs)| >= st.t && !Uniform(Sides(post, Used(st)))
    ensures DealingsOk(C, st, ZeroDeals(C, random))
    ensures |Collect(Seen(C, st, key, random, post), st.timeoutMs, key)| >= st.t
    ensures TornScalar(C, st, key, random, post) == Some(result)
  {
    RespondingIndices(st.nodes, st.timeoutMs);
    var z := MixedZero(C, c, Used(st), Sides(post, Used(st)), result);
    random := Alone(C, st.n, z);
    LoneRefresh(C, st, key, post, c, z);
  }

  /** A zero-sharing under which a mixed set combines to `result`. */
  lemma MixedZero<S(!new), G(!new)>(
      C: Curve<S, G>, c: seq<S>, used: seq<nat>, sides: seq<bool>, result: S) returns (z: seq<S>)
    requires FieldLaws(C) && C.AllElem(c) && NodeSet(C, used) && C.Elem(result) && |sides| == |used| == |c|
    requires !Uniform(sides)
    ensures |z| == |c| && C.AllElem(z) && z[0] == C.zero
    ensures C.Add(c[0], Drift(C, z, used, sides)) == result
  {
    var i, j :| 0 <= i < j < |sides| && sides[i] != sides[j];
    MixedReachesAll(C, c, used, sides, if sides[i] then j else i, if sides[i] then i else j, result);
    z :| |z| == |c| && C.AllElem(z) && z[0] == C.zero && Recovered(C, Mixed(C, c, z, used, sides)) == Some(result);
    MixedReconstruct(C, c, z, used, sides);
  }

  /** A refresh in which one dealer deals z and the others nothing. */
  lemma LoneRefresh<S(!new), G(!new)>(
      C: Curve<S, G>, st: ClusterState<S>, key: string, post: seq<bool>, c: seq<S>, z: seq<S>)
    requires Overlap(C, st, key, post, c) && |z| == st.t && C.AllElem(z) && z[0] == C.zero
    ensures var random := Alone(C, st.n, z);
            && DealingsOk(C, st, ZeroDeals(C, random))
            && |Responding(st.nodes, st.timeoutMs)| >= st.t
            && |Collect(Seen(C, st, key, random, post), st.timeoutMs, key)| >= st.t
            && TornScalar(C, st, key, random, post) == Some(C.Add(c[0], Drift(C, z, Used(st), Sides(post, Used(st)))))
  {
    AloneSums(C, st.n, z);
    OverlapQuorum(C, st, key, Alone(C, st.n, z), post, c);
  }

  ghost predicate AlwaysSecret<S(!new), G(!new)>(
      C: Curve<S, G>, st: ClusterState<S>, key: string, post: seq<bool>, c: seq<S>)
    requires |st.nodes| == st.n == |post| && key in st.keys && AllHold(st.nodes, key) && c != []
  {
    forall random :: DealingsOk(C, st, ZeroDeals(C, random)) ==> SecretAt(C, st, key, random, post, c)
  }

  ghost predicate SecretAt<S(!new), G(!new)>(
      C: Curve<S, G>, st: ClusterState<S>, key: string, random: seq<seq<S>>, post: seq<bool>, c: seq<S>)
    requires |st.nodes| == st.n == |post| && key in st.keys && AllHold(st.nodes, key) && c != []
  {
    && |Collect(Seen(C, st, key, random, post), st.timeoutMs, key)| >= st.t
    && TornScalar(C, st, key, random, post) == Some(c[0])
  }

  lemma UniformZero<S(!new), G(!new)>(
      C: Curve<S, G>, st: ClusterState<S>, key: string, random: seq<seq<S>>, post: seq<bool>, c: seq<S>)
    requires Overlap(C, st, key, post, c) && DealingsOk(C, st, ZeroDeals(C, random))
    requires |Responding(st.nodes, st.timeoutMs)| >= st.t && Uniform(Sides(post, Used(st)))
    ensures Drift(C, SumPoly(C, st.t, ZeroDeals(C, random)), Used(st), Sides(post, Used(st))) == C.zero
  {
    var ds := ZeroDeals(C, random);
    SumPolySecret(C, st.t, ds);
    ZeroSecretSum(C, ds);
    RespondingIndices(st.nodes, st.timeoutMs);
    UniformDrift(C, SumPoly(C, st.t, ds), Used(st), Sides(post, Used(st)));
  }

  lemma UniformSecret<S(!new), G(!new)>(
      C: Curve<S, G>, st: ClusterState<S>, key: string, random: seq<seq<S>>, post: seq<bool>, c: seq<S>)
    requires Overlap(C, st, key, post, c) && DealingsOk(C, st, ZeroDeals(C, random))
    requires |Responding(st.nodes, st.timeoutMs)| >= st.t && Uniform(Sides(post, Used(st)))
    ensures SecretAt(C, st, key, random, post, c)
  {
    OverlapQuorum(C, st, key, random, post, c);
    UniformZero(C, st, key, random, post, c);
    Unit(C, c[0]);
  }

  /**
   Exactly when an overlapping round is sure to sign with the group secret: when
   the t nodes whose shares it combines were all seen on the same side of the
   refresh.
   */
  lemma TornExact<S(!new), G(!new)>(C: Curve<S, G>, st: ClusterState<S>, key: string, post: seq<bool>, c: seq<S>)
    requires Overlap(C, st, key, post, c)
    ensures |Responding(st.nodes, st.timeoutMs)| >= st.t
    ensures AlwaysSecret(C, st, key, post, c) <==> Uniform(Sides(post, Used(st)))
  {
    RespondingIndices(st.nodes, st.timeoutMs);
    if Uniform(Sides(post, Used(st))) {
      forall random | DealingsOk(C, st, ZeroDeals(C, random)) ensures SecretAt(C, st, key, random, post, c) {
        UniformSecret(C, st, key, random, post, c);
      }
    } else {
      AddOne(C, c[0]);
      Closed(C, c[0], C.one);
      var random := TornReachesAll(C, st, key, post, c, C.Add(c[0], C.one));
      assert !SecretAt(C, st, key, random, post, c);
    }
  }

  // ---------------------------------------------------------------- from the interleaving

  /** What the round has read after the turns of a schedule. */
  function ReadNodes<S(!new), G(!new)>(
      C: Curve<S, G>, st: ClusterState<S>, key: string, random: seq<seq<S>>, schedule: seq<bool>): seq<NodeState<S>>
    requires |st.nodes| == st.n && key in st.keys && AllHold(st.nodes, key)
  {
    RunWatch(st.nodes, RefreshKnown(C, st, key, random).nodes, schedule).read
  }

  /** A round that has read every node has seen the pattern that `Observe` tells. */
  lemma ReadIsSeen<S(!new), G(!new)>(
      C: Curve<S, G>, st: ClusterState<S>, key: string, random: seq<seq<S>>, schedule: seq<bool>)
    requires |st.nodes| == st.n && key in st.keys && AllHold(st.nodes, key) && |Observe(st.n, schedule).post| == st.n
    ensures ReadNodes(C, st, key, random, schedule) == Seen(C, st, key, random, Observe(st.n, schedule).post)
  {
    WatchOutcome(st.nodes, RefreshKnown(C, st, key, random).nodes, schedule);
  }

  /** From what it read, the round recovers the group secret. */
  ghost predicate ReadsSecret<S(!new), G(!new)>(
      C: Curve<S, G>, st: ClusterState<S>, key: string, random: seq<seq<S>>, schedule: seq<bool>, c: seq<S>)
    requires |st.nodes| == st.n && key in st.keys && AllHold(st.nodes, key) && c != []
  {
    var collected := Collect(ReadNodes(C, st, key, random, schedule), st.timeoutMs, key);
    |collected| >= st.t && Recovered(C, collected[..st.t]) == Some(c[0])
  }

  /**
   The same from the interleaving itself: a round that has read every node among
   the turns of a schedule is sure to recover the group secret, whatever the
   dealers draw, exactly when the schedule put its reads of the t nodes it
   combines on the same side of their writes.
   */
  lemma ScheduleExact<S(!new), G(!new)>(
      C: Curve<S, G>, st: ClusterState<S>, key: string, schedule: seq<bool>, c: seq<S>)
    requires Overlap(C, st, key, Observe(st.n, schedule).post, c)
    ensures |Responding(st.nodes, st.timeoutMs)| >= st.t
    ensures (forall random :: DealingsOk(C, st, ZeroDeals(C, random)) ==> ReadsSecret(C, st, key, random, schedule, c))
            <==> Uniform(Sides(Observe(st.n, schedule).post, Used(st)))
  {
    var post := Observe(st.n, schedule).post;
    TornExact(C, st, key, post, c);
    forall random ensures ReadsSecret(C, st, key, random, schedule, c) <==> SecretAt(C, st, key, random, post, c) {
      ReadIsSeen(C, st, key, random, schedule);
    }
  }
}

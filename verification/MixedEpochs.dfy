/**
 What the combiner returns when some shares were taken before a refresh and
 some after it, which is what a signing round that overlaps the share updates
 can collect.
 */
module MixedEpochs {
  import opened Wrappers
  import opened Curves
  import opened FieldAlgebra
  import opened Polynomials
  import opened Lagrange
  import opened Shamir

  /** Node `index`'s share, after the refresh when `post`, before it otherwise. */
  function EpochShare<S(!new), G(!new)>(C: Curve<S, G>, f: seq<S>, z: seq<S>, index: nat, post: bool): Share<S> {
    var x := C.From(index);
    Share(index, if post then C.Add(Eval(C, f, x), Eval(C, z, x)) else Eval(C, f, x))
  }

  function Mixed<S(!new), G(!new)>(
      C: Curve<S, G>, f: seq<S>, z: seq<S>, indices: seq<nat>, post: seq<bool>): (r: seq<Share<S>>)
    requires |post| == |indices|
    ensures |r| == |indices|
  {
    seq(|indices|, i requires 0 <= i < |indices| => EpochShare(C, f, z, indices[i], post[i]))
  }

  /** The zero-sharing's contribution: its value at the refreshed nodes, nothing at the others. */
  function Deltas<S(!new), G(!new)>(C: Curve<S, G>, z: seq<S>, indices: seq<nat>, post: seq<bool>): (r: seq<S>)
    requires |post| == |indices|
    ensures |r| == |indices|
  {
    seq(|indices|, i requires 0 <= i < |indices| => if post[i] then Eval(C, z, C.From(indices[i])) else C.zero)
  }

  /** The sum over refreshed nodes of delta times Lagrange weight. */
  function Drift<S(!new), G(!new)>(C: Curve<S, G>, z: seq<S>, indices: seq<nat>, post: seq<bool>): S
    requires |post| == |indices|
  {
    Combine(C, C.zero, Points(C, indices), Deltas(C, z, indices, post), |indices|)
  }

  ghost predicate NodeSet<S(!new), G(!new)>(C: Curve<S, G>, indices: seq<nat>) {
    Distinct(indices) && forall i :: 0 <= i < |indices| ==> 0 < indices[i] < C.order
  }

  lemma PointsDistinct<S(!new), G(!new)>(C: Curve<S, G>, indices: seq<nat>)
    requires FieldLaws(C) && NodeSet(C, indices)
    ensures C.AllElem(Points(C, indices)) && Distinct(Points(C, indices))
    ensures forall i :: 0 <= i < |indices| ==> Points(C, indices)[i] != C.zero
  {
    var xs := Points(C, indices);
    forall i | 0 <= i < |xs| ensures C.Elem(xs[i]) && xs[i] != C.zero {
      FromIsElem(C, indices[i]);
      IndexInjective(C, indices[i], 0);
    }
    forall i, j | 0 <= i < j < |xs| ensures xs[i] != xs[j] {
      IndexInjective(C, indices[i], indices[j]);
    }
  }

  /** Combining a mix of t old and new shares returns the secret plus the drift. */
  lemma MixedReconstruct<S(!new), G(!new)>(C: Curve<S, G>, f: seq<S>, z: seq<S>, indices: seq<nat>, post: seq<bool>)
    requires FieldLaws(C) && C.AllElem(f) && NodeSet(C, indices)
    requires |post| == |indices| && 1 <= |f| <= |indices|
    ensures Recovered(C, Mixed(C, f, z, indices, post)) == Some(C.Add(f[0], Drift(C, z, indices, post)))
  {
    var shares, xs := Mixed(C, f, z, indices, post), Points(C, indices);
    assert Xs(C, shares) == xs;
    ReconstructFailure(C, shares);
    var before := seq(|xs|, i requires 0 <= i < |xs| => Eval(C, f, xs[i]));
    var deltas := Deltas(C, z, indices, post);
    assert Ys(shares) == Plus(C, before, deltas) by {
      forall i | 0 <= i < |xs| ensures Ys(shares)[i] == C.Add(before[i], deltas[i]) {
        EvalElem(C, f, xs[i]);
        Unit(C, before[i]);
      }
    }
    CombinePlus(C, C.zero, xs, before, deltas, |xs|);
    PointsDistinct(C, indices);
    CombineIsEval(C, xs, before, f, C.zero);
    EvalAtZero(C, f);
  }

  /** A sharing of zero by t coefficients. */
  ghost predicate ZeroSharing<S(!new), G(!new)>(C: Curve<S, G>, z: seq<S>, t: nat) {
    |z| == t && t > 0 && C.AllElem(z) && z[0] == C.zero
  }

  ghost predicate Uniform(sides: seq<bool>) {
    forall i, j :: 0 <= i < j < |sides| ==> sides[i] == sides[j]
  }

  /** An unmixed set of shares, all old or all new, always returns the secret. */
  lemma UnmixedReconstruct<S(!new), G(!new)>(C: Curve<S, G>, f: seq<S>, z: seq<S>, indices: seq<nat>, post: seq<bool>)
    requires FieldLaws(C) && C.AllElem(f) && C.AllElem(z) && NodeSet(C, indices)
    requires |post| == |indices| && 1 <= |f| <= |indices| && 1 <= |z| <= |indices|
    requires z[0] == C.zero
    requires Uniform(post)
    ensures Drift(C, z, indices, post) == C.zero
    ensures Recovered(C, Mixed(C, f, z, indices, post)) == Some(f[0])
  {
    var xs, deltas := Points(C, indices), Deltas(C, z, indices, post);
    PointsDistinct(C, indices);
    if post[0] {
      CombineIsEval(C, xs, deltas, z, C.zero);
      EvalAtZero(C, z);
    } else {
      forall i | 0 <= i < |xs| ensures deltas[i] == Eval(C, [], xs[i]) {
        assert post[0] == post[i];
      }
      CombineIsEval(C, xs, deltas, [], C.zero);
    }
    MixedReconstruct(C, f, z, indices, post);
    Unit(C, f[0]);
  }

  /** Uniformly kept, a zero-sharing does not move the recovered scalar. */
  lemma UniformDrift<S(!new), G(!new)>(C: Curve<S, G>, z: seq<S>, indices: seq<nat>, kept: seq<bool>)
    requires FieldLaws(C) && NodeSet(C, indices) && |kept| == |indices| && ZeroSharing(C, z, |indices|) && Uniform(kept)
    ensures Drift(C, z, indices, kept) == C.zero
  {
    UnmixedReconstruct(C, z, z, indices, kept);
  }

  /** A weight at zero is nonzero, because no node has index zero. */
  lemma WeightNonzero<S(!new), G(!new)>(C: Curve<S, G>, indices: seq<nat>, j: nat)
    requires FieldLaws(C) && NodeSet(C, indices) && j < |indices|
    ensures Weight(C, C.zero, Points(C, indices), j) != C.zero
  {
    var xs := Points(C, indices);
    PointsDistinct(C, indices);
    var num, den := Gap(C, C.zero, xs, j, |xs|), Gap(C, xs[j], xs, j, |xs|);
    GapZero(C, C.zero, xs, j, |xs|);
    GapZero(C, xs[j], xs, j, |xs|);
    GapElem(C, C.zero, xs, j, |xs|);
    GapElem(C, xs[j], xs, j, |xs|);
    InvertCases(C, den);
    var inv := C.Invert(den).value;
    MulZero(C, den);
    NoZeroDivisors(C, num, inv);
  }

  /** The zero-sharing that moves a mix with old node m and new node k by exactly `target`. */
  function Skew<S(!new), G(!new)>(C: Curve<S, G>, indices: seq<nat>, m: nat, k: nat, target: S): (z: seq<S>)
    requires m < |indices| && k < |indices| && m != k
    ensures |z| == |indices|
  {
    var xs := Points(C, indices);
    var step := match C.Invert(Weight(C, C.zero, xs, k)) case Some(i) => C.Mul(target, i) case None => C.zero;
    Interpolant(C, xs[m := C.zero], Zeros(C, |xs|)[k := step], |xs|)
  }

  /** Skew is a zero-sharing whose only nonzero value among the nodes other than m is at k. */
  lemma SkewValues<S(!new), G(!new)>(C: Curve<S, G>, indices: seq<nat>, m: nat, k: nat, target: S)
    requires FieldLaws(C) && NodeSet(C, indices) && C.Elem(target)
    requires m < |indices| && k < |indices| && m != k
    ensures var z, xs := Skew(C, indices, m, k, target), Points(C, indices);
            && C.AllElem(z) && z[0] == C.zero
            && C.Mul(Eval(C, z, xs[k]), Weight(C, C.zero, xs, k)) == target
            && forall i :: 0 <= i < |xs| && i != m && i != k ==> Eval(C, z, xs[i]) == C.zero
  {
    var xs := Points(C, indices);
    var w := Weight(C, C.zero, xs, k);
    PointsDistinct(C, indices);
    WeightNonzero(C, indices, k);
    WeightElem(C, C.zero, xs, k);
    InvertCases(C, w);
    var inv := C.Invert(w).value;
    var step := C.Mul(target, inv);
    var xs', ys' := xs[m := C.zero], Zeros(C, |xs|)[k := step];
    var z := Interpolant(C, xs', ys', |xs|);
    Closed(C, target, inv);
    InterpolantElem(C, xs', ys', |xs|);
    InterpolantUnique(C, xs', ys', z);
    assert Eval(C, z, xs'[m]) == C.zero;
    EvalAtZero(C, z);
    assert Eval(C, z, xs'[k]) == step;
    Ring(C, target, inv, w);
    Ring(C, inv, w, w);
    Unit(C, target);
    forall i | 0 <= i < |xs| && i != m && i != k ensures Eval(C, z, xs[i]) == C.zero {
      assert Eval(C, z, xs'[i]) == ys'[i];
    }
  }

  lemma SkewDrift<S(!new), G(!new)>(C: Curve<S, G>, indices: seq<nat>, post: seq<bool>, m: nat, k: nat, target: S)
    requires FieldLaws(C) && NodeSet(C, indices) && C.Elem(target)
    requires |post| == |indices| && m < |post| && k < |post| && !post[m] && post[k]
    ensures Drift(C, Skew(C, indices, m, k, target), indices, post) == target
  {
    var z, xs := Skew(C, indices, m, k, target), Points(C, indices);
    var deltas := Deltas(C, z, indices, post);
    SkewValues(C, indices, m, k, target);
    forall j | 0 <= j < |deltas| && j != k ensures deltas[j] == C.zero {
      if j != m { assert Eval(C, z, xs[j]) == C.zero; }
    }
    CombineSingle(C, C.zero, xs, deltas, k, |xs|);
    assert deltas[k] == Eval(C, z, xs[k]);
  }

  /**
   A proper mix of exactly t shares can return anything: for every scalar there
   is a zero-sharing under which the mix combines to that scalar.
   */
  lemma MixedReachesAll<S(!new), G(!new)>(
      C: Curve<S, G>, f: seq<S>, indices: seq<nat>, post: seq<bool>, m: nat, k: nat, result: S)
    requires FieldLaws(C) && C.AllElem(f) && NodeSet(C, indices) && C.Elem(result)
    requires |post| == |indices| == |f|
    requires m < |post| && k < |post| && !post[m] && post[k]
    ensures exists z :: |z| == |f| && C.AllElem(z) && z[0] == C.zero
                        && Recovered(C, Mixed(C, f, z, indices, post)) == Some(result)
  {
    var target := C.Sub(result, f[0]);
    assert C.Elem(target) by { Closed(C, result, f[0]); }
    var z := Skew(C, indices, m, k, target);
    SkewValues(C, indices, m, k, target);
    SkewDrift(C, indices, post, m, k, target);
    MixedReconstruct(C, f, z, indices, post);
    assert C.Add(f[0], target) == result by {
      SubZero(C, result, f[0]);
      Ring(C, f[0], target, target);
    }
  }

  // ---------------------------------------------------------------- two refreshes at once

  /**
   Node `index`'s share after two refreshes raced on it: each reads the share
   and writes it back in separate calls, so either update may be lost.
   */
  function RacedShare<S(!new), G(!new)>(
      C: Curve<S, G>, f: seq<S>, z1: seq<S>, z2: seq<S>, index: nat, kept1: bool, kept2: bool): Share<S>
  {
    var x := C.From(index);
    var first := EpochShare(C, f, z1, index, kept1);
    if kept2 then first.(value := C.Add(first.value, Eval(C, z2, x))) else first
  }

  function Raced<S(!new), G(!new)>(
      C: Curve<S, G>, f: seq<S>, z1: seq<S>, z2: seq<S>, indices: seq<nat>, kept1: seq<bool>, kept2: seq<bool>)
    : (r: seq<Share<S>>)
    requires |kept1| == |kept2| == |indices|
    ensures |r| == |indices|
  {
    seq(|indices|, i requires 0 <= i < |indices| => RacedShare(C, f, z1, z2, indices[i], kept1[i], kept2[i]))
  }

  /** Raced shares combine to the secret plus the drift of each refresh over the nodes that kept it. */
  lemma RacedReconstruct<S(!new), G(!new)>(
      C: Curve<S, G>, f: seq<S>, z1: seq<S>, z2: seq<S>, indices: seq<nat>, kept1: seq<bool>, kept2: seq<bool>)
    requires FieldLaws(C) && C.AllElem(f) && NodeSet(C, indices)
    requires |kept1| == |kept2| == |indices| && 1 <= |f| <= |indices|
    ensures Recovered(C, Raced(C, f, z1, z2, indices, kept1, kept2)) ==
            Some(C.Add(C.Add(f[0], Drift(C, z1, indices, kept1)), Drift(C, z2, indices, kept2)))
  {
    var mixed, shares, xs := Mixed(C, f, z1, indices, kept1), Raced(C, f, z1, z2, indices, kept1, kept2),
      Points(C, indices);
    var deltas := Deltas(C, z2, indices, kept2);
    assert Xs(C, shares) == xs && Xs(C, mixed) == xs;
    ReconstructFailure(C, shares);
    MixedReconstruct(C, f, z1, indices, kept1);
    assert Ys(shares) == Plus(C, Ys(mixed), deltas) by {
      forall i | 0 <= i < |xs| ensures Ys(shares)[i] == C.Add(Ys(mixed)[i], deltas[i]) {
        EvalElem(C, f, xs[i]);
        Closed(C, Eval(C, f, xs[i]), Eval(C, z1, xs[i]));
        Unit(C, Ys(mixed)[i]);
      }
    }
    CombinePlus(C, C.zero, xs, Ys(mixed), deltas, |xs|);
  }

  // ---------------------------------------------------------------- hiding across a refresh

  function Difference<S(!new), G(!new)>(C: Curve<S, G>, g: seq<S>, f: seq<S>): (r: seq<S>)
    requires |g| == |f|
    ensures |r| == |f| && forall i :: 0 <= i < |f| ==> r[i] == C.Sub(g[i], f[i])
  {
    seq(|f|, i requires 0 <= i < |f| => C.Sub(g[i], f[i]))
  }

  lemma PlusIsDifference<S(!new), G(!new)>(C: Curve<S, G>, f: seq<S>, z: seq<S>, g: seq<S>)
    requires FieldLaws(C) && |f| == |z| == |g| && C.AllElem(f) && C.AllElem(z) && C.AllElem(g)
    ensures Plus(C, f, z) == g <==> z == Difference(C, g, f)
  {
    forall i | 0 <= i < |f| ensures C.Add(f[i], z[i]) == g[i] <==> z[i] == C.Sub(g[i], f[i]) {
      SubZero(C, g[i], f[i]);
      Ring(C, f[i], z[i], z[i]);
      Closed(C, g[i], f[i]);
      if C.Add(f[i], z[i]) == g[i] { AddCancel(C, z[i], C.Sub(g[i], f[i]), f[i]); }
    }
    if Plus(C, f, z) == g {
      forall i | 0 <= i < |f| ensures z[i] == Difference(C, g, f)[i] { assert Plus(C, f, z)[i] == g[i]; }
    }
  }

  /** The shares of t - 1 different nodes. */
  ghost predicate Exposure<S(!new), G(!new)>(C: Curve<S, G>, seen: seq<Share<S>>, t: nat) {
    && |seen| + 1 == t && C.AllElem(Ys(seen)) && DistinctIndices(seen) && IndicesBelow(seen, C.order)
    && forall i :: 0 <= i < |seen| ==> seen[i].index != 0
  }

  /** One sharing polynomial, one zero-sharing per refresh, and t - 1 shares seen in each epoch. */
  ghost predicate Sized<S>(seen: seq<seq<Share<S>>>, f: seq<S>, zs: seq<seq<S>>, t: nat) {
    && |seen| == |zs| + 1 && |f| == t && t >= 1
    && (forall e :: 0 <= e < |seen| ==> |seen[e]| == t - 1)
    && (forall e :: 0 <= e < |zs| ==> |zs[e]| == t)
  }

  /** The sharing polynomial after the refreshes zs, in order. */
  function EpochPoly<S(!new), G(!new)>(C: Curve<S, G>, f: seq<S>, zs: seq<seq<S>>): (r: seq<S>)
    requires forall e :: 0 <= e < |zs| ==> |zs[e]| == |f|
    ensures |r| == |f|
  {
    if zs == [] then f else Plus(C, EpochPoly(C, f, zs[..|zs| - 1]), zs[|zs| - 1])
  }

  /** The shares seen in epoch e are those of the sharing polynomial of epoch e. */
  ghost predicate FitsEpoch<S(!new), G(!new)>(
      C: Curve<S, G>, seen: seq<seq<Share<S>>>, f: seq<S>, zs: seq<seq<S>>, t: nat, e: nat)
    requires Sized(seen, f, zs, t) && e < |seen|
  {
    LieOn(C, seen[e], EpochPoly(C, f, zs[..e]))
  }

  /** f shares the secret, every refresh is a zero-sharing, and every epoch fits. */
  ghost predicate Fits<S(!new), G(!new)>(
      C: Curve<S, G>, seen: seq<seq<Share<S>>>, secret: S, f: seq<S>, zs: seq<seq<S>>, t: nat)
    requires Sized(seen, f, zs, t)
  {
    && f[0] == secret
    && (forall e :: 0 <= e < |zs| ==> ZeroSharing(C, zs[e], t))
    && (forall e :: 0 <= e < |seen| ==> FitsEpoch(C, seen, f, zs, t, e))
  }

  /** The zero-sharing between the explanations of epochs e and e + 1. */
  function Between<S(!new), G(!new)>(C: Curve<S, G>, seen: seq<seq<Share<S>>>, secret: S, e: nat): seq<S>
    requires e + 1 < |seen| && |seen[e]| == |seen[e + 1]|
  {
    Difference(C, Explanation(C, seen[e + 1], secret), Explanation(C, seen[e], secret))
  }

  /** Refresh e is the one between the explanations. */
  ghost predicate AccountsRefresh<S(!new), G(!new)>(
      C: Curve<S, G>, seen: seq<seq<Share<S>>>, secret: S, f: seq<S>, zs: seq<seq<S>>, t: nat, e: nat)
    requires Sized(seen, f, zs, t) && e < |zs|
  {
    zs[e] == Between(C, seen, secret, e)
  }

  /** The one way to account for the shares seen under a candidate secret. */
  ghost predicate Accounts<S(!new), G(!new)>(
      C: Curve<S, G>, seen: seq<seq<Share<S>>>, secret: S, f: seq<S>, zs: seq<seq<S>>, t: nat)
    requires Sized(seen, f, zs, t)
  {
    f == Explanation(C, seen[0], secret) && forall e :: 0 <= e < |zs| ==> AccountsRefresh(C, seen, secret, f, zs, t, e)
  }

  /** Both parts of the account are lists of canonical scalars. */
  lemma AccountElem<S(!new), G(!new)>(C: Curve<S, G>, seen: seq<seq<Share<S>>>, secret: S, e: nat)
    requires FieldLaws(C) && e < |seen|
    ensures C.AllElem(Explanation(C, seen[e], secret))
    ensures e + 1 < |seen| && |seen[e]| == |seen[e + 1]| ==> C.AllElem(Between(C, seen, secret, e))
  {
    InterpolantElem(C, [C.zero] + Xs(C, seen[e]), [secret] + Ys(seen[e]), |seen[e]| + 1);
    if e + 1 < |seen| && |seen[e]| == |seen[e + 1]| {
      var f, g := Explanation(C, seen[e], secret), Explanation(C, seen[e + 1], secret);
      forall i | 0 <= i < |f| ensures C.Elem(Between(C, seen, secret, e)[i]) { Closed(C, g[i], f[i]); }
    }
  }

  /** One refresh: given the sharing before it, the shares seen after it leave exactly one zero-sharing. */
  lemma RefreshHides<S(!new), G(!new)>(C: Curve<S, G>, f: seq<S>, after: seq<Share<S>>, secret: S, z: seq<S>)
    requires FieldLaws(C) && C.Elem(secret) && Exposure(C, after, |f|)
    requires |z| == |f| && C.AllElem(f) && C.AllElem(z) && f[0] == secret
    ensures ZeroSharing(C, z, |f|) && LieOn(C, after, Plus(C, f, z)) <==>
            z == Difference(C, Explanation(C, after, secret), f)
    ensures ZeroSharing(C, z, |f|) && LieOn(C, after, Plus(C, f, z)) ==> Plus(C, f, z) == Explanation(C, after, secret)
  {
    var g, g' := Plus(C, f, z), Explanation(C, after, secret);
    forall i | 0 <= i < |g| ensures C.Elem(g[i]) { Closed(C, f[i], z[i]); }
    Hiding(C, after, secret, g);
    PlusIsDifference(C, f, z, g');
    ConstantKept(C, f, z, secret);
  }

  /** What is asked of a candidate: canonical scalars, and t - 1 nodes' shares in each epoch. */
  ghost predicate Candidate<S(!new), G(!new)>(
      C: Curve<S, G>, seen: seq<seq<Share<S>>>, secret: S, f: seq<S>, zs: seq<seq<S>>, t: nat)
  {
    && C.Elem(secret) && Sized(seen, f, zs, t) && C.AllElem(f)
    && (forall e :: 0 <= e < |zs| ==> C.AllElem(zs[e]))
    && (forall e :: 0 <= e < |seen| ==> Exposure(C, seen[e], t))
  }

  lemma EpochSnoc<S(!new), G(!new)>(C: Curve<S, G>, f: seq<S>, zs: seq<seq<S>>, e: nat)
    requires 0 < e <= |zs| && forall i :: 0 <= i < |zs| ==> |zs[i]| == |f|
    ensures EpochPoly(C, f, zs[..e]) == Plus(C, EpochPoly(C, f, zs[..e - 1]), zs[e - 1])
  {
    assert zs[..e][..e - 1] == zs[..e - 1];
  }

  /** Fitting or being accounted for, epoch e is explained, and then both hold there. */
  lemma {:induction false} EpochKnown<S(!new), G(!new)>(
      C: Curve<S, G>, seen: seq<seq<Share<S>>>, secret: S, f: seq<S>, zs: seq<seq<S>>, t: nat, e: nat)
    requires FieldLaws(C) && Candidate(C, seen, secret, f, zs, t) && e < |seen|
    requires Fits(C, seen, secret, f, zs, t) || Accounts(C, seen, secret, f, zs, t)
    ensures EpochPoly(C, f, zs[..e]) == Explanation(C, seen[e], secret)
    ensures FitsEpoch(C, seen, f, zs, t, e) && f[0] == secret && f == Explanation(C, seen[0], secret)
    ensures e > 0 ==> ZeroSharing(C, zs[e - 1], t) && AccountsRefresh(C, seen, secret, f, zs, t, e - 1)
  {
    if e == 0 {
      assert FitsEpoch(C, seen, f, zs, t, 0) <==> LieOn(C, seen[0], f);
      Hiding(C, seen[0], secret, f);
    } else {
      EpochKnown(C, seen, secret, f, zs, t, e - 1);
      EpochSnoc(C, f, zs, e);
      var g := Explanation(C, seen[e - 1], secret);
      AccountElem(C, seen, secret, e - 1);
      Hiding(C, seen[e - 1], secret, g);
      RefreshHides(C, g, seen[e], secret, zs[e - 1]);
      if Fits(C, seen, secret, f, zs, t) {
        assert FitsEpoch(C, seen, f, zs, t, e) && ZeroSharing(C, zs[e - 1], t);
      } else {
        assert AccountsRefresh(C, seen, secret, f, zs, t, e - 1);
      }
    }
  }

  /**
   Refreshes separate exposures. However many there are, and whichever t - 1
   shares are seen in each epoch, everything seen still fits every secret, and
   each secret in exactly one way: by one sharing polynomial and one zero-sharing
   for each refresh.
   */
  lemma ProactiveHiding<S(!new), G(!new)>(
      C: Curve<S, G>, seen: seq<seq<Share<S>>>, secret: S, f: seq<S>, zs: seq<seq<S>>, t: nat)
    requires FieldLaws(C) && Candidate(C, seen, secret, f, zs, t)
    ensures Fits(C, seen, secret, f, zs, t) <==> Accounts(C, seen, secret, f, zs, t)
  {
    if Fits(C, seen, secret, f, zs, t) || Accounts(C, seen, secret, f, zs, t) {
      forall e | 0 <= e < |seen|
        ensures FitsEpoch(C, seen, f, zs, t, e) && f[0] == secret && f == Explanation(C, seen[0], secret)
        ensures e > 0 ==> ZeroSharing(C, zs[e - 1], t) && AccountsRefresh(C, seen, secret, f, zs, t, e - 1)
      {
        EpochKnown(C, seen, secret, f, zs, t, e);
      }
      forall e | 0 <= e < |zs| ensures ZeroSharing(C, zs[e], t) && AccountsRefresh(C, seen, secret, f, zs, t, e) {
        assert FitsEpoch(C, seen, f, zs, t, e + 1);
      }
      assert FitsEpoch(C, seen, f, zs, t, 0);
    }
  }

  /** The way that `ProactiveHiding` leaves exists, for every secret. */
  lemma AccountExists<S(!new), G(!new)>(C: Curve<S, G>, seen: seq<seq<Share<S>>>, secret: S, t: nat)
    returns (f: seq<S>, zs: seq<seq<S>>)
    requires FieldLaws(C) && C.Elem(secret) && seen != [] && forall e :: 0 <= e < |seen| ==> Exposure(C, seen[e], t)
    ensures Candidate(C, seen, secret, f, zs, t) && Fits(C, seen, secret, f, zs, t)
  {
    assert forall e :: 0 <= e < |seen| ==> Exposure(C, seen[e], t) ==> |seen[e]| == t - 1;
    f := Explanation(C, seen[0], secret);
    zs := seq(|seen| - 1, e requires 0 <= e < |seen| - 1 => Between(C, seen, secret, e));
    AccountElem(C, seen, secret, 0);
    forall e | 0 <= e < |zs| ensures C.AllElem(zs[e]) && |zs[e]| == t {
      AccountElem(C, seen, secret, e);
    }
    ProactiveHiding(C, seen, secret, f, zs, t);
  }

  /** Adding z leaves the constant term alone exactly when z is a zero-sharing. */
  lemma ConstantKept<S(!new), G(!new)>(C: Curve<S, G>, f: seq<S>, z: seq<S>, secret: S)
    requires FieldLaws(C) && |f| == |z| > 0 && f[0] == secret && C.Elem(secret) && C.Elem(z[0])
    ensures Plus(C, f, z)[0] == secret <==> z[0] == C.zero
  {
    Unit(C, secret);
    if C.Add(secret, z[0]) == secret {
      Ring(C, secret, z[0], z[0]);
      AddCancel(C, z[0], C.zero, secret);
    }
  }
}

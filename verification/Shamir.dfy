/** Shamir sharing: dealing by Horner evaluation, recombination by Lagrange weights at zero. */
module Shamir {
  import opened Wrappers
  import opened Curves
  import opened FieldAlgebra
  import opened Polynomials
  import opened Lagrange

  datatype Share<+S> = Share(index: nat, value: S)

  function Point<S(!new), G(!new)>(C: Curve<S, G>, coeffs: seq<S>, i: nat): Share<S> {
    Share(i, Eval(C, coeffs, C.From(i)))
  }

  /** Node indices as scalars. */
  function Points<S(!new), G(!new)>(C: Curve<S, G>, indices: seq<nat>): (xs: seq<S>)
    ensures |xs| == |indices| && forall i :: 0 <= i < |indices| ==> xs[i] == C.From(indices[i])
  {
    seq(|indices|, i requires 0 <= i < |indices| => C.From(indices[i]))
  }

  function Xs<S(!new), G(!new)>(C: Curve<S, G>, shares: seq<Share<S>>): (xs: seq<S>)
    ensures |xs| == |shares| && forall i :: 0 <= i < |shares| ==> xs[i] == C.From(shares[i].index)
  {
    Points(C, seq(|shares|, i requires 0 <= i < |shares| => shares[i].index))
  }

  function Ys<S>(shares: seq<Share<S>>): (ys: seq<S>)
    ensures |ys| == |shares|
  {
    seq(|shares|, i requires 0 <= i < |shares| => shares[i].value)
  }

  /** The denominator of share j has an inverse. */
  ghost predicate Invertible<S(!new), G(!new)>(C: Curve<S, G>, xs: seq<S>, j: nat)
    requires j < |xs|
  {
    C.Invert(Gap(C, xs[j], xs, j, |xs|)).Some?
  }

  /** What the combiner returns. */
  ghost function Recovered<S(!new), G(!new)>(C: Curve<S, G>, shares: seq<Share<S>>): Option<S> {
    var xs := Xs(C, shares);
    if forall j :: 0 <= j < |xs| ==> Invertible(C, xs, j)
    then Some(Combine(C, C.zero, xs, Ys(shares), |xs|))
    else None
  }

  // ---------------------------------------------------------------- the algorithms

  /** Horner evaluation at 1, 2, .., n. */
  method EvalAll<S(!new), G(!new)>(C: Curve<S, G>, coeffs: seq<S>, n: nat) returns (shares: seq<Share<S>>)
    ensures |shares| == n
    ensures forall k :: 0 <= k < n ==> shares[k] == Point(C, coeffs, k + 1)
  {
    shares := [];
    var i := 1;
    while i <= n
      invariant 1 <= i <= n + 1
      invariant |shares| == i - 1
      invariant forall k :: 0 <= k < i - 1 ==> shares[k] == Point(C, coeffs, k + 1)
    {
      var x := C.From(i);
      var acc := C.zero;
      var k: nat := |coeffs|;
      while k > 0
        invariant 0 <= k <= |coeffs|
        invariant acc == Eval(C, coeffs[k..], x)
      {
        k := k - 1;
        assert coeffs[k..][1..] == coeffs[k + 1..];
        acc := C.Add(C.Mul(acc, x), coeffs[k]);
      }
      assert coeffs[0..] == coeffs;
      assert Share(i, acc) == Point(C, coeffs, i);
      shares := shares + [Share(i, acc)];
      i := i + 1;
    }
  }

  /** Deal `secret` to n nodes; `random` holds the t - 1 scalars drawn for the higher coefficients. */
  method Split<S(!new), G(!new)>(
      C: Curve<S, G>, secret: S, t: nat, n: nat, random: seq<S>) returns (shares: seq<Share<S>>)
    requires 1 <= t <= n && |random| == t - 1
    ensures |shares| == n
    ensures forall k :: 0 <= k < n ==> shares[k] == Point(C, [secret] + random, k + 1)
  {
    var coeffs := [secret];
    for i := 1 to t
      invariant coeffs == [secret] + random[..i - 1]
    {
      coeffs := coeffs + [random[i - 1]];
    }
    assert coeffs == [secret] + random;
    shares := EvalAll(C, coeffs, n);
  }

  /** Deal a zero secret. */
  method SplitZero<S(!new), G(!new)>(C: Curve<S, G>, t: nat, n: nat, random: seq<S>) returns (shares: seq<Share<S>>)
    requires 1 <= t <= n && |random| == t - 1
    ensures |shares| == n
    ensures forall k :: 0 <= k < n ==> shares[k] == Point(C, [C.zero] + random, k + 1)
  {
    shares := Split(C, C.zero, t, n, random);
  }

  /** The numerator and denominator of share j's weight at zero. */
  method Fraction<S(!new), G(!new)>(C: Curve<S, G>, shares: seq<Share<S>>, j: nat) returns (num: S, den: S)
    requires j < |shares|
    ensures num == Gap(C, C.zero, Xs(C, shares), j, |shares|)
    ensures den == Gap(C, C.From(shares[j].index), Xs(C, shares), j, |shares|)
  {
    ghost var xs := Xs(C, shares);
    var xj := C.From(shares[j].index);
    num, den := C.one, C.one;
    for m := 0 to |shares|
      invariant num == Gap(C, C.zero, xs, j, m)
      invariant den == Gap(C, xj, xs, j, m)
    {
      if m == j { continue; }
      var xm := C.From(shares[m].index);
      assert xm == xs[m];
      var negXm := C.Sub(C.zero, xm);
      num := C.Mul(num, negXm);
      den := C.Mul(den, C.Sub(xj, xm));
    }
  }

  /** Lagrange interpolation at zero, share by share. */
  method Reconstruct<S(!new), G(!new)>(C: Curve<S, G>, shares: seq<Share<S>>) returns (r: Option<S>)
    ensures r == Recovered(C, shares)
  {
    ghost var xs, ys := Xs(C, shares), Ys(shares);
    var secret := C.zero;
    for j := 0 to |shares|
      invariant secret == Combine(C, C.zero, xs, ys, j)
      invariant forall i :: 0 <= i < j ==> Invertible(C, xs, i)
    {
      var num, den := Fraction(C, shares, j);
      assert den == Gap(C, xs[j], xs, j, |xs|) && shares[j].value == ys[j];
      var denInv := C.Invert(den);
      if denInv.None? {
        assert !Invertible(C, xs, j);
        return None;
      }
      var lagrange := C.Mul(num, denInv.value);
      assert lagrange == Weight(C, C.zero, xs, j);
      secret := C.Add(secret, C.Mul(shares[j].value, lagrange));
    }
    return Some(secret);
  }

  // ---------------------------------------------------------------- interpolation

  ghost predicate DistinctIndices<S(!new)>(shares: seq<Share<S>>) {
    forall i, j :: 0 <= i < j < |shares| ==> shares[i].index != shares[j].index
  }

  ghost predicate IndicesBelow<S(!new)>(shares: seq<Share<S>>, bound: nat) {
    forall i :: 0 <= i < |shares| ==> shares[i].index < bound
  }

  /** Every share is a value of the polynomial with these coefficients. */
  ghost predicate LieOn<S(!new), G(!new)>(C: Curve<S, G>, shares: seq<Share<S>>, coeffs: seq<S>) {
    forall i :: 0 <= i < |shares| ==> shares[i] == Point(C, coeffs, shares[i].index)
  }

  lemma XsDistinct<S(!new), G(!new)>(C: Curve<S, G>, shares: seq<Share<S>>)
    requires FieldLaws(C) && IndicesBelow(shares, C.order)
    ensures C.AllElem(Xs(C, shares))
    ensures DistinctIndices(shares) <==> Distinct(Xs(C, shares))
  {
    var xs := Xs(C, shares);
    forall i | 0 <= i < |xs| ensures C.Elem(xs[i]) {
      FromIsElem(C, shares[i].index);
    }
    forall i, j | 0 <= i < j < |xs| ensures xs[i] == xs[j] <==> shares[i].index == shares[j].index {
      IndexInjective(C, shares[i].index, shares[j].index);
    }
  }

  /** The combiner fails exactly on the strict curve, and there exactly on a repeated index. */
  lemma ReconstructFailure<S(!new), G(!new)>(C: Curve<S, G>, shares: seq<Share<S>>)
    requires FieldLaws(C) && IndicesBelow(shares, C.order)
    ensures Recovered(C, shares) == None <==> C.strict && !DistinctIndices(shares)
  {
    var xs := Xs(C, shares);
    XsDistinct(C, shares);
    forall j | 0 <= j < |xs|
      ensures !Invertible(C, xs, j) <==> C.strict && exists m :: 0 <= m < |xs| && m != j && xs[m] == xs[j]
    {
      GapZero(C, xs[j], xs, j, |xs|);
      GapElem(C, xs[j], xs, j, |xs|);
      InvertCases(C, Gap(C, xs[j], xs, j, |xs|));
    }
    if C.strict && !Distinct(xs) {
      var i, j :| 0 <= i < j < |xs| && xs[i] == xs[j];
      assert !Invertible(C, xs, j);
    }
  }

  /** On the lenient curve a repeated index is not reported: two copies of one share combine to zero. */
  lemma RepeatedIndexUnreported<S(!new), G(!new)>(C: Curve<S, G>, s: Share<S>)
    requires FieldLaws(C) && !C.strict && s.index < C.order
    ensures Recovered(C, [s, s]) == Some(C.zero)
  {
    var shares := [s, s];
    var xs := Xs(C, shares);
    ReconstructFailure(C, shares);
    XsDistinct(C, shares);
    forall j | 0 <= j < 2 ensures C.Mul(s.value, Weight(C, C.zero, xs, j)) == C.zero {
      assert xs[0] == xs[1];
      assert xs[1 - j] == xs[j];
      GapZero(C, xs[j], xs, j, 2);
      MulZero(C, Gap(C, C.zero, xs, j, 2));
      MulZero(C, s.value);
    }
    Unit(C, C.zero);
    assert Combine(C, C.zero, xs, Ys(shares), 1) == C.zero;
    assert Combine(C, C.zero, xs, Ys(shares), 2) == C.zero;
  }

  /** Any t or more shares of a t-coefficient polynomial, in any order, give back its constant term. */
  lemma Interpolation<S(!new), G(!new)>(C: Curve<S, G>, coeffs: seq<S>, shares: seq<Share<S>>)
    requires FieldLaws(C) && C.AllElem(coeffs) && 1 <= |coeffs| <= |shares|
    requires LieOn(C, shares, coeffs) && DistinctIndices(shares) && IndicesBelow(shares, C.order)
    ensures Recovered(C, shares) == Some(coeffs[0])
  {
    var xs := Xs(C, shares);
    XsDistinct(C, shares);
    ReconstructFailure(C, shares);
    CombineIsEval(C, xs, Ys(shares), coeffs, C.zero);
    EvalAtZero(C, coeffs);
  }

  /** Dealing and then combining any selection of at least t of the shares returns the secret. */
  method SplitThenReconstruct<S(!new), G(!new)>(
      C: Curve<S, G>, secret: S, t: nat, n: nat, random: seq<S>, pick: seq<nat>) returns (r: Option<S>)
    requires FieldLaws(C) && C.Elem(secret) && C.AllElem(random)
    requires 1 <= t <= n < C.order && |random| == t - 1
    requires Distinct(pick) && |pick| >= t && forall k :: 0 <= k < |pick| ==> pick[k] < n
    ensures r == Some(secret)
  {
    var shares := Split(C, secret, t, n, random);
    var subset := seq(|pick|, k requires 0 <= k < |pick| => shares[pick[k]]);
    Interpolation(C, [secret] + random, subset);
    r := Reconstruct(C, subset);
  }

  // ---------------------------------------------------------------- hiding

  /** The one sharing polynomial of `secret` that gives the nodes in `indices` the `values` they saw. */
  function Explanation<S(!new), G(!new)>(C: Curve<S, G>, seen: seq<Share<S>>, secret: S): (c: seq<S>)
    ensures |c| == |seen| + 1
  {
    Interpolant(C, [C.zero] + Xs(C, seen), [secret] + Ys(seen), |seen| + 1)
  }

  lemma WithZeroDistinct<S(!new), G(!new)>(C: Curve<S, G>, seen: seq<Share<S>>)
    requires FieldLaws(C) && DistinctIndices(seen) && IndicesBelow(seen, C.order)
    requires forall i :: 0 <= i < |seen| ==> seen[i].index != 0
    ensures C.AllElem([C.zero] + Xs(C, seen)) && Distinct([C.zero] + Xs(C, seen))
  {
    var xs := [C.zero] + Xs(C, seen);
    XsDistinct(C, seen);
    forall i, j | 0 <= i < j < |xs| ensures xs[i] != xs[j] {
      assert xs[j] == Xs(C, seen)[j - 1];
      if i > 0 {
        assert xs[i] == Xs(C, seen)[i - 1];
      } else {
        IndexInjective(C, seen[j - 1].index, 0);
      }
    }
  }

  /**
   t - 1 shares fit every secret, each in exactly one way: for any shares seen
   and any candidate secret there is one and only one list of t coefficients
   with that constant term on which all of them lie.
   */
  lemma Hiding<S(!new), G(!new)>(C: Curve<S, G>, seen: seq<Share<S>>, secret: S, c: seq<S>)
    requires FieldLaws(C) && C.Elem(secret) && C.AllElem(Ys(seen))
    requires DistinctIndices(seen) && IndicesBelow(seen, C.order)
    requires forall i :: 0 <= i < |seen| ==> seen[i].index != 0
    requires |c| == |seen| + 1 && C.AllElem(c)
    ensures C.AllElem(Explanation(C, seen, secret))
    ensures LieOn(C, seen, c) && c[0] == secret <==> c == Explanation(C, seen, secret)
  {
    var xs, ys := [C.zero] + Xs(C, seen), [secret] + Ys(seen);
    WithZeroDistinct(C, seen);
    InterpolantElem(C, xs, ys, |xs|);
    InterpolantUnique(C, xs, ys, c);
    FitsIsLieOn(C, seen, secret, c);
  }

  /** Lying on c with c[0] == secret is fitting the points (0, secret) and the shares seen. */
  lemma FitsIsLieOn<S(!new), G(!new)>(C: Curve<S, G>, seen: seq<Share<S>>, secret: S, c: seq<S>)
    requires FieldLaws(C) && c != [] && C.Elem(c[0])
    ensures LieOn(C, seen, c) && c[0] == secret <==>
            var xs, ys := [C.zero] + Xs(C, seen), [secret] + Ys(seen);
            forall i :: 0 <= i < |xs| ==> Eval(C, c, xs[i]) == ys[i]
  {
    var xs, ys := [C.zero] + Xs(C, seen), [secret] + Ys(seen);
    EvalAtZero(C, c);
    if LieOn(C, seen, c) && c[0] == secret {
      forall i | 0 <= i < |xs| ensures Eval(C, c, xs[i]) == ys[i] {
        if i > 0 { assert seen[i - 1] == Point(C, c, seen[i - 1].index); }
      }
    }
    if forall i :: 0 <= i < |xs| ==> Eval(C, c, xs[i]) == ys[i] {
      assert Eval(C, c, xs[0]) == ys[0];
      forall i | 0 <= i < |seen| ensures seen[i] == Point(C, c, seen[i].index) {
        assert Eval(C, c, xs[i + 1]) == ys[i + 1];
      }
    }
  }

  // ---------------------------------------------------------------- below the threshold

  /**
   One share too few is not always noticed in the result: t - 1 shares combine
   to the secret exactly when the leading coefficient happens to be zero.
   */
  lemma BelowThreshold<S(!new), G(!new)>(C: Curve<S, G>, c: seq<S>, shares: seq<Share<S>>)
    requires FieldLaws(C) && C.AllElem(c) && |c| == |shares| + 1 && LieOn(C, shares, c)
    requires DistinctIndices(shares) && IndicesBelow(shares, C.order)
    requires forall i :: 0 <= i < |shares| ==> shares[i].index != 0
    ensures Recovered(C, shares).Some?
    ensures Recovered(C, shares) == Some(c[0]) <==> c[|c| - 1] == C.zero
  {
    var low := Interpolant(C, Xs(C, shares), Ys(shares), |shares|);
    XsDistinct(C, shares);
    ValuesElem(C, c, shares);
    LowExplains(C, shares, low);
    LowRecovered(C, shares, low);
    LowIsAll(C, c, shares, low);
    if c[|c| - 1] == C.zero {
      assert c == c[..|shares|] + Zeros(C, 1);
      ShortList(C, c[..|shares|], shares, low);
    }
  }

  /** If the short interpolant has the secret as its constant term, it is the whole sharing polynomial. */
  lemma LowIsAll<S(!new), G(!new)>(C: Curve<S, G>, c: seq<S>, shares: seq<Share<S>>, low: seq<S>)
    requires FieldLaws(C) && C.AllElem(c) && |c| == |shares| + 1 == |low| + 1 && LieOn(C, shares, c)
    requires DistinctIndices(shares) && IndicesBelow(shares, C.order) && C.AllElem(Ys(shares))
    requires forall i :: 0 <= i < |shares| ==> shares[i].index != 0
    requires C.AllElem(low + Zeros(C, 1)) && LieOn(C, shares, low + Zeros(C, 1))
    ensures (low + Zeros(C, 1))[0] == c[0] ==> c == low + Zeros(C, 1)
  {
    Hiding(C, shares, c[0], c);
    Hiding(C, shares, c[0], low + Zeros(C, 1));
  }

  lemma ValuesElem<S(!new), G(!new)>(C: Curve<S, G>, c: seq<S>, shares: seq<Share<S>>)
    requires FieldLaws(C) && LieOn(C, shares, c)
    ensures C.AllElem(Ys(shares))
  {
    forall i | 0 <= i < |shares| ensures C.Elem(Ys(shares)[i]) {
      assert shares[i] == Point(C, c, shares[i].index);
      EvalElem(C, c, C.From(shares[i].index));
    }
  }

  /** The short interpolant, padded with a zero, passes through the shares. */
  lemma LowExplains<S(!new), G(!new)>(C: Curve<S, G>, shares: seq<Share<S>>, low: seq<S>)
    requires FieldLaws(C) && C.AllElem(Ys(shares)) && C.AllElem(Xs(C, shares)) && Distinct(Xs(C, shares))
    requires low == Interpolant(C, Xs(C, shares), Ys(shares), |shares|)
    ensures LieOn(C, shares, low + Zeros(C, 1))
  {
    var xs, ys := Xs(C, shares), Ys(shares);
    forall i | 0 <= i < |shares| ensures shares[i] == Point(C, low + Zeros(C, 1), shares[i].index) {
      EvalPadded(C, low, 1, xs[i]);
      InterpolantFits(C, xs, ys, i);
    }
  }

  /** The combiner returns the constant term of the short interpolant. */
  lemma LowRecovered<S(!new), G(!new)>(C: Curve<S, G>, shares: seq<Share<S>>, low: seq<S>)
    requires FieldLaws(C) && DistinctIndices(shares) && IndicesBelow(shares, C.order)
    requires low == Interpolant(C, Xs(C, shares), Ys(shares), |shares|)
    ensures C.AllElem(low + Zeros(C, 1)) && Recovered(C, shares) == Some((low + Zeros(C, 1))[0])
  {
    var xs, ys := Xs(C, shares), Ys(shares);
    ReconstructFailure(C, shares);
    InterpolantElem(C, xs, ys, |xs|);
    EvalInterpolant(C, xs, ys, |xs|, C.zero);
    EvalPadded(C, low, 1, C.zero);
    EvalAtZero(C, low + Zeros(C, 1));
  }

  /** A list of t - 1 coefficients through the shares is the short interpolant. */
  lemma ShortList<S(!new), G(!new)>(C: Curve<S, G>, c: seq<S>, shares: seq<Share<S>>, low: seq<S>)
    requires FieldLaws(C) && C.AllElem(c) && |c| == |shares| && LieOn(C, shares, c + Zeros(C, 1))
    requires C.AllElem(Ys(shares)) && C.AllElem(Xs(C, shares)) && Distinct(Xs(C, shares))
    requires low == Interpolant(C, Xs(C, shares), Ys(shares), |shares|)
    ensures c == low
  {
    var xs, ys := Xs(C, shares), Ys(shares);
    forall i | 0 <= i < |xs| ensures Eval(C, c, xs[i]) == ys[i] {
      assert shares[i] == Point(C, c + Zeros(C, 1), shares[i].index);
      EvalPadded(C, c, 1, xs[i]);
    }
    InterpolantUnique(C, xs, ys, c);
  }
}

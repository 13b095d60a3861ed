/**
 Two refreshes of one key at once. Each walks the nodes in order and, at each
 node, reads the share and later writes it back with its own delta, so an
 update made in between is lost. Which updates survive follows from the order
 of the turns alone.
 */
module RacedRefresh {
  import opened Wrappers
  import opened Curves
  import opened FieldAlgebra
  import opened Polynomials
  import opened Lagrange
  import opened Shamir
  import opened MixedEpochs

  /** One refresh's place: the node it is at, and the share it has read there. */
  datatype Racer<T> = Racer(next: nat, held: Option<T>)

  datatype Race<T> = Race(cells: seq<T>, one: Racer<T>, two: Racer<T>)

  /** One turn of a refresh: read the share of the node it is at, or write it back updated and move on. */
  function Turn<T>(s: Race<T>, second: bool, update: (bool, nat, T) -> T): Race<T> {
    var r := if second then s.two else s.one;
    if r.next >= |s.cells| then s
    else
      var r' := if r.held.None? then r.(held := Some(s.cells[r.next])) else Racer(r.next + 1, None);
      var cells := if r.held.None? then s.cells else s.cells[r.next := update(second, r.next, r.held.value)];
      if second then Race(cells, s.one, r') else Race(cells, r', s.two)
  }

  /** The turns in order; `true` is a turn of the second refresh. */
  function RunRace<T>(s: Race<T>, schedule: seq<bool>, update: (bool, nat, T) -> T): Race<T> {
    if schedule == [] then s
    else Turn(RunRace(s, schedule[..|schedule| - 1], update), schedule[|schedule| - 1], update)
  }

  function Begin<T>(cells: seq<T>): Race<T> { Race(cells, Racer(0, None), Racer(0, None)) }

  predicate Over<T>(s: Race<T>) { s.one.next == |s.cells| && s.two.next == |s.cells| }

  // ---------------------------------------------------------------- which updates survive

  type Kept = (bool, bool)

  function Mark(second: bool, i: nat, k: Kept): Kept {
    if second then (k.0, true) else (true, k.1)
  }

  function Untouched(n: nat): (r: seq<Kept>)
    ensures |r| == n && forall i :: 0 <= i < n ==> r[i] == (false, false)
  {
    seq(n, _ => (false, false))
  }

  /** The survivors of a schedule over n nodes. */
  function Survivors(n: nat, schedule: seq<bool>): Race<Kept> {
    RunRace(Begin(Untouched(n)), schedule, Mark)
  }

  /** An update is present only where its refresh has been; a node that was written keeps at least the last update. */
  ghost predicate MarksOk(s: Race<Kept>) {
    && s.one.next <= |s.cells| && s.two.next <= |s.cells|
    && (s.one.held.Some? ==>
          s.one.next < |s.cells| && !s.one.held.value.0 && (s.one.held.value.1 ==> s.one.next < s.two.next))
    && (s.two.held.Some? ==>
          s.two.next < |s.cells| && !s.two.held.value.1 && (s.two.held.value.0 ==> s.two.next < s.one.next))
    && forall i :: 0 <= i < |s.cells| ==>
         && (s.cells[i].0 ==> i < s.one.next) && (s.cells[i].1 ==> i < s.two.next)
         && (i < s.one.next || i < s.two.next ==> s.cells[i].0 || s.cells[i].1)
  }

  lemma {:induction false} SurvivorsOk(n: nat, schedule: seq<bool>)
    ensures MarksOk(Survivors(n, schedule)) && |Survivors(n, schedule).cells| == n
  {
    if schedule != [] { SurvivorsOk(n, schedule[..|schedule| - 1]); }
  }

  // ---------------------------------------------------------------- the shares

  /** A share of f with the surviving updates of z1 and z2. */
  function Cell<S(!new), G(!new)>(C: Curve<S, G>, f: seq<S>, z1: seq<S>, z2: seq<S>, i: nat, k: Kept): S {
    RacedShare(C, f, z1, z2, i + 1, k.0, k.1).value
  }

  /** Adding a refresh's delta to the share of node i. */
  function AddDelta<S(!new), G(!new)>(C: Curve<S, G>, z1: seq<S>, z2: seq<S>): (bool, nat, S) -> S {
    (second: bool, i: nat, v: S) => C.Add(v, Eval(C, if second then z2 else z1, C.From(i + 1)))
  }

  function Shares<S(!new), G(!new)>(C: Curve<S, G>, f: seq<S>, n: nat): (r: seq<S>)
    ensures |r| == n && forall i :: 0 <= i < n ==> r[i] == Eval(C, f, C.From(i + 1))
  {
    seq(n, i requires 0 <= i < n => Eval(C, f, C.From(i + 1)))
  }

  ghost predicate HeldRel<S(!new), G(!new)>(
      C: Curve<S, G>, f: seq<S>, z1: seq<S>, z2: seq<S>, a: Racer<S>, b: Racer<Kept>)
  {
    && a.next == b.next && (a.held.Some? <==> b.held.Some?)
    && (a.held.Some? ==> a.held.value == Cell(C, f, z1, z2, a.next, b.held.value))
  }

  ghost predicate RaceRel<S(!new), G(!new)>(
      C: Curve<S, G>, f: seq<S>, z1: seq<S>, z2: seq<S>, a: Race<S>, b: Race<Kept>)
  {
    && |a.cells| == |b.cells|
    && (forall i :: 0 <= i < |a.cells| ==> a.cells[i] == Cell(C, f, z1, z2, i, b.cells[i]))
    && HeldRel(C, f, z1, z2, a.one, b.one) && HeldRel(C, f, z1, z2, a.two, b.two)
  }

  /** A delta added to a share that lacks it gives the share that has it, in either order. */
  lemma CellUpdate<S(!new), G(!new)>(C: Curve<S, G>, f: seq<S>, z1: seq<S>, z2: seq<S>, second: bool, i: nat, k: Kept)
    requires FieldLaws(C) && (if second then !k.1 else !k.0)
    ensures AddDelta(C, z1, z2)(second, i, Cell(C, f, z1, z2, i, k)) == Cell(C, f, z1, z2, i, Mark(second, i, k))
  {
    var x := C.From(i + 1);
    var a, b, c := Eval(C, f, x), Eval(C, z1, x), Eval(C, z2, x);
    if !second && k.1 {
      Ring(C, a, c, b);
      Ring(C, c, b, b);
      Ring(C, a, b, c);
    }
  }

  lemma TurnRel<S(!new), G(!new)>(
      C: Curve<S, G>, f: seq<S>, z1: seq<S>, z2: seq<S>, a: Race<S>, b: Race<Kept>, second: bool)
    requires FieldLaws(C) && MarksOk(b) && RaceRel(C, f, z1, z2, a, b)
    ensures RaceRel(C, f, z1, z2, Turn(a, second, AddDelta(C, z1, z2)), Turn(b, second, Mark))
  {
    var r := if second then b.two else b.one;
    if r.next < |b.cells| && r.held.Some? {
      CellUpdate(C, f, z1, z2, second, r.next, r.held.value);
    }
  }

  /** Every node ends with the original share plus exactly the surviving updates. */
  lemma {:induction false} RaceOutcome<S(!new), G(!new)>(
      C: Curve<S, G>, f: seq<S>, z1: seq<S>, z2: seq<S>, n: nat, schedule: seq<bool>)
    requires FieldLaws(C)
    ensures RaceRel(C, f, z1, z2, RunRace(Begin(Shares(C, f, n)), schedule, AddDelta(C, z1, z2)),
            Survivors(n, schedule))
  {
    if schedule != [] {
      var rest := schedule[..|schedule| - 1];
      RaceOutcome(C, f, z1, z2, n, rest);
      SurvivorsOk(n, rest);
      TurnRel(C, f, z1, z2, RunRace(Begin(Shares(C, f, n)), rest, AddDelta(C, z1, z2)), Survivors(n, rest),
        schedule[|schedule| - 1]);
    }
  }

  // ---------------------------------------------------------------- every pattern occurs

  /** Four turns at one node that leave these survivors. */
  function Weave(k: Kept): seq<bool> {
    if k.0 && k.1 then [false, false, true, true]
    else if k.1 then [false, true, false, true]
    else [true, false, true, false]
  }

  function WeaveAll(pattern: seq<Kept>): seq<bool> {
    if pattern == [] then [] else WeaveAll(pattern[..|pattern| - 1]) + Weave(pattern[|pattern| - 1])
  }

  lemma {:induction false} RunConcat<T>(s: Race<T>, a: seq<bool>, b: seq<bool>, update: (bool, nat, T) -> T)
    ensures RunRace(s, a + b, update) == RunRace(RunRace(s, a, update), b, update)
  {
    if b == [] {
      assert a + b == a;
    } else {
      var k := |b| - 1;
      RunConcat(s, a, b[..k], update);
      assert (a + b)[..|a + b| - 1] == a + b[..k];
    }
  }

  /** Four turns at a node both refreshes have just reached. */
  lemma WeaveTurns(cells: seq<Kept>, i: nat, k: Kept)
    requires i < |cells| && cells[i] == (false, false) && (k.0 || k.1)
    ensures RunRace(Race(cells, Racer(i, None), Racer(i, None)), Weave(k), Mark) ==
            Race(cells[i := k], Racer(i + 1, None), Racer(i + 1, None))
  {
    var w, s0 := Weave(k), Race(cells, Racer(i, None), Racer(i, None));
    assert w[..4] == w && w[..4][..3] == w[..3] && w[..3][..2] == w[..2] && w[..2][..1] == w[..1] && w[..1][..0] == [];
    assert RunRace(s0, w[..1], Mark) == Turn(s0, w[0], Mark);
    assert RunRace(s0, w[..2], Mark) == Turn(RunRace(s0, w[..1], Mark), w[1], Mark);
    assert RunRace(s0, w[..3], Mark) == Turn(RunRace(s0, w[..2], Mark), w[2], Mark);
    assert RunRace(s0, w, Mark) == Turn(RunRace(s0, w[..3], Mark), w[3], Mark);
    assert cells[i := (true, false)][i := (true, true)] == cells[i := (true, true)];
    assert cells[i := (true, false)][i := (false, true)] == cells[i := (false, true)];
    assert cells[i := (false, true)][i := (true, false)] == cells[i := (true, false)];
  }

  /** The turns woven for one more node. */
  lemma WeaveStep(n: nat, rest: seq<Kept>, k: Kept)
    requires |rest| < n && (k.0 || k.1)
    requires Survivors(n, WeaveAll(rest)) ==
             Race(rest + Untouched(n - |rest|), Racer(|rest|, None), Racer(|rest|, None))
    ensures Survivors(n, WeaveAll(rest) + Weave(k)) ==
            Race(rest + [k] + Untouched(n - |rest| - 1), Racer(|rest| + 1, None), Racer(|rest| + 1, None))
  {
    var i, cells := |rest|, rest + Untouched(n - |rest|);
    SurvivorsConcat(n, WeaveAll(rest), Weave(k));
    WeaveTurns(cells, i, k);
    NextUntouched(n, rest, k);
  }

  lemma SurvivorsConcat(n: nat, a: seq<bool>, b: seq<bool>)
    ensures Survivors(n, a + b) == RunRace(Survivors(n, a), b, Mark)
  {
    RunConcat(Begin(Untouched(n)), a, b, Mark);
  }

  lemma NextUntouched(n: nat, rest: seq<Kept>, k: Kept)
    requires |rest| < n
    ensures (rest + Untouched(n - |rest|))[|rest| := k] == rest + [k] + Untouched(n - |rest| - 1)
  {
  }

  lemma {:induction false} WeaveRun(n: nat, pattern: seq<Kept>)
    requires |pattern| <= n && forall i :: 0 <= i < |pattern| ==> pattern[i].0 || pattern[i].1
    ensures Survivors(n, WeaveAll(pattern)) ==
            Race(pattern + Untouched(n - |pattern|), Racer(|pattern|, None), Racer(|pattern|, None))
  {
    if pattern == [] {
      assert [] + Untouched(n) == Untouched(n);
    } else {
      var i := |pattern| - 1;
      var k, rest := pattern[i], pattern[..i];
      WeaveRun(n, rest);
      assert k.0 || k.1;
      WeaveStep(n, rest, k);
      assert WeaveAll(pattern) == WeaveAll(rest) + Weave(k);
      assert rest + [k] == pattern;
    }
  }

  /**
   The survivors a finished race can leave are exactly the patterns in which
   every node keeps at least one of the two updates.
   */
  lemma SurvivorsExact(n: nat, pattern: seq<Kept>)
    requires |pattern| == n
    ensures (exists schedule :: Over(Survivors(n, schedule)) && Survivors(n, schedule).cells == pattern) <==>
            forall i :: 0 <= i < n ==> pattern[i].0 || pattern[i].1
  {
    if forall i :: 0 <= i < n ==> pattern[i].0 || pattern[i].1 {
      WeaveRun(n, pattern);
      assert pattern + Untouched(0) == pattern;
      assert Over(Survivors(n, WeaveAll(pattern)));
    }
    forall schedule | Over(Survivors(n, schedule)) && Survivors(n, schedule).cells == pattern
      ensures forall i :: 0 <= i < n ==> pattern[i].0 || pattern[i].1
    {
      SurvivorsOk(n, schedule);
    }
  }

  // ---------------------------------------------------------------- when the secret survives

  lemma ZerosDrift<S(!new), G(!new)>(C: Curve<S, G>, indices: seq<nat>, kept: seq<bool>)
    requires FieldLaws(C) && NodeSet(C, indices) && |kept| == |indices|
    ensures Drift(C, Zeros(C, |indices|), indices, kept) == C.zero
  {
    var xs, deltas := Points(C, indices), Deltas(C, Zeros(C, |indices|), indices, kept);
    PointsDistinct(C, indices);
    forall i | 0 <= i < |xs| ensures deltas[i] == Eval(C, [], xs[i]) {
      EvalZeros(C, |indices|, xs[i]);
    }
    CombineIsEval(C, xs, deltas, [], C.zero);
  }

  /** Kept by some of the nodes only, some zero-sharing moves the recovered scalar by one. */
  lemma MixedDrift<S(!new), G(!new)>(C: Curve<S, G>, indices: seq<nat>, kept: seq<bool>) returns (z: seq<S>)
    requires FieldLaws(C) && NodeSet(C, indices) && |kept| == |indices| && !Uniform(kept)
    ensures ZeroSharing(C, z, |indices|) && Drift(C, z, indices, kept) == C.one
  {
    var i, j :| 0 <= i < j < |kept| && kept[i] != kept[j];
    var m, k := if kept[i] then j else i, if kept[i] then i else j;
    z := Skew(C, indices, m, k, C.one);
    SkewValues(C, indices, m, k, C.one);
    SkewDrift(C, indices, kept, m, k, C.one);
  }

  ghost predicate SafeFor<S(!new), G(!new)>(
      C: Curve<S, G>, f: seq<S>, z1: seq<S>, z2: seq<S>, indices: seq<nat>, kept1: seq<bool>, kept2: seq<bool>)
    requires |kept1| == |kept2| == |indices| && f != []
  {
    Recovered(C, Raced(C, f, z1, z2, indices, kept1, kept2)) == Some(f[0])
  }

  /**
   Exactly when t nodes are sure to combine to the secret after two refreshes
   raced: when each refresh was kept by all of them or by none. Otherwise some
   choice of zero-sharings makes them combine to another scalar.
   */
  lemma RacedExact<S(!new), G(!new)>(C: Curve<S, G>, f: seq<S>, indices: seq<nat>, kept1: seq<bool>, kept2: seq<bool>)
    requires FieldLaws(C) && C.AllElem(f) && NodeSet(C, indices) && f != []
    requires |kept1| == |kept2| == |indices| == |f|
    ensures (forall z1, z2 ::
               ZeroSharing(C, z1, |f|) && ZeroSharing(C, z2, |f|) ==> SafeFor(C, f, z1, z2, indices, kept1, kept2))
            <==> Uniform(kept1) && Uniform(kept2)
  {
    var zeros := Zeros(C, |f|);
    assert ZeroSharing(C, zeros, |f|);
    AddOne(C, f[0]);
    ZerosDrift(C, indices, kept1);
    ZerosDrift(C, indices, kept2);
    if !Uniform(kept1) {
      var z := MixedDrift(C, indices, kept1);
      RacedReconstruct(C, f, z, zeros, indices, kept1, kept2);
      assert !SafeFor(C, f, z, zeros, indices, kept1, kept2);
    } else if !Uniform(kept2) {
      var z := MixedDrift(C, indices, kept2);
      RacedReconstruct(C, f, zeros, z, indices, kept1, kept2);
      assert !SafeFor(C, f, zeros, z, indices, kept1, kept2);
    } else {
      forall z1, z2 | ZeroSharing(C, z1, |f|) && ZeroSharing(C, z2, |f|)
        ensures SafeFor(C, f, z1, z2, indices, kept1, kept2) {
        RacedReconstruct(C, f, z1, z2, indices, kept1, kept2);
        UniformDrift(C, z1, indices, kept1);
        UniformDrift(C, z2, indices, kept2);
        Unit(C, f[0]);
      }
    }
  }

  // ---------------------------------------------------------------- from the interleaving

  /** Which of the listed nodes kept the first, and the second, refresh. */
  function Kept1(cells: seq<Kept>, indices: seq<nat>): (r: seq<bool>)
    ensures |r| == |indices|
  {
    seq(|indices|, j requires 0 <= j < |indices| => 0 < indices[j] <= |cells| && cells[indices[j] - 1].0)
  }

  function Kept2(cells: seq<Kept>, indices: seq<nat>): (r: seq<bool>)
    ensures |r| == |indices|
  {
    seq(|indices|, j requires 0 <= j < |indices| => 0 < indices[j] <= |cells| && cells[indices[j] - 1].1)
  }

  /** The listed nodes' shares after the turns of a schedule. */
  function Left<S(!new), G(!new)>(
      C: Curve<S, G>, f: seq<S>, z1: seq<S>, z2: seq<S>, n: nat, schedule: seq<bool>, indices: seq<nat>)
    : (r: seq<Share<S>>)
    ensures |r| == |indices|
  {
    var cells := RunRace(Begin(Shares(C, f, n)), schedule, AddDelta(C, z1, z2)).cells;
    seq(|indices|, j requires 0 <= j < |indices| =>
      Share(indices[j], if 0 < indices[j] <= |cells| then cells[indices[j] - 1] else C.zero))
  }

  lemma LeftIsRaced<S(!new), G(!new)>(
      C: Curve<S, G>, f: seq<S>, z1: seq<S>, z2: seq<S>, n: nat, schedule: seq<bool>, indices: seq<nat>)
    requires FieldLaws(C) && forall j :: 0 <= j < |indices| ==> 0 < indices[j] <= n
    ensures var cells := Survivors(n, schedule).cells;
            Left(C, f, z1, z2, n, schedule, indices) ==
              Raced(C, f, z1, z2, indices, Kept1(cells, indices), Kept2(cells, indices))
  {
    RaceOutcome(C, f, z1, z2, n, schedule);
    SurvivorsOk(n, schedule);
    var cells := Survivors(n, schedule).cells;
    forall j | 0 <= j < |indices|
      ensures Left(C, f, z1, z2, n, schedule, indices)[j] ==
              Raced(C, f, z1, z2, indices, Kept1(cells, indices), Kept2(cells, indices))[j]
    {
      assert RunRace(Begin(Shares(C, f, n)), schedule, AddDelta(C, z1, z2)).cells[indices[j] - 1] ==
             Cell(C, f, z1, z2, indices[j] - 1, cells[indices[j] - 1]);
    }
  }

  ghost predicate LeftSafe<S(!new), G(!new)>(
      C: Curve<S, G>, f: seq<S>, z1: seq<S>, z2: seq<S>, n: nat, schedule: seq<bool>, indices: seq<nat>)
    requires f != []
  {
    Recovered(C, Left(C, f, z1, z2, n, schedule, indices)) == Some(f[0])
  }

  /**
   The same from the interleaving itself: after the turns of a schedule, t nodes
   are sure to combine to the secret, whatever the two zero-sharings, exactly
   when the schedule lets each refresh survive at all of them or at none.
   */
  lemma RaceExact<S(!new), G(!new)>(C: Curve<S, G>, f: seq<S>, n: nat, schedule: seq<bool>, indices: seq<nat>)
    requires FieldLaws(C) && C.AllElem(f) && f != [] && NodeSet(C, indices) && |indices| == |f|
    requires forall j :: 0 <= j < |indices| ==> indices[j] <= n
    ensures (forall z1, z2 ::
               ZeroSharing(C, z1, |f|) && ZeroSharing(C, z2, |f|) ==> LeftSafe(C, f, z1, z2, n, schedule, indices))
            <==>
            var cells := Survivors(n, schedule).cells;
            Uniform(Kept1(cells, indices)) && Uniform(Kept2(cells, indices))
  {
    var cells := Survivors(n, schedule).cells;
    var kept1, kept2 := Kept1(cells, indices), Kept2(cells, indices);
    RacedExact(C, f, indices, kept1, kept2);
    forall z1, z2 ensures LeftSafe(C, f, z1, z2, n, schedule, indices) <==>
      SafeFor(C, f, z1, z2, indices, kept1, kept2) {
      LeftIsRaced(C, f, z1, z2, n, schedule, indices);
    }
  }

  /** Two nodes, threshold two: the first refresh is lost at the second node, and some zero-sharings lose the secret. */
  lemma LostUpdate<S(!new), G(!new)>(C: Curve<S, G>, f: seq<S>)
    requires FieldLaws(C) && C.AllElem(f) && |f| == 2 && C.order > 2
    ensures var schedule := WeaveAll([(true, true), (false, true)]);
            && Over(Survivors(2, schedule))
            && exists z1, z2 ::
                 ZeroSharing(C, z1, 2) && ZeroSharing(C, z2, 2) && !LeftSafe(C, f, z1, z2, 2, schedule, [1, 2])
  {
    var pattern := [(true, true), (false, true)];
    WeaveRun(2, pattern);
    var cells := Survivors(2, WeaveAll(pattern)).cells;
    assert cells == pattern;
    assert Kept1(cells, [1, 2])[0] && !Kept1(cells, [1, 2])[1];
    RaceExact(C, f, 2, WeaveAll(pattern), [1, 2]);
  }
}

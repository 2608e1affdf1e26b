/**
 The planner: stages in dependency order, parallel waves, the critical path, and the worst case of
 calls and cost over every attempt a plan allows.

 What selection finds for a stage (its candidates with their metrics, and the winner) is an oracle.
 Metrics are exact reals, cost in micro-USD.
 */
module Planner {
  import opened Basics
  import opened DependencyGraph

  // ----- a plan -----

  // The reserved name of the original input; no stage may have it.
  const INPUT: Id := 0

  datatype Spec = Spec(id: Id, deps: seq<Id>, validators: seq<nat>, maxRepairs: nat, escalate: bool)

  function Ids(specs: seq<Spec>): seq<Id> {
    if specs == [] then [] else [specs[0].id] + Ids(specs[1..])
  }

  function IdSet(specs: seq<Spec>): set<Id> {
    set i | 0 <= i < |specs| :: specs[i].id
  }

  ghost predicate UniqueIds(specs: seq<Spec>) { DistinctBy(specs, (s: Spec) => s.id) }

  // Each stage with its dependencies.
  ghost predicate IsGraphOf(g: Graph, specs: seq<Spec>) {
    g.Keys == IdSet(specs) && forall i | 0 <= i < |specs| :: g[specs[i].id] == specs[i].deps
  }

  ghost predicate ValidPlan(specs: seq<Spec>, g: Graph) {
    && 1 <= |specs| <= 8 && UniqueIds(specs) && IsGraphOf(g, specs) && Closed(g) && Rankable(g)
    && forall i | 0 <= i < |specs| ::
         && specs[i].id != INPUT && specs[i].maxRepairs <= 2 && |specs[i].validators| <= 5 && Distinct(specs[i].deps)
         && (specs[i].maxRepairs > 0 || specs[i].escalate ==> specs[i].validators != [])
  }

  // ----- dependency order -----

  predicate Free(s: Spec, done: set<Id>) {
    s.id !in done && forall d | d in s.deps :: d in done
  }

  // The stages that can go next, in the given order.
  function Round(specs: seq<Spec>, done: set<Id>): seq<Spec> {
    if specs == [] then [] else (if Free(specs[0], done) then [specs[0]] else []) + Round(specs[1..], done)
  }

  lemma {:induction false} RoundMeans(specs: seq<Spec>, done: set<Id>)
    ensures
      var r := Round(specs, done);
      && (forall s :: s in r <==> s in specs && Free(s, done))
      && (UniqueIds(specs) ==> UniqueIds(r))
    decreases |specs|
  {
    if specs != [] {
      var rest := Round(specs[1..], done);
      RoundMeans(specs[1..], done);
      assert specs == [specs[0]] + specs[1..];
      if UniqueIds(specs) {
        assert forall i | 0 <= i < |specs[1..]| :: specs[1..][i] == specs[i + 1];
        forall i | 0 <= i < |rest|
          ensures rest[i].id != specs[0].id
        {
          assert rest[i] in rest;
          var j :| 0 <= j < |specs[1..]| && specs[1..][j] == rest[i];
          assert specs[j + 1] == rest[i];
        }
      }
    }
  }

  lemma RoundIsReady(g: Graph, specs: seq<Spec>, done: set<Id>)
    requires IsGraphOf(g, specs)
    ensures IdSet(Round(specs, done)) == Ready(g, done)
  {
    var r := Round(specs, done);
    RoundMeans(specs, done);
    forall n | n in Ready(g, done)
      ensures n in IdSet(r)
    {
      var i :| 0 <= i < |specs| && specs[i].id == n;
      assert specs[i] in r;
    }
    forall n | n in IdSet(r)
      ensures n in Ready(g, done)
    {
      var i :| 0 <= i < |r| && r[i].id == n;
      assert r[i] in specs;
      var j :| 0 <= j < |specs| && specs[j] == r[i];
    }
  }

  lemma {:induction false} NothingFree(specs: seq<Spec>, done: set<Id>)
    requires IdSet(specs) <= done
    ensures Round(specs, done) == []
    decreases |specs|
  {
    if specs != [] {
      assert specs == [specs[0]] + specs[1..];
      IdSetAppend([specs[0]], specs[1..]);
      assert specs[0].id in IdSet(specs);
      NothingFree(specs[1..], done);
    }
  }

  // Round after round, as far as one gets.
  function Rounds(specs: seq<Spec>, done: set<Id>): seq<seq<Spec>>
    decreases |IdSet(specs) - done|
  {
    var r := Round(specs, done);
    if r == [] then []
    else
      RoundAdvances(specs, done);
      [r] + Rounds(specs, done + IdSet(r))
  }

  lemma RoundAdvances(specs: seq<Spec>, done: set<Id>)
    requires Round(specs, done) != []
    ensures |IdSet(specs) - (done + IdSet(Round(specs, done)))| < |IdSet(specs) - done|
  {
    var r := Round(specs, done);
    RoundMeans(specs, done);
    assert r[0] in specs && r[0].id in IdSet(r);
    assert r[0].id in IdSet(specs) by {
      var i :| 0 <= i < |specs| && specs[i] == r[0];
    }
    Smaller(IdSet(specs) - (done + IdSet(r)), IdSet(specs) - done);
  }

  lemma RoundNeverEmpty(specs: seq<Spec>, g: Graph, done: set<Id>)
    requires IsGraphOf(g, specs) && Closed(g) && Rankable(g) && !(IdSet(specs) <= done)
    ensures Round(specs, done) != []
  {
    NeverStuck(g, done);
    RoundIsReady(g, specs, done);
    var n :| n in Ready(g, done);
    assert n in IdSet(Round(specs, done));
  }

  // The dependency order: the rounds one after the other.
  function InOrder(specs: seq<Spec>): seq<Spec> {
    Flatten(Rounds(specs, {}))
  }

  lemma IdSetAppend(a: seq<Spec>, b: seq<Spec>)
    ensures IdSet(a + b) == IdSet(a) + IdSet(b)
  {
    forall n | n in IdSet(a) + IdSet(b)
      ensures n in IdSet(a + b)
    {
      if n in IdSet(a) {
        var i :| 0 <= i < |a| && a[i].id == n;
        assert (a + b)[i].id == n;
      } else {
        var i :| 0 <= i < |b| && b[i].id == n;
        assert (a + b)[|a| + i].id == n;
      }
    }
  }

  // `order` holds stages of `specs` without repetition, each after its dependencies.
  ghost predicate Respects(specs: seq<Spec>, order: seq<Spec>) {
    && UniqueIds(order)
    && (forall s | s in order :: s in specs)
    && (forall i, d | 0 <= i < |order| && d in order[i].deps :: d in IdSet(order[..i]))
  }

  lemma RoundExtends(specs: seq<Spec>, order: seq<Spec>)
    requires UniqueIds(specs) && Respects(specs, order)
    ensures Respects(specs, order + Round(specs, IdSet(order)))
  {
    var r := Round(specs, IdSet(order));
    RoundMeans(specs, IdSet(order));
    var all := order + r;
    forall i, j | 0 <= i < j < |all|
      ensures all[i].id != all[j].id
    {
      if i < |order| <= j {
        assert r[j - |order|] in r && order[i].id in IdSet(order);
      }
    }
    forall i, d | 0 <= i < |all| && d in all[i].deps
      ensures d in IdSet(all[..i])
    {
      if i < |order| {
        assert all[..i] == order[..i];
      } else {
        assert r[i - |order|] in r && d in IdSet(order);
        assert all[..i] == order + r[..i - |order|];
        IdSetAppend(order, r[..i - |order|]);
      }
    }
  }

  method OrderStages(specs: seq<Spec>, ghost g: Graph) returns (ordered: seq<Spec>)
    requires UniqueIds(specs) && IsGraphOf(g, specs) && Closed(g) && Rankable(g)
    ensures ordered == InOrder(specs)
    ensures Respects(specs, ordered) && multiset(ordered) == multiset(specs)
  {
    hide Respects, Rounds, Round, Flatten, IdSet, Rankable, Closed, IsGraphOf;
    ordered := [];
    NothingOrdered(specs);
    while |ordered| < |specs|
      invariant InOrder(specs) == ordered + Flatten(Rounds(specs, IdSet(ordered)))
      invariant Respects(specs, ordered)
      decreases |specs| - |ordered|
    {
      OrderStep(specs, g, ordered);
      ordered := ordered + Round(specs, IdSet(ordered));
    }
    AllOrdered(specs, ordered);
  }

  lemma NothingOrdered(specs: seq<Spec>)
    ensures IdSet([]) == {} && Respects(specs, [])
  {
  }

  lemma OrderStep(specs: seq<Spec>, g: Graph, ordered: seq<Spec>)
    requires UniqueIds(specs) && IsGraphOf(g, specs) && Closed(g) && Rankable(g)
    requires Respects(specs, ordered) && |ordered| < |specs|
    ensures
      var next := Round(specs, IdSet(ordered));
      && next != [] && Respects(specs, ordered + next)
      && ordered + Flatten(Rounds(specs, IdSet(ordered))) ==
          ordered + next + Flatten(Rounds(specs, IdSet(ordered + next)))
  {
    hide Respects, Rounds, Round, Flatten, IdSet, Rankable, Closed, IsGraphOf;
    var done := IdSet(ordered);
    var next := Round(specs, done);
    FewerIsNotAll(specs, ordered);
    RoundNeverEmpty(specs, g, done);
    RoundExtends(specs, ordered);
    RoundsStep(specs, done);
    IdSetAppend(ordered, next);
    FlattenCons(next, Rounds(specs, done + IdSet(next)));
    Regroup(ordered, next, Flatten(Rounds(specs, done + IdSet(next))));
  }

  lemma RoundsStep(specs: seq<Spec>, done: set<Id>)
    requires Round(specs, done) != []
    ensures Rounds(specs, done) == [Round(specs, done)] + Rounds(specs, done + IdSet(Round(specs, done)))
  {
  }

  lemma FlattenCons<T>(xs: seq<T>, xss: seq<seq<T>>)
    ensures Flatten([xs] + xss) == xs + Flatten(xss)
  {
    assert ([xs] + xss)[1..] == xss;
  }

  lemma {:induction false} IdCount(specs: seq<Spec>)
    requires UniqueIds(specs)
    ensures |IdSet(specs)| == |specs|
    decreases |specs|
  {
    if specs != [] {
      var last := |specs| - 1;
      IdCount(specs[..last]);
      IdSetAppend(specs[..last], [specs[last]]);
      assert specs == specs[..last] + [specs[last]];
      assert IdSet([specs[last]]) == {[specs[last]][0].id};
    } else {
      assert IdSet(specs) == {};
    }
  }

  lemma InSpecs(specs: seq<Spec>, order: seq<Spec>)
    requires forall s | s in order :: s in specs
    ensures IdSet(order) <= IdSet(specs)
  {
    forall n | n in IdSet(order)
      ensures n in IdSet(specs)
    {
      var i :| 0 <= i < |order| && order[i].id == n;
      assert order[i] in specs;
      var j :| 0 <= j < |specs| && specs[j] == order[i];
    }
  }

  lemma FewerIsNotAll(specs: seq<Spec>, order: seq<Spec>)
    requires UniqueIds(specs) && Respects(specs, order) && |order| < |specs|
    ensures !(IdSet(specs) <= IdSet(order))
  {
    IdCount(specs);
    IdCount(order);
    if IdSet(specs) <= IdSet(order) {
      SubsetSize(IdSet(specs), IdSet(order));
    }
  }

  lemma AllOrdered(specs: seq<Spec>, order: seq<Spec>)
    requires UniqueIds(specs) && Respects(specs, order) && |order| >= |specs|
    ensures multiset(order) == multiset(specs)
    ensures Flatten(Rounds(specs, IdSet(order))) == []
    ensures IdSet(order) == IdSet(specs)
  {
    InSpecs(specs, order);
    IdCount(specs);
    IdCount(order);
    if IdSet(order) != IdSet(specs) {
      Smaller(IdSet(order), IdSet(specs));
    }
    assert IdSet(order) == IdSet(specs);
    NothingFree(specs, IdSet(order));
    SameIds(specs, order);
  }

  lemma SameIds(specs: seq<Spec>, order: seq<Spec>)
    requires UniqueIds(specs) && UniqueIds(order) && IdSet(order) == IdSet(specs) && forall s | s in order :: s in specs
    ensures multiset(order) == multiset(specs)
  {
    forall s
      ensures s in order <==> s in specs
    {
      if s in specs {
        var i :| 0 <= i < |specs| && specs[i] == s;
        assert s.id in IdSet(specs);
        var j :| 0 <= j < |order| && order[j].id == s.id;
        assert order[j] in specs;
        var k :| 0 <= k < |specs| && specs[k] == order[j];
        assert i == k;
      }
    }
    OnceEach(specs);
    OnceEach(order);
    assert forall s :: multiset(order)[s] == multiset(specs)[s];
  }

  lemma {:induction false} OnceEach(specs: seq<Spec>)
    requires UniqueIds(specs)
    ensures forall s :: multiset(specs)[s] == if s in specs then 1 else 0
    decreases |specs|
  {
    if specs != [] {
      var last := |specs| - 1;
      OnceEach(specs[..last]);
      assert specs == specs[..last] + [specs[last]];
    }
  }

  // ----- waves -----

  function Waves(specs: seq<Spec>, done: set<Id>): seq<seq<Id>>
    decreases |IdSet(specs) - done|
  {
    var r := Round(specs, done);
    if r == [] then []
    else
      RoundAdvances(specs, done);
      [Ids(r)] + Waves(specs, done + IdSet(r))
  }

  // None where the source reports a cycle.
  method ParallelWaves(ordered: seq<Spec>, ghost g: Graph) returns (waves: Option<seq<seq<Id>>>)
    requires UniqueIds(ordered) && IsGraphOf(g, ordered) && Closed(g) && Rankable(g)
    ensures waves == Some(Waves(ordered, {}))
  {
    hide Waves, Round, IdSet, Rankable, Closed, IsGraphOf, UniqueIds;
    var done: set<Id> := {};
    var result: seq<seq<Id>> := [];
    IdCount(ordered);
    while |done| < |ordered|
      invariant done <= IdSet(ordered)
      invariant Waves(ordered, {}) == result + Waves(ordered, done)
      decreases |IdSet(ordered) - done|
    {
      var wave := Round(ordered, done);
      WaveStep(ordered, g, done);
      if wave == [] {
        return None;
      }
      Regroup(result, [Ids(wave)], Waves(ordered, done + IdSet(wave)));
      result := result + [Ids(wave)];
      done := done + IdSet(wave);
    }
    NoMoreWaves(ordered, done);
    assert result + [] == result;
    waves := Some(result);
  }

  lemma WaveStep(ordered: seq<Spec>, g: Graph, done: set<Id>)
    requires UniqueIds(ordered) && IsGraphOf(g, ordered) && Closed(g) && Rankable(g)
    requires done <= IdSet(ordered) && |done| < |ordered|
    ensures
      var wave := Round(ordered, done);
      && wave != [] && done + IdSet(wave) <= IdSet(ordered)
      && |IdSet(ordered) - (done + IdSet(wave))| < |IdSet(ordered) - done|
      && Waves(ordered, done) == [Ids(wave)] + Waves(ordered, done + IdSet(wave))
  {
    IdCount(ordered);
    hide IdSet, Round;
    if IdSet(ordered) <= done {
      SubsetSize(IdSet(ordered), done);
    }
    RoundNeverEmpty(ordered, g, done);
    RoundAdvances(ordered, done);
    RoundMeans(ordered, done);
    InSpecs(ordered, Round(ordered, done));
  }

  lemma NoMoreWaves(ordered: seq<Spec>, done: set<Id>)
    requires UniqueIds(ordered) && done <= IdSet(ordered) && |done| >= |ordered|
    ensures Waves(ordered, done) == []
  {
    IdCount(ordered);
    if done != IdSet(ordered) {
      Smaller(done, IdSet(ordered));
    }
    NothingFree(ordered, done);
  }

  lemma WavesStep(specs: seq<Spec>, done: set<Id>)
    ensures
      var r := Round(specs, done);
      Waves(specs, done) == if r == [] then [] else [Ids(r)] + Waves(specs, done + IdSet(r))
  {
  }

  lemma RoundEmpty(specs: seq<Spec>, done: set<Id>)
    ensures Round(specs, done) == [] <==> IdSet(Round(specs, done)) == {}
  {
    var r := Round(specs, done);
    if r != [] {
      assert r[0].id in IdSet(r);
    }
  }

  lemma {:induction false} IdsAre(specs: seq<Spec>)
    ensures |Ids(specs)| == |specs| && forall i | 0 <= i < |specs| :: Ids(specs)[i] == specs[i].id
    ensures ToSet(Ids(specs)) == IdSet(specs)
    decreases |specs|
  {
    if specs != [] {
      IdsAre(specs[1..]);
      assert forall i | 0 < i < |specs| :: specs[i] == specs[1..][i - 1];
    }
  }

  // The waves are the layers of the graph, each in the order of the plan.
  lemma {:induction false} WavesAreLayers(specs: seq<Spec>, g: Graph, done: set<Id>)
    requires IsGraphOf(g, specs)
    ensures
      var waves, layers := Waves(specs, done), Layers(g, done);
      |waves| == |layers| && forall k | 0 <= k < |waves| :: ToSet(waves[k]) == layers[k]
    decreases |IdSet(specs) - done|
  {
    hide Waves, Layers, Round, Ready, IdSet, ToSet, IsGraphOf, Ids;
    var r := Round(specs, done);
    RoundIsReady(g, specs, done);
    RoundEmpty(specs, done);
    IdsAre(r);
    WavesStep(specs, done);
    LayersStep(g, done);
    if r != [] {
      RoundAdvances(specs, done);
      WavesAreLayers(specs, g, done + IdSet(r));
    }
  }

  lemma {:induction false} RoundAppend(a: seq<Spec>, b: seq<Spec>, done: set<Id>)
    ensures Round(a + b, done) == Round(a, done) + Round(b, done)
    decreases |a|
  {
    if a == [] {
      assert a + b == b;
    } else {
      assert (a + b)[0] == a[0] && (a + b)[1..] == a[1..] + b;
      RoundAppend(a[1..], b, done);
    }
  }

  lemma {:induction false} AllFree(specs: seq<Spec>, done: set<Id>)
    requires forall i | 0 <= i < |specs| :: Free(specs[i], done)
    ensures Round(specs, done) == specs
    decreases |specs|
  {
    if specs != [] {
      AllFree(specs[1..], done);
    }
  }

  lemma {:induction false} NoneFree(specs: seq<Spec>, done: set<Id>)
    requires forall i | 0 <= i < |specs| :: !Free(specs[i], done)
    ensures Round(specs, done) == []
    decreases |specs|
  {
    if specs != [] {
      NoneFree(specs[1..], done);
    }
  }

  // The stages of later rounds were not free before.
  lemma {:induction false} LaterRounds(specs: seq<Spec>, done: set<Id>)
    ensures forall s | s in Flatten(Rounds(specs, done)) :: s in specs && s.id !in done
    decreases |IdSet(specs) - done|
  {
    var r := Round(specs, done);
    RoundMeans(specs, done);
    if r != [] {
      RoundAdvances(specs, done);
      RoundsStep(specs, done);
      FlattenCons(r, Rounds(specs, done + IdSet(r)));
      LaterRounds(specs, done + IdSet(r));
    }
  }

  lemma NextRoundOnly(specs: seq<Spec>, done: set<Id>)
    requires Round(specs, done) != []
    ensures Round(Flatten(Rounds(specs, done)), done) == Round(specs, done)
  {
    var r := Round(specs, done);
    var later := Flatten(Rounds(specs, done + IdSet(r)));
    RoundsStep(specs, done);
    FlattenCons(r, Rounds(specs, done + IdSet(r)));
    RoundAppend(r, later, done);
    RoundMeans(specs, done);
    LaterRounds(specs, done + IdSet(r));
    forall i | 0 <= i < |r|
      ensures Free(r[i], done)
    {
      assert r[i] in r;
    }
    AllFree(r, done);
    forall i | 0 <= i < |later|
      ensures !Free(later[i], done)
    {
      assert later[i] in later;
      NotYet(r, later[i]);
    }
    NoneFree(later, done);
  }

  lemma NotYet(r: seq<Spec>, s: Spec)
    requires s.id !in IdSet(r)
    ensures s !in r
  {
    forall i | 0 <= i < |r|
      ensures r[i] != s
    {
      assert r[i].id in IdSet(r);
    }
  }

  // Going through the stages in dependency order gives the same rounds.
  lemma {:induction false} OrderKeepsRounds(specs: seq<Spec>, ordered: seq<Spec>, prefix: seq<Spec>)
    requires ordered == prefix + Flatten(Rounds(specs, IdSet(prefix)))
    ensures Waves(ordered, IdSet(prefix)) == Waves(specs, IdSet(prefix))
    ensures Flatten(Waves(ordered, IdSet(prefix))) == Ids(Flatten(Rounds(specs, IdSet(prefix))))
    decreases |IdSet(specs) - IdSet(prefix)|
  {
    hide Waves, Rounds, Round, IdSet, Flatten, Ids;
    var done := IdSet(prefix);
    var r := Round(specs, done);
    var rest := Flatten(Rounds(specs, done));
    RoundAppend(prefix, rest, done);
    NothingFree(prefix, done);
    WavesStep(ordered, done);
    WavesStep(specs, done);
    if r == [] {
      NothingLeft(specs, done);
    } else {
      NextRoundOnly(specs, done);
      assert Round(ordered, done) == r;
      var later := Flatten(Rounds(specs, done + IdSet(r)));
      RoundsStep(specs, done);
      FlattenCons(r, Rounds(specs, done + IdSet(r)));
      IdSetAppend(prefix, r);
      RoundAdvances(specs, done);
      Regroup(prefix, r, later);
      OrderKeepsRounds(specs, ordered, prefix + r);
      FlattenCons(Ids(r), Waves(ordered, done + IdSet(r)));
      IdsAppend(r, later);
    }
  }

  lemma NothingLeft(specs: seq<Spec>, done: set<Id>)
    requires Round(specs, done) == []
    ensures Flatten(Rounds(specs, done)) == [] && Round(Flatten(Rounds(specs, done)), done) == []
    ensures Flatten<Id>([]) == [] && Ids([]) == []
  {
  }

  lemma {:induction false} IdsAppend(a: seq<Spec>, b: seq<Spec>)
    ensures Ids(a + b) == Ids(a) + Ids(b)
    decreases |a|
  {
    if a == [] {
      assert a + b == b;
    } else {
      assert (a + b)[0] == a[0] && (a + b)[1..] == a[1..] + b;
      IdsAppend(a[1..], b);
    }
  }

  /** The dependency order lists every stage once, each after its dependencies; the waves of a plan cut
      that order into consecutive pieces, and each piece is one layer of the graph. */
  lemma OrderAndWaves(specs: seq<Spec>, g: Graph)
    requires UniqueIds(specs) && IsGraphOf(g, specs) && Closed(g) && Rankable(g)
    ensures
      var ordered := InOrder(specs);
      var waves, layers := Waves(ordered, {}), Layers(g, {});
      && Respects(specs, ordered) && multiset(ordered) == multiset(specs)
      && Flatten(waves) == Ids(ordered)
      && |waves| == |layers| && (forall k | 0 <= k < |waves| :: ToSet(waves[k]) == layers[k])
  {
    var ordered := InOrder(specs);
    NothingOrdered(specs);
    OrderIsComplete(specs, g, []);
    assert [] + ordered == ordered;
    OrderKeepsRounds(specs, ordered, []);
    WavesAreLayers(specs, g, {});
  }

  lemma {:induction false} OrderIsComplete(specs: seq<Spec>, g: Graph, prefix: seq<Spec>)
    requires UniqueIds(specs) && IsGraphOf(g, specs) && Closed(g) && Rankable(g) && Respects(specs, prefix)
    ensures
      var all := prefix + Flatten(Rounds(specs, IdSet(prefix)));
      Respects(specs, all) && multiset(all) == multiset(specs)
    decreases |specs| - |prefix|
  {
    hide Respects, Rounds, Round, Flatten, IdSet, Rankable, Closed, IsGraphOf;
    if |prefix| < |specs| {
      OrderStep(specs, g, prefix);
      OrderIsComplete(specs, g, prefix + Round(specs, IdSet(prefix)));
    } else {
      AllOrdered(specs, prefix);
      assert prefix + [] == prefix;
    }
  }

  // ----- the critical path -----

  function MaxTime(times: map<Id, real>, ids: seq<Id>): real
    requires forall i | 0 <= i < |ids| :: ids[i] in times
  {
    if ids == [] then 0.0
    else if |ids| == 1 then times[ids[0]]
    else
      var rest := MaxTime(times, ids[1..]);
      if times[ids[0]] > rest then times[ids[0]] else rest
  }

  lemma {:induction false} MaxTimeIsMax(times: map<Id, real>, ids: seq<Id>)
    requires forall i | 0 <= i < |ids| :: ids[i] in times
    ensures forall i | 0 <= i < |ids| :: times[ids[i]] <= MaxTime(times, ids)
    ensures ids != [] ==> exists i :: 0 <= i < |ids| && times[ids[i]] == MaxTime(times, ids)
    ensures (forall i | 0 <= i < |ids| :: times[ids[i]] >= 0.0) ==> MaxTime(times, ids) >= 0.0
    decreases |ids|
  {
    if |ids| > 1 {
      MaxTimeIsMax(times, ids[1..]);
      forall i | 0 <= i < |ids|
        ensures times[ids[i]] <= MaxTime(times, ids)
      {
        assert i > 0 ==> ids[i] == ids[1..][i - 1];
      }
      if times[ids[0]] <= MaxTime(times, ids[1..]) {
        var i :| 0 <= i < |ids[1..]| && times[ids[1..][i]] == MaxTime(times, ids[1..]);
        assert times[ids[i + 1]] == MaxTime(times, ids);
      } else {
        assert times[ids[0]] == MaxTime(times, ids);
      }
    } else if ids != [] {
      assert times[ids[0]] == MaxTime(times, ids);
    }
  }

  // A stage ends its own duration after the last of its dependencies.
  ghost predicate IsTimes(g: Graph, d: map<Id, real>, times: map<Id, real>) {
    && times.Keys == g.Keys && d.Keys == g.Keys && Closed(g)
    && forall n | n in g ::
         && (forall i | 0 <= i < |g[n]| :: g[n][i] in times)
         && times[n] == d[n] + MaxTime(times, g[n])
  }

  function Known(durations: map<Id, Option<real>>): map<Id, real> {
    map n | n in durations && durations[n].Some? :: durations[n].value
  }

  // None where a duration is unknown.
  method CriticalPath(ordered: seq<Spec>, ghost g: Graph, durations: map<Id, Option<real>>)
    returns (latency: Option<real>, ghost times: map<Id, real>)
    requires ordered != [] && Respects(ordered, ordered) && IsGraphOf(g, ordered) && Closed(g)
        && durations.Keys == g.Keys
    ensures latency.Some? <==> forall n | n in durations :: durations[n].Some?
    ensures latency.Some? ==> IsTimes(g, Known(durations), times)
    ensures latency.Some? ==>
      && (forall n | n in times :: times[n] <= latency.value)
      && (exists n :: n in times && times[n] == latency.value)
  {
    hide PathsSoFar, IdSet, Respects, IsGraphOf, Closed, MaxTime, IsTimes;
    var pathTimes: map<Id, real> := map[];
    NoPaths(g, durations);
    for i := 0 to |ordered|
      invariant PathsSoFar(g, durations, IdSet(ordered[..i]), pathTimes)
    {
      var s := ordered[i];
      NextPath(g, durations, ordered, i, pathTimes);
      var known := durations[s.id].Some? && forall d | d in s.deps :: d in pathTimes;
      if known {
        pathTimes := pathTimes[s.id := durations[s.id].value + MaxTime(pathTimes, s.deps)];
      }
    }
    assert ordered[..|ordered|] == ordered;
    times := pathTimes;
    PathsAtEnd(g, durations, ordered, pathTimes);
    latency := if |pathTimes| == |ordered| then Some(MaxTime(pathTimes, Ids(ordered))) else None;
  }

  // The end times found among the stages `seen`: of all of them, unless a duration is unknown.
  ghost predicate PathsSoFar(g: Graph, durations: map<Id, Option<real>>, seen: set<Id>, times: map<Id, real>) {
    && times.Keys <= seen && seen <= g.Keys && durations.Keys == g.Keys
    && ((forall n | n in seen :: durations[n].Some?) ==> times.Keys == seen)
    && (forall n | n in times :: durations[n].Some?)
    && (forall n | n in times ::
         && (forall i | 0 <= i < |g[n]| :: g[n][i] in times)
         && times[n] == durations[n].value + MaxTime(times, g[n]))
  }

  lemma NoPaths(g: Graph, durations: map<Id, Option<real>>)
    requires durations.Keys == g.Keys
    ensures PathsSoFar(g, durations, IdSet([]), map[])
  {
  }

  lemma NextPath(g: Graph, durations: map<Id, Option<real>>, ordered: seq<Spec>, i: nat, times: map<Id, real>)
    requires i < |ordered| && Respects(ordered, ordered) && IsGraphOf(g, ordered)
    requires PathsSoFar(g, durations, IdSet(ordered[..i]), times)
    ensures ordered[i].id in durations
    ensures
      var s := ordered[i];
      if durations[s.id].Some? && forall d | d in s.deps :: d in times then
        PathsSoFar(g, durations, IdSet(ordered[..i + 1]), times[s.id := durations[s.id].value + MaxTime(times, s.deps)])
      else PathsSoFar(g, durations, IdSet(ordered[..i + 1]), times)
  {
    hide PathsSoFar, MaxTime, IdSet, Respects;
    var s := ordered[i];
    NextId(ordered, i);
    assert g[s.id] == s.deps && s.id in g;
    AddPath(g, durations, IdSet(ordered[..i]), times, s.id);
  }

  lemma AddPath(g: Graph, durations: map<Id, Option<real>>, seen: set<Id>, times: map<Id, real>, n: Id)
    requires PathsSoFar(g, durations, seen, times) && n in g && n !in seen && forall d | d in g[n] :: d in seen
    ensures n in durations
    ensures
      if durations[n].Some? && forall d | d in g[n] :: d in times then
        PathsSoFar(g, durations, seen + {n}, times[n := durations[n].value + MaxTime(times, g[n])])
      else PathsSoFar(g, durations, seen + {n}, times)
  {
    if durations[n].Some? {
      if forall d | d in g[n] :: d in times {
        var after := times[n := durations[n].value + MaxTime(times, g[n])];
        forall m | m in after
          ensures (forall i | 0 <= i < |g[m]| :: g[m][i] in after) && after[m] ==
              durations[m].value + MaxTime(after, g[m])
        {
          NewKeepsMax(times, after, g[m], n);
        }
      } else {
        var d :| d in g[n] && d !in times;
      }
    }
  }

  lemma NewKeepsMax(times: map<Id, real>, after: map<Id, real>, ids: seq<Id>, n: Id)
    requires n !in times && forall m | m in times :: m in after && after[m] == times[m]
    requires forall i | 0 <= i < |ids| :: ids[i] in times
    ensures forall i | 0 <= i < |ids| :: ids[i] in after
    ensures MaxTime(times, ids) == MaxTime(after, ids)
  {
    SameMax(times, after, ids);
  }

  lemma PathsAtEnd(g: Graph, durations: map<Id, Option<real>>, ordered: seq<Spec>, times: map<Id, real>)
    requires ordered != [] && Respects(ordered, ordered) && IsGraphOf(g, ordered) && Closed(g)
    requires PathsSoFar(g, durations, IdSet(ordered), times)
    ensures |times| == |ordered| <==> forall n | n in durations :: durations[n].Some?
    ensures |times| == |ordered| ==>
      && IsTimes(g, Known(durations), times)
      && (forall i | 0 <= i < |Ids(ordered)| :: Ids(ordered)[i] in times)
      && (forall n | n in times :: times[n] <= MaxTime(times, Ids(ordered)))
      && (exists n :: n in times && times[n] == MaxTime(times, Ids(ordered)))
  {
    hide PathsSoFar, Respects, MaxTime, IsTimes, Closed, IdSet, Ids, Known;
    TimesCount(ordered, times, g, durations);
    GraphIds(g, ordered);
    PathsComplete(g, durations, times);
    IdsAre(ordered);
    if |times| == |ordered| {
      forall i | 0 <= i < |Ids(ordered)|
        ensures Ids(ordered)[i] in times
      {
        assert Ids(ordered)[i] in ToSet(Ids(ordered));
      }
      LatestIsThere(times, ordered);
    }
  }

  lemma GraphIds(g: Graph, ordered: seq<Spec>)
    requires IsGraphOf(g, ordered)
    ensures g.Keys == IdSet(ordered)
  {
  }

  lemma TimesCount(ordered: seq<Spec>, times: map<Id, real>, g: Graph, durations: map<Id, Option<real>>)
    requires Respects(ordered, ordered) && PathsSoFar(g, durations, IdSet(ordered), times)
    ensures |times| == |ordered| <==> times.Keys == IdSet(ordered)
  {
    hide IdSet, MaxTime;
    IdCount(ordered);
    assert |times| == |times.Keys|;
    if |times| == |ordered| {
      SameKeys(times, IdSet(ordered));
    }
  }

  lemma PathsComplete(g: Graph, durations: map<Id, Option<real>>, times: map<Id, real>)
    requires PathsSoFar(g, durations, g.Keys, times) && Closed(g)
    ensures times.Keys == g.Keys <==> forall n | n in durations :: durations[n].Some?
    ensures times.Keys == g.Keys ==> IsTimes(g, Known(durations), times)
  {
    hide MaxTime;
  }

  lemma NextId(ordered: seq<Spec>, i: nat)
    requires i < |ordered| && Respects(ordered, ordered)
    ensures IdSet(ordered[..i + 1]) == IdSet(ordered[..i]) + {ordered[i].id} && ordered[i].id !in IdSet(ordered[..i])
    ensures forall d | d in ordered[i].deps :: d in IdSet(ordered[..i])
    ensures ordered[i].id in IdSet(ordered)
  {
    assert ordered[..i + 1] == ordered[..i] + [ordered[i]];
    IdSetAppend(ordered[..i], [ordered[i]]);
    assert IdSet([ordered[i]]) == {[ordered[i]][0].id};
  }

  lemma {:induction false} SameMax(before: map<Id, real>, after: map<Id, real>, ids: seq<Id>)
    requires forall i | 0 <= i < |ids| :: ids[i] in before && ids[i] in after && before[ids[i]] == after[ids[i]]
    ensures MaxTime(before, ids) == MaxTime(after, ids)
    decreases |ids|
  {
    if |ids| > 1 {
      SameMax(before, after, ids[1..]);
    }
  }

  lemma SameKeys(times: map<Id, real>, ids: set<Id>)
    requires times.Keys <= ids && |times| == |ids|
    ensures times.Keys == ids
  {
    assert |times| == |times.Keys|;
    if times.Keys != ids {
      Smaller(times.Keys, ids);
    }
  }

  lemma LatestIsThere(times: map<Id, real>, ordered: seq<Spec>)
    requires ordered != [] && times.Keys == IdSet(ordered)
    requires forall i | 0 <= i < |Ids(ordered)| :: Ids(ordered)[i] in times
    ensures forall n | n in times :: times[n] <= MaxTime(times, Ids(ordered))
    ensures exists n :: n in times && times[n] == MaxTime(times, Ids(ordered))
  {
    var ids := Ids(ordered);
    IdsAre(ordered);
    MaxTimeIsMax(times, ids);
    forall n | n in times
      ensures times[n] <= MaxTime(times, ids)
    {
      assert n in ToSet(ids);
      var i :| 0 <= i < |ids| && ids[i] == n;
    }
    var i :| 0 <= i < |ids| && times[ids[i]] == MaxTime(times, ids);
    assert ids[i] in times;
  }

  // A chain of stages, each waiting for the one before.
  ghost predicate Chain(g: Graph, chain: seq<Id>) {
    && chain != []
    && (forall i | 0 <= i < |chain| :: chain[i] in g)
    && (forall i | 0 <= i < |chain| - 1 :: chain[i] in g[chain[i + 1]])
  }

  function Weight(d: map<Id, real>, chain: seq<Id>): real
    requires forall i | 0 <= i < |chain| :: chain[i] in d
    decreases |chain|
  {
    if chain == [] then 0.0 else Weight(d, chain[..|chain| - 1]) + d[chain[|chain| - 1]]
  }

  ghost predicate Nonnegative(d: map<Id, real>) {
    forall n | n in d :: d[n] >= 0.0
  }

  lemma {:induction false} TimeNonnegative(g: Graph, d: map<Id, real>, times: map<Id, real>, rank: map<Id, nat>, n: Id)
    requires IsTimes(g, d, times) && Nonnegative(d) && IsRank(g, rank) && n in g
    ensures times[n] >= d[n]
    decreases rank[n]
  {
    forall i | 0 <= i < |g[n]|
      ensures times[g[n][i]] >= 0.0
    {
      assert g[n][i] in g[n];
      TimeNonnegative(g, d, times, rank, g[n][i]);
    }
    MaxTimeIsMax(times, g[n]);
  }

  lemma {:induction false} ChainFits(g: Graph, d: map<Id, real>, times: map<Id, real>, rank: map<Id, nat>,
      chain: seq<Id>)
    requires IsTimes(g, d, times) && Nonnegative(d) && IsRank(g, rank) && Chain(g, chain)
    ensures Weight(d, chain) <= times[chain[|chain| - 1]]
    decreases |chain|
  {
    var last := |chain| - 1;
    TimeNonnegative(g, d, times, rank, chain[last]);
    if last > 0 {
      var front := chain[..last];
      ChainFits(g, d, times, rank, front);
      var deps := g[chain[last]];
      assert chain[last - 1] in g[chain[last - 1 + 1]];
      var i :| 0 <= i < |deps| && deps[i] == chain[last - 1];
      MaxTimeIsMax(times, deps);
      assert front[|front| - 1] == chain[last - 1];
    } else {
      assert Weight(d, chain[..0]) == 0.0;
    }
  }

  lemma {:induction false} ChainReaching(g: Graph, d: map<Id, real>, times: map<Id, real>, rank: map<Id, nat>, n: Id)
    returns (chain: seq<Id>)
    requires IsTimes(g, d, times) && IsRank(g, rank) && n in g
    ensures Chain(g, chain) && chain[|chain| - 1] == n && Weight(d, chain) == times[n]
    decreases if n in rank then rank[n] else 0
  {
    hide MaxTime, Chain, IsRank, Weight;
    var deps := g[n];
    if deps == [] {
      chain := [n];
      OneStage(g, d, n);
      NoDependencies(times);
    } else {
      MaxTimeIsMax(times, deps);
      var i :| 0 <= i < |deps| && times[deps[i]] == MaxTime(times, deps);
      DependencyBelow(g, rank, n, i);
      var front := ChainReaching(g, d, times, rank, deps[i]);
      chain := front + [n];
      ChainLonger(g, d, front, n, i);
    }
  }

  lemma OneStage(g: Graph, d: map<Id, real>, n: Id)
    requires n in g && n in d
    ensures Chain(g, [n]) && Weight(d, [n]) == d[n]
  {
    assert [n][..0] == [];
  }

  lemma NoDependencies(times: map<Id, real>)
    ensures MaxTime(times, []) == 0.0
  {
  }

  lemma DependencyBelow(g: Graph, rank: map<Id, nat>, n: Id, i: nat)
    requires IsRank(g, rank) && n in g && i < |g[n]| && Closed(g)
    ensures g[n][i] in g && g[n][i] in rank && n in rank && rank[g[n][i]] < rank[n]
  {
    assert g[n][i] in g[n];
  }

  lemma ChainLonger(g: Graph, d: map<Id, real>, front: seq<Id>, n: Id, i: nat)
    requires Chain(g, front) && n in g && i < |g[n]| && front[|front| - 1] == g[n][i] && d.Keys == g.Keys
    ensures Chain(g, front + [n]) && Weight(d, front + [n]) == Weight(d, front) + d[n]
  {
    var chain := front + [n];
    assert chain[..|chain| - 1] == front;
  }

  /** With all durations known and none negative, the projected latency is the weight of the heaviest
      chain of dependencies: no chain weighs more, and one weighs as much. */
  lemma LatencyIsHeaviestChain(g: Graph, d: map<Id, real>, times: map<Id, real>, latency: real)
    requires IsTimes(g, d, times) && Nonnegative(d) && Rankable(g)
    requires (forall n | n in times :: times[n] <= latency) && exists n :: n in times && times[n] == latency
    ensures forall chain | Chain(g, chain) :: Weight(d, chain) <= latency
    ensures exists chain :: Chain(g, chain) && Weight(d, chain) == latency
  {
    var rank :| IsRank(g, rank);
    forall chain | Chain(g, chain)
      ensures Weight(d, chain) <= latency
    {
      ChainFits(g, d, times, rank, chain);
    }
    var n :| n in times && times[n] == latency;
    var chain := ChainReaching(g, d, times, rank, n);
    assert Chain(g, chain) && Weight(d, chain) == latency;
  }

  // The longest duration in each wave, summed up.
  function WaveByWave(d: map<Id, real>, waves: seq<seq<Id>>): real
    requires forall k, i | 0 <= k < |waves| && 0 <= i < |waves[k]| :: waves[k][i] in d
  {
    if waves == [] then 0.0 else MaxTime(d, waves[0]) + WaveByWave(d, waves[1..])
  }

  lemma {:induction false} TimesWithinWaves(specs: seq<Spec>, g: Graph, d: map<Id, real>, times: map<Id, real>,
      done: set<Id>, spent: real)
    requires UniqueIds(specs) && IsGraphOf(g, specs) && IsTimes(g, d, times) && Nonnegative(d) && Rankable(g)
    requires spent >= 0.0 && forall n | n in done && n in times :: times[n] <= spent
    ensures forall k, i | 0 <= k < |Waves(specs, done)| && 0 <= i < |Waves(specs, done)[k]| ::
        Waves(specs, done)[k][i] in d
    ensures forall n | n in times :: times[n] <= spent + WaveByWave(d, Waves(specs, done))
    decreases |IdSet(specs) - done|
  {
    hide IsTimes, IsGraphOf, Rankable, Waves, IdSet, Round, MaxTime, Ids, Nonnegative;
    var r := Round(specs, done);
    WavesStep(specs, done);
    if r != [] {
      RoundAdvances(specs, done);
      NextWave(specs, g, d, times, done, spent);
      TimesWithinWaves(specs, g, d, times, done + IdSet(r), spent + MaxTime(d, Ids(r)));
      assert Waves(specs, done)[1..] == Waves(specs, done + IdSet(r));
    } else {
      AllDone(specs, g, d, times, done);
    }
  }

  lemma AllDone(specs: seq<Spec>, g: Graph, d: map<Id, real>, times: map<Id, real>, done: set<Id>)
    requires IsGraphOf(g, specs) && IsTimes(g, d, times) && Rankable(g) && Round(specs, done) == []
    ensures forall n | n in times :: n in done
  {
    if !(IdSet(specs) <= done) {
      RoundNeverEmpty(specs, g, done);
    }
  }

  lemma NextWave(specs: seq<Spec>, g: Graph, d: map<Id, real>, times: map<Id, real>, done: set<Id>, spent: real)
    requires IsGraphOf(g, specs) && IsTimes(g, d, times) && Nonnegative(d)
    requires spent >= 0.0 && forall n | n in done && n in times :: times[n] <= spent
    ensures
      var r := Round(specs, done);
      && (forall i | 0 <= i < |Ids(r)| :: Ids(r)[i] in d)
      && MaxTime(d, Ids(r)) >= 0.0
      && (forall n | n in done + IdSet(r) && n in times :: times[n] <= spent + MaxTime(d, Ids(r)))
  {
    hide Round, IsGraphOf;
    var r := Round(specs, done);
    var ids := Ids(r);
    IdsAre(r);
    RoundIsReady(g, specs, done);
    forall i | 0 <= i < |ids|
      ensures ids[i] in d && d[ids[i]] >= 0.0
    {
      assert ids[i] in ToSet(ids);
    }
    MaxTimeIsMax(d, ids);
    forall n | n in done + IdSet(r) && n in times
      ensures times[n] <= spent + MaxTime(d, ids)
    {
      if n in IdSet(r) {
        hide IsTimes;
        ReadyTime(g, d, times, done, n, spent);
        assert n in ToSet(ids);
        var i :| 0 <= i < |ids| && ids[i] == n;
      }
    }
  }

  lemma ReadyTime(g: Graph, d: map<Id, real>, times: map<Id, real>, done: set<Id>, n: Id, spent: real)
    requires IsTimes(g, d, times) && n in Ready(g, done)
    requires spent >= 0.0 && forall n | n in done && n in times :: times[n] <= spent
    ensures times[n] <= d[n] + spent
  {
    var deps := g[n];
    MaxTimeIsMax(times, deps);
    if deps != [] {
      var i :| 0 <= i < |deps| && times[deps[i]] == MaxTime(times, deps);
      assert deps[i] in deps;
    }
  }

  /** The projected latency never exceeds running the waves one after the other. */
  lemma LatencyWithinWaves(specs: seq<Spec>, g: Graph, d: map<Id, real>, times: map<Id, real>, latency: real)
    requires UniqueIds(specs) && IsGraphOf(g, specs) && IsTimes(g, d, times) && Nonnegative(d) && Rankable(g)
    requires exists n :: n in times && times[n] == latency
    ensures forall k, i | 0 <= k < |Waves(specs, {})| && 0 <= i < |Waves(specs, {})[k]| :: Waves(specs, {})[k][i] in d
    ensures latency <= WaveByWave(d, Waves(specs, {}))
  {
    TimesWithinWaves(specs, g, d, times, {}, 0.0);
  }
}

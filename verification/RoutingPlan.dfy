/**
 The routing decision: pinned targets per stage, fallbacks, the worst case of calls and cost, and the
 blockers that keep a plan from being ready.
 */
module RoutingPlan {
  import opened Basics
  import opened DependencyGraph
  import opened Planner
  import opened WorstCase
  import Sorting

  // Metrics of one deployment; None is unknown. Cost in micro-USD, latency in milliseconds.
  datatype Candidate = Candidate(config: nat, eligible: bool, cost: Option<real>, latency: Option<real>,
      quality: Option<real>)

  datatype Choice = Choice(selected: Option<nat>, candidates: seq<Candidate>)

  datatype Profile = Profile(
    inputTokens: Option<nat>, outputTokens: Option<nat>, maxCost: Option<nat>, maxLatency: Option<nat>,
    maxCalls: nat, maxAttempts: nat, restricted: bool, tools: bool, modality: bool, json: bool)

  datatype StageDecision = StageDecision(node: Id, deps: seq<Id>, selected: Option<nat>, fallbacks: seq<nat>,
      candidates: seq<Candidate>)

  datatype Decision = Decision(
    ready: bool, order: seq<Spec>, stages: seq<StageDecision>, waves: seq<seq<Id>>,
    cost: Option<int>, latency: Option<real>, calls: nat)

  ghost predicate DistinctConfigs(cs: seq<Candidate>) { DistinctBy(cs, (c: Candidate) => c.config) }

  predicate HasConfig(cs: seq<Candidate>, config: nat) {
    exists i | 0 <= i < |cs| :: cs[i].config == config
  }

  // Selection names every deployment once and picks one of them, if any.
  ghost predicate ValidChoice(c: Choice) {
    && DistinctConfigs(c.candidates)
    && (c.selected.Some? ==> HasConfig(c.candidates, c.selected.value))
    && (forall i | 0 <= i < |c.candidates| :: c.candidates[i].cost.Some? ==> c.candidates[i].cost.value >= 0.0)
  }

  // ----- fallbacks of a stage that escalates -----

  function Lookup(cs: seq<Candidate>, config: nat): (c: Option<Candidate>)
    ensures c.Some? <==> HasConfig(cs, config)
    ensures c.Some? ==> c.value in cs && c.value.config == config
  {
    if cs == [] then None else if cs[0].config == config then Some(cs[0]) else Lookup(cs[1..], config)
  }

  predicate Alternative(c: Candidate, chosen: Candidate) {
    && c.eligible && c.config != chosen.config
    && c.quality.Some? && chosen.quality.Some? && c.quality.value > chosen.quality.value
  }

  function Alternatives(cs: seq<Candidate>, chosen: Candidate): seq<Candidate> {
    if cs == [] then []
    else (if Alternative(cs[0], chosen) then [cs[0]] else []) + Alternatives(cs[1..], chosen)
  }

  // Higher quality first, then the smaller identifier.
  predicate Before(a: Candidate, b: Candidate) {
    a.quality.Some? && b.quality.Some?
    && (a.quality.value > b.quality.value || (a.quality.value == b.quality.value && a.config <= b.config))
  }

  function Sorted(cs: seq<Candidate>): seq<Candidate> {
    if cs == [] then [] else Sorting.Insert(cs[0], Sorted(cs[1..]), Before)
  }

  function Configs(cs: seq<Candidate>): seq<nat> {
    if cs == [] then [] else [cs[0].config] + Configs(cs[1..])
  }

  function Limit(maxAttempts: nat, repairs: nat): nat {
    if maxAttempts < 1 + repairs then 0 else maxAttempts - 1 - repairs
  }

  function Take<T>(xs: seq<T>, n: nat): seq<T> { if n < |xs| then xs[..n] else xs }

  function Fallbacks(spec: Spec, choice: Choice, maxAttempts: nat): seq<nat> {
    if !spec.escalate || choice.selected.None? then []
    else
      match Lookup(choice.candidates, choice.selected.value)
      case None => []
      case Some(chosen) => Configs(Take(Sorted(Alternatives(choice.candidates, chosen)),
          Limit(maxAttempts, spec.maxRepairs)))
  }

  function Decide(spec: Spec, choice: Choice, maxAttempts: nat): StageDecision {
    StageDecision(spec.id, spec.deps, choice.selected, Fallbacks(spec, choice, maxAttempts), choice.candidates)
  }

  lemma {:induction false} AlternativesMean(cs: seq<Candidate>, chosen: Candidate)
    requires DistinctConfigs(cs)
    ensures
      var alts := Alternatives(cs, chosen);
      && (forall c :: c in alts <==> c in cs && Alternative(c, chosen))
      && DistinctConfigs(alts)
    decreases |cs|
  {
    if cs != [] {
      AlternativesMean(cs[1..], chosen);
      var rest := Alternatives(cs[1..], chosen);
      assert cs == [cs[0]] + cs[1..];
      if Alternative(cs[0], chosen) {
        forall i | 0 <= i < |rest|
          ensures rest[i].config != cs[0].config
        {
          assert rest[i] in cs[1..];
        }
      }
    }
  }

  ghost predicate Ascending(cs: seq<Candidate>) { Sorting.Ordered(cs, Before) }

  lemma InsertMeans(c: Candidate, cs: seq<Candidate>)
    requires Ascending(cs) && c.quality.Some?
        && (forall i | 0 <= i < |cs| :: cs[i].quality.Some? && cs[i].config != c.config)
    requires DistinctConfigs(cs)
    ensures
      var r := Sorting.Insert(c, cs, Before);
      Ascending(r) && DistinctConfigs(r) && |r| == |cs| + 1 && forall x :: x in r <==> x == c || x in cs
  {
    hide Sorting.Ordered;
    Sorting.InsertMeans(c, cs, Before);
    Sorting.InsertKeepsOrder(c, cs, Before);
    Sorting.InsertKeepsDistinct(c, cs, Before);
    DistinctConfigsPermute(cs, c, Sorting.Insert(c, cs, Before));
  }

  lemma DistinctConfigsPermute(cs: seq<Candidate>, c: Candidate, r: seq<Candidate>)
    requires DistinctConfigs(cs) && (forall i | 0 <= i < |cs| :: cs[i].config != c.config) && Distinct(r)
    requires forall x :: x in r <==> x == c || x in cs
    ensures DistinctConfigs(r)
  {
    forall i, j | 0 <= i < j < |r|
      ensures r[i].config != r[j].config
    {
      assert r[i] in r && r[j] in r && r[i] != r[j];
      if r[i] != c && r[j] != c {
        var k :| 0 <= k < |cs| && cs[k] == r[i];
        var l :| 0 <= l < |cs| && cs[l] == r[j];
      }
    }
  }

  lemma {:induction false} SortedMeans(cs: seq<Candidate>)
    requires DistinctConfigs(cs) && forall i | 0 <= i < |cs| :: cs[i].quality.Some?
    ensures
      var r := Sorted(cs);
      Ascending(r) && DistinctConfigs(r) && |r| == |cs| && forall x :: x in r <==> x in cs
    decreases |cs|
  {
    if cs != [] {
      SortedMeans(cs[1..]);
      var rest := Sorted(cs[1..]);
      assert cs == [cs[0]] + cs[1..];
      forall i | 0 <= i < |rest|
        ensures rest[i].quality.Some? && rest[i].config != cs[0].config
      {
        assert rest[i] in cs[1..];
        var k :| 0 <= k < |cs[1..]| && cs[1..][k] == rest[i];
        assert cs[k + 1] == rest[i];
      }
      InsertMeans(cs[0], rest);
    }
  }

  lemma {:induction false} ConfigsAre(cs: seq<Candidate>)
    ensures |Configs(cs)| == |cs| && forall i | 0 <= i < |cs| :: Configs(cs)[i] == cs[i].config
    decreases |cs|
  {
    if cs != [] {
      ConfigsAre(cs[1..]);
    }
  }

  ghost predicate IsAlternative(cs: seq<Candidate>, config: nat, chosen: Candidate) {
    exists c :: c in cs && c.config == config && Alternative(c, chosen)
  }

  /** A stage that escalates falls back only to eligible deployments of strictly higher quality, the best
      ones first and none better left out, no deployment twice and never the selected one, and no more
      than leave room for its repairs. */
  lemma FallbacksEscalate(spec: Spec, choice: Choice, maxAttempts: nat)
    requires ValidChoice(choice)
    ensures
      var fallbacks := Fallbacks(spec, choice, maxAttempts);
      && Distinct(fallbacks) && |fallbacks| <= Limit(maxAttempts, spec.maxRepairs)
      && (fallbacks != [] ==> spec.escalate && choice.selected.Some? && choice.selected.value !in fallbacks)
      && (forall i | 0 <= i < |fallbacks| :: HasConfig(choice.candidates, fallbacks[i]))
    ensures spec.escalate && choice.selected.Some? ==>
      var fallbacks := Fallbacks(spec, choice, maxAttempts);
      var chosen := Lookup(choice.candidates, choice.selected.value).value;
      && (forall i | 0 <= i < |fallbacks| :: IsAlternative(choice.candidates, fallbacks[i], chosen))
      && (forall a, b | a in choice.candidates && Alternative(a, chosen) && b in choice.candidates
          && b.config in fallbacks
           && Before(a, b) && a.config != b.config :: a.config in fallbacks)
      && (|fallbacks| < Limit(maxAttempts, spec.maxRepairs) ==>
           forall a | a in choice.candidates && Alternative(a, chosen) :: a.config in fallbacks)
  {
    hide Fallbacks, Sorted, Alternatives, Take, Configs, Before, Alternative, HasConfig, Lookup;
    if !(spec.escalate && choice.selected.Some?) {
      NoFallbacks(spec, choice, maxAttempts);
    } else {
      var cs := choice.candidates;
      var chosen := SomeFallbacks(spec, choice, maxAttempts);
      var alts := Alternatives(cs, chosen);
      AlternativesMean(cs, chosen);
      forall i | 0 <= i < |alts| ensures alts[i].quality.Some? {
        assert alts[i] in alts;
        AlternativeKnown(alts[i], chosen);
      }
      SortedMeans(alts);
      TopOf(cs, chosen, Sorted(alts), Limit(maxAttempts, spec.maxRepairs));
    }
  }

  lemma SomeFallbacks(spec: Spec, choice: Choice, maxAttempts: nat) returns (chosen: Candidate)
    requires ValidChoice(choice) && spec.escalate && choice.selected.Some?
    ensures Lookup(choice.candidates, choice.selected.value) == Some(chosen) && chosen.config == choice.selected.value
    ensures Fallbacks(spec, choice, maxAttempts)
         == Configs(Take(Sorted(Alternatives(choice.candidates, chosen)), Limit(maxAttempts, spec.maxRepairs)))
  {
    hide Sorted, Alternatives, Take, Configs;
    chosen := Lookup(choice.candidates, choice.selected.value).value;
  }

  lemma NoFallbacks(spec: Spec, choice: Choice, maxAttempts: nat)
    requires !(spec.escalate && choice.selected.Some?)
    ensures Fallbacks(spec, choice, maxAttempts) == [] && Distinct(Fallbacks(spec, choice, maxAttempts))
  {
  }

  lemma AlternativeKnown(c: Candidate, chosen: Candidate)
    requires Alternative(c, chosen)
    ensures c.quality.Some?
  {
  }

  // The first `n` of all alternatives in order.
  lemma TopOf(cs: seq<Candidate>, chosen: Candidate, sorted: seq<Candidate>, n: nat)
    requires DistinctConfigs(cs) && Ascending(sorted) && DistinctConfigs(sorted)
    requires forall c :: c in sorted <==> c in cs && Alternative(c, chosen)
    ensures
      var top := Configs(Take(sorted, n));
      && Distinct(top) && |top| <= n && chosen.config !in top
      && (forall i | 0 <= i < |top| :: HasConfig(cs, top[i]) && IsAlternative(cs, top[i], chosen))
      && (forall a, b | a in cs && Alternative(a, chosen) && b in cs && b.config in top && Before(a, b)
          && a.config != b.config :: a.config in top)
      && (|top| < n ==> forall a | a in cs && Alternative(a, chosen) :: a.config in top)
  {
    var taken := Take(sorted, n);
    var top := Configs(taken);
    ConfigsAre(taken);
    hide Configs, HasConfig, Before, Alternative;
    forall i | 0 <= i < |top|
      ensures taken[i] == sorted[i] && taken[i] in cs && Alternative(taken[i], chosen)
    {
      assert sorted[i] in sorted;
    }
    forall i | 0 <= i < |top|
      ensures HasConfig(cs, top[i])
    {
      Present(cs, taken[i]);
    }
    forall a, b | a in cs && Alternative(a, chosen) && b in cs && b.config in top && Before(a, b)
        && a.config != b.config
      ensures a.config in top
    {
      var j :| 0 <= j < |top| && top[j] == b.config;
      SameConfig(cs, b, taken[j]);
      assert a in sorted;
      Earlier(sorted, a, j);
      var k :| 0 <= k <= j && sorted[k] == a;
      assert top[k] == a.config;
    }
    if |top| < n {
      forall a | a in cs && Alternative(a, chosen)
        ensures a.config in top
      {
        assert a in sorted;
        var k :| 0 <= k < |sorted| && sorted[k] == a;
        assert top[k] == a.config;
      }
    }
    NotChosen(taken, chosen);
  }

  lemma NotChosen(cs: seq<Candidate>, chosen: Candidate)
    requires forall i | 0 <= i < |cs| :: Alternative(cs[i], chosen)
    ensures chosen.config !in Configs(cs)
  {
    ConfigsAre(cs);
  }

  lemma Present(cs: seq<Candidate>, c: Candidate)
    requires c in cs
    ensures HasConfig(cs, c.config)
  {
    var k :| 0 <= k < |cs| && cs[k] == c;
  }

  lemma Earlier(sorted: seq<Candidate>, a: Candidate, j: nat)
    requires Ascending(sorted) && a in sorted && j < |sorted| && Before(a, sorted[j]) && a.config != sorted[j].config
    ensures exists k :: 0 <= k <= j && sorted[k] == a
  {
    forall i | j < i < |sorted|
      ensures sorted[i] != a
    {
      assert Before(sorted[j], sorted[i]);
    }
  }

  lemma SameConfig(cs: seq<Candidate>, a: Candidate, b: Candidate)
    requires DistinctConfigs(cs) && a in cs && b in cs && a.config == b.config
    ensures a == b
  {
    var i :| 0 <= i < |cs| && cs[i] == a;
    var j :| 0 <= j < |cs| && cs[j] == b;
    assert i == j;
  }

  // An eligible deployment, not the selected one, that is known to be strictly better.
  ghost predicate Better(c: Candidate, chosen: Candidate) {
    c.eligible && c.config != chosen.config && c.quality.Some? && chosen.quality.Some?
    && chosen.quality.value < c.quality.value
  }

  // The better one first, and of equals the one with the smaller identifier.
  ghost predicate Precedes(a: Candidate, b: Candidate) {
    a.quality.Some? && b.quality.Some?
    && (b.quality.value < a.quality.value || (a.quality.value == b.quality.value && a.config < b.config))
  }

  // The candidates behind a list of fallbacks.
  ghost predicate Stand(cs: seq<Candidate>, fallbacks: seq<nat>, found: seq<Candidate>) {
    |found| == |fallbacks| && forall i | 0 <= i < |found| :: found[i] in cs && found[i].config == fallbacks[i]
  }

  // The best ones in order, as many as there is room for.
  ghost predicate BestInOrder(cs: seq<Candidate>, chosen: Candidate, found: seq<Candidate>, room: nat) {
    && |found| <= room
    && (forall i | 0 <= i < |found| :: Better(found[i], chosen))
    && (forall i, j | 0 <= i < j < |found| :: Precedes(found[i], found[j]))
    && forall c | c in cs && Better(c, chosen) && c !in found ::
         |found| == room && forall i | 0 <= i < |found| :: Precedes(found[i], c)
  }

  lemma BetterIsAlternative(c: Candidate, chosen: Candidate)
    ensures Better(c, chosen) <==> Alternative(c, chosen)
  {
  }

  lemma BeforePrecedes(a: Candidate, b: Candidate)
    requires a.config != b.config
    ensures Before(a, b) <==> Precedes(a, b)
  {
  }

  lemma SortedPrecedes(cs: seq<Candidate>, i: nat, j: nat)
    requires Ascending(cs) && DistinctConfigs(cs) && i < j < |cs|
    ensures Precedes(cs[i], cs[j])
  {
    BeforePrecedes(cs[i], cs[j]);
  }

  lemma TakenAreBest(cs: seq<Candidate>, chosen: Candidate, sorted: seq<Candidate>, room: nat)
    requires Ascending(sorted) && DistinctConfigs(sorted)
    requires forall c :: c in sorted <==> c in cs && Alternative(c, chosen)
    ensures BestInOrder(cs, chosen, Take(sorted, room), room)
  {
    var found := Take(sorted, room);
    hide Sorting.Ordered, DistinctConfigs, Alternative, Better, Precedes;
    forall c
      ensures Better(c, chosen) <==> Alternative(c, chosen)
    {
      BetterIsAlternative(c, chosen);
    }
    forall i | 0 <= i < |found|
      ensures found[i] == sorted[i] && Better(found[i], chosen)
    {
      assert sorted[i] in sorted;
    }
    forall i, j | 0 <= i < j < |sorted|
      ensures Precedes(sorted[i], sorted[j])
    {
      SortedPrecedes(sorted, i, j);
    }
    forall c | c in cs && Better(c, chosen) && c !in found
      ensures |found| == room && forall i | 0 <= i < |found| :: Precedes(found[i], c)
    {
      assert c in sorted;
      var k :| 0 <= k < |sorted| && sorted[k] == c;
      forall m | 0 <= m < |found|
        ensures sorted[m] != c
      {
        assert found[m] in found;
      }
    }
  }

  /** The fallbacks of a stage that escalates, exactly: the deployments behind them are the best of those
      that are eligible and known to be better than the selected one, in order, and as many as leave room
      for the repairs. */
  lemma FallbacksExactly(spec: Spec, choice: Choice, maxAttempts: nat)
    returns (chosen: Candidate, found: seq<Candidate>)
    requires ValidChoice(choice) && spec.escalate && choice.selected.Some?
    ensures chosen in choice.candidates && chosen.config == choice.selected.value
    ensures Stand(choice.candidates, Fallbacks(spec, choice, maxAttempts), found)
    ensures BestInOrder(choice.candidates, chosen, found,
                if 1 + spec.maxRepairs <= maxAttempts then maxAttempts - 1 - spec.maxRepairs else 0)
  {
    hide Fallbacks, Sorted, Alternatives, Configs, Before, Alternative, HasConfig, BestInOrder;
    var cs, room := choice.candidates, Limit(maxAttempts, spec.maxRepairs);
    chosen := SomeFallbacks(spec, choice, maxAttempts);
    var alts := Alternatives(cs, chosen);
    AlternativesMean(cs, chosen);
    forall i | 0 <= i < |alts| ensures alts[i].quality.Some? {
      assert alts[i] in alts;
      AlternativeKnown(alts[i], chosen);
    }
    SortedMeans(alts);
    found := Take(Sorted(alts), room);
    TakenAreBest(cs, chosen, Sorted(alts), room);
    ConfigsAre(found);
    forall i | 0 <= i < |found|
      ensures found[i] in cs
    {
      assert Sorted(alts)[i] in Sorted(alts);
    }
  }

  // ----- the worst case -----

  predicate IsPinned(s: StageDecision, config: nat) {
    (s.selected.Some? && config == s.selected.value) || config in s.fallbacks
  }

  function PinnedAmong(cs: seq<Candidate>, s: StageDecision): seq<Candidate> {
    if cs == [] then []
    else (if IsPinned(s, cs[0].config) then [cs[0]] else []) + PinnedAmong(cs[1..], s)
  }

  function Pinned(s: StageDecision): seq<Candidate> {
    PinnedAmong(s.candidates, s)
  }

  function Money(cost: Option<real>): Option<int> {
    if cost.Some? then Some(Ceil(cost.value)) else None
  }

  function CeilCosts(cs: seq<Candidate>): seq<Option<int>> {
    if cs == [] then [] else [Money(cs[0].cost)] + CeilCosts(cs[1..])
  }

  function CostKey(c: Candidate): real { if c.cost.Some? then c.cost.value else 0.0 }

  // The first of the most expensive.
  function Dearest(cs: seq<Candidate>): Candidate
    requires cs != []
  {
    if |cs| == 1 then cs[0]
    else
      var rest := Dearest(cs[1..]);
      if CostKey(rest) > CostKey(cs[0]) then rest else cs[0]
  }

  // What a stage adds to the list of costs.
  function StageCosts(pinned: seq<Candidate>, repairs: nat): seq<Option<int>> {
    CeilCosts(pinned) + if pinned != [] then Repeated(Money(Dearest(pinned).cost), repairs) else []
  }

  predicate AllKnown(costs: seq<Option<int>>) {
    forall i | 0 <= i < |costs| :: costs[i].Some?
  }

  function Values(costs: seq<Option<int>>): seq<int>
    requires AllKnown(costs)
  {
    if costs == [] then [] else [costs[0].value] + Values(costs[1..])
  }

  function Total(costs: seq<Option<int>>): Option<int> {
    if costs != [] && AllKnown(costs) then Some(Sum(Values(costs))) else None
  }

  function LatencySum(cs: seq<Candidate>): Option<real> {
    if cs == [] then Some(0.0)
    else
      match (cs[0].latency, LatencySum(cs[1..]))
      case (Some(x), Some(rest)) => Some(x + rest)
      case _ => None
  }

  function LatencyMax(cs: seq<Candidate>): Option<real> {
    if cs == [] then None
    else if |cs| == 1 then cs[0].latency
    else
      match (cs[0].latency, LatencyMax(cs[1..]))
      case (Some(x), Some(rest)) => Some(if x > rest then x else rest)
      case _ => None
  }

  // Every attempt in sequence, repairs at the slowest target.
  function Duration(pinned: seq<Candidate>, repairs: nat): Option<real> {
    if pinned == [] then None
    else
      match (LatencySum(pinned), LatencyMax(pinned))
      case (Some(sum), Some(longest)) => Some(sum + longest * repairs as real)
      case _ => None
  }

  function AllCosts(stages: seq<StageDecision>, specs: seq<Spec>): seq<Option<int>>
    requires |stages| == |specs|
  {
    if stages == [] then [] else StageCosts(Pinned(stages[0]), specs[0].maxRepairs) + AllCosts(stages[1..], specs[1..])
  }

  function AllCalls(stages: seq<StageDecision>, specs: seq<Spec>): nat
    requires |stages| == |specs|
  {
    if stages == [] then 0 else |Pinned(stages[0])| + specs[0].maxRepairs + AllCalls(stages[1..], specs[1..])
  }

  method Project(stages: seq<StageDecision>, specs: seq<Spec>)
    returns (calls: nat, cost: Option<int>, durations: map<Id, Option<real>>)
    requires |stages| == |specs| && forall i | 0 <= i < |stages| :: stages[i].node == specs[i].id
    requires UniqueIds(specs)
    ensures calls == AllCalls(stages, specs) && cost == Total(AllCosts(stages, specs))
    ensures durations.Keys == IdSet(specs)
    ensures forall i | 0 <= i < |stages| :: durations[specs[i].id] == Duration(Pinned(stages[i]), specs[i].maxRepairs)
  {
    hide Duration, Pinned, StageCosts, AllCalls, AllCosts, Total, IdSet;
    NothingListed();
    calls, durations := 0, map[];
    var costs: seq<Option<int>> := [];
    for i := 0 to |stages|
      invariant AllCalls(stages, specs) == calls + AllCalls(stages[i..], specs[i..])
      invariant AllCosts(stages, specs) == costs + AllCosts(stages[i..], specs[i..])
      invariant durations.Keys == IdSet(specs[..i])
      invariant forall j | 0 <= j < i :: specs[j].id in durations
      invariant forall j | 0 <= j < i :: durations[specs[j].id] == Duration(Pinned(stages[j]), specs[j].maxRepairs)
    {
      var pinned, repairs := Pinned(stages[i]), specs[i].maxRepairs;
      ListedStep(stages, specs, i);
      Regroup(costs, StageCosts(pinned, repairs), AllCosts(stages[i + 1..], specs[i + 1..]));
      calls := calls + |pinned| + repairs;
      costs := costs + StageCosts(pinned, repairs);
      durations := durations[specs[i].id := Duration(pinned, repairs)];
    }
    assert specs[..|specs|] == specs;
    assert costs + [] == costs;
    cost := Total(costs);
  }

  lemma NothingListed()
    ensures AllCosts([], []) == [] && AllCalls([], []) == 0 && IdSet([]) == {}
  {
  }

  lemma ListedStep(stages: seq<StageDecision>, specs: seq<Spec>, i: nat)
    requires |stages| == |specs| && i < |stages|
    ensures AllCosts(stages[i..], specs[i..])
         == StageCosts(Pinned(stages[i]), specs[i].maxRepairs) + AllCosts(stages[i + 1..], specs[i + 1..])
    ensures AllCalls(stages[i..], specs[i..])
         == |Pinned(stages[i])| + specs[i].maxRepairs + AllCalls(stages[i + 1..], specs[i + 1..])
    ensures IdSet(specs[..i + 1]) == IdSet(specs[..i]) + {specs[i].id}
  {
    assert stages[i..][0] == stages[i] && stages[i..][1..] == stages[i + 1..];
    assert specs[i..][0] == specs[i] && specs[i..][1..] == specs[i + 1..];
    assert specs[..i + 1] == specs[..i] + [specs[i]];
    IdSetAppend(specs[..i], [specs[i]]);
    assert IdSet([specs[i]]) == {[specs[i]][0].id};
  }

  // ----- what the total means -----

  function SumCeil(cs: seq<Candidate>): int {
    if cs == [] then 0 else Ceil(CostKey(cs[0])) + SumCeil(cs[1..])
  }

  // What a stage may cost at most by the forecast.
  function WorstCost(pinned: seq<Candidate>, repairs: nat): int
    requires pinned != []
  {
    SumCeil(pinned) + repairs * Ceil(CostKey(Dearest(pinned)))
  }

  predicate Costed(cs: seq<Candidate>) {
    forall i | 0 <= i < |cs| :: cs[i].cost.Some?
  }

  lemma {:induction false} ValuesAppend(a: seq<Option<int>>, b: seq<Option<int>>)
    ensures AllKnown(a + b) <==> AllKnown(a) && AllKnown(b)
    ensures AllKnown(a + b) ==> Sum(Values(a + b)) == Sum(Values(a)) + Sum(Values(b))
    decreases |a|
  {
    assert forall i | 0 <= i < |a| :: (a + b)[i] == a[i];
    assert forall i | 0 <= i < |b| :: (a + b)[|a| + i] == b[i];
    if a == [] {
      assert a + b == b;
    } else {
      assert (a + b)[1..] == a[1..] + b;
      ValuesAppend(a[1..], b);
      if AllKnown(a + b) {
        assert Values(a + b)[1..] == Values((a + b)[1..]);
        assert Values(a)[1..] == Values(a[1..]);
      }
    }
  }

  lemma {:induction false} CeilCostsSum(cs: seq<Candidate>)
    ensures AllKnown(CeilCosts(cs)) <==> Costed(cs)
    ensures Costed(cs) ==> Sum(Values(CeilCosts(cs))) == SumCeil(cs)
    decreases |cs|
  {
    if cs != [] {
      CeilCostsSum(cs[1..]);
      var all := CeilCosts(cs);
      assert all[1..] == CeilCosts(cs[1..]);
      assert AllKnown(all) <==> all[0].Some? && AllKnown(all[1..]) by {
        assert forall i | 0 < i < |all| :: all[i] == all[1..][i - 1];
      }
      assert Costed(cs) <==> cs[0].cost.Some? && Costed(cs[1..]) by {
        assert forall i | 0 < i < |cs| :: cs[i] == cs[1..][i - 1];
      }
      if Costed(cs) {
        assert Values(all)[1..] == Values(all[1..]);
      }
    }
  }

  lemma {:induction false} RepeatedSum(x: int, n: nat)
    ensures AllKnown(Repeated(Some(x), n)) && Sum(Values(Repeated(Some(x), n))) == n * x
    decreases n
  {
    if n > 0 {
      RepeatedSum(x, n - 1);
      var all := Repeated(Some(x), n);
      assert all[1..] == Repeated(Some(x), n - 1);
      assert forall i | 0 < i < |all| :: all[i] == all[1..][i - 1];
      assert Values(all)[1..] == Values(all[1..]);
      assert n * x == (n - 1) * x + x;
    }
  }

  lemma {:induction false} DearestIsDearest(cs: seq<Candidate>)
    requires cs != []
    ensures Dearest(cs) in cs && forall i | 0 <= i < |cs| :: CostKey(cs[i]) <= CostKey(Dearest(cs))
    decreases |cs|
  {
    if |cs| > 1 {
      DearestIsDearest(cs[1..]);
      assert forall i | 0 < i < |cs| :: cs[i] == cs[1..][i - 1];
    }
  }

  // A stage's share of the list is known exactly if all its targets are priced, and adds up to its
  // worst cost.
  lemma StageCostsSum(pinned: seq<Candidate>, repairs: nat)
    requires pinned != []
    ensures AllKnown(StageCosts(pinned, repairs)) <==> Costed(pinned)
    ensures Costed(pinned) ==> Sum(Values(StageCosts(pinned, repairs))) == WorstCost(pinned, repairs)
  {
    CeilCostsSum(pinned);
    DearestIsDearest(pinned);
    var dearest := Dearest(pinned);
    var extra := Repeated(Money(dearest.cost), repairs);
    ValuesAppend(CeilCosts(pinned), extra);
    if Costed(pinned) {
      var k :| 0 <= k < |pinned| && pinned[k] == dearest;
      RepeatedSum(Ceil(dearest.cost.value), repairs);
    }
  }

  function WorstCosts(stages: seq<StageDecision>, specs: seq<Spec>): int
    requires |stages| == |specs| && forall i | 0 <= i < |stages| :: Pinned(stages[i]) != []
  {
    if stages == [] then 0 else WorstCost(Pinned(stages[0]), specs[0].maxRepairs) + WorstCosts(stages[1..], specs[1..])
  }

  lemma {:induction false} TotalIsWorst(stages: seq<StageDecision>, specs: seq<Spec>)
    requires |stages| == |specs| && forall i | 0 <= i < |stages| :: Pinned(stages[i]) != []
    ensures AllKnown(AllCosts(stages, specs)) <==> forall i | 0 <= i < |stages| :: Costed(Pinned(stages[i]))
    ensures AllKnown(AllCosts(stages, specs)) ==> Sum(Values(AllCosts(stages, specs))) == WorstCosts(stages, specs)
    decreases |stages|
  {
    hide Pinned, WorstCost, StageCosts, Costed, AllKnown;
    if stages != [] {
      TotalIsWorst(stages[1..], specs[1..]);
      StageCostsSum(Pinned(stages[0]), specs[0].maxRepairs);
      ValuesAppend(StageCosts(Pinned(stages[0]), specs[0].maxRepairs), AllCosts(stages[1..], specs[1..]));
      assert forall i | 0 < i < |stages| :: stages[i] == stages[1..][i - 1];
    } else {
      NoneUnknown();
    }
  }

  lemma NoneUnknown()
    ensures AllKnown([]) && Values([]) == []
  {
  }

  // The forecast for these attempts.
  function Spent(attempts: seq<Attempt>, pinned: seq<Candidate>): int {
    if attempts == [] then 0
    else
      (if attempts[0].target < |pinned| then Ceil(CostKey(pinned[attempts[0].target])) else 0)
      + Spent(attempts[1..], pinned)
  }

  predicate Priced(cs: seq<Candidate>) {
    forall i | 0 <= i < |cs| :: CostKey(cs[i]) >= 0.0
  }

  function Price(c: Candidate): real { Ceil(CostKey(c)) as real }

  function Prices(cs: seq<Candidate>): seq<real> { Each(Price, cs) }

  lemma {:induction false} SpentWeighs(attempts: seq<Attempt>, cs: seq<Candidate>)
    ensures Weigh(attempts, Prices(cs)) == Spent(attempts, cs) as real
    decreases |attempts|
  {
    hide Ceil, CostKey;
    if attempts != [] {
      SpentWeighs(attempts[1..], cs);
    }
  }

  lemma {:induction false} SumCeilWeighs(cs: seq<Candidate>)
    ensures SumOf(Prices(cs)) == SumCeil(cs) as real
    decreases |cs|
  {
    hide Ceil, CostKey;
    if cs != [] {
      SumCeilWeighs(cs[1..]);
      assert Prices(cs)[1..] == Prices(cs[1..]);
    }
  }

  lemma CeilUp(x: real, y: real)
    requires x <= y
    ensures Ceil(x) <= Ceil(y)
  {
  }

  // The weight of the dearest target, in whole micro-USD, is the greatest.
  lemma DearestIsGreatest(cs: seq<Candidate>) returns (k: nat)
    requires cs != [] && Priced(cs)
    ensures k < |cs| && cs[k] == Dearest(cs) && IsGreatest(Prices(cs), k) && Nonnegatives(Prices(cs))
  {
    DearestIsDearest(cs);
    k :| 0 <= k < |cs| && cs[k] == Dearest(cs);
    forall i | 0 <= i < |cs|
      ensures Ceil(CostKey(cs[i])) <= Ceil(CostKey(cs[k])) && Ceil(CostKey(cs[i])) >= 0
    {
      CeilUp(CostKey(cs[i]), CostKey(cs[k]));
    }
  }

  lemma {:induction false} TimesWhole(n: nat, x: int)
    ensures Times(n, x as real) == (n * x) as real
    decreases n
  {
    hide Times;
    TimesStep(n, x as real);
    if n > 0 {
      TimesWhole(n - 1, x);
      assert n * x == (n - 1) * x + x;
    }
  }

  lemma WorstWeighs(cs: seq<Candidate>, repairs: nat, k: nat)
    requires k < |cs| && cs[k] == Dearest(cs)
    ensures SumOf(Prices(cs)) + Times(repairs, Prices(cs)[k]) == WorstCost(cs, repairs) as real
  {
    hide CostKey, Ceil, SumCeil, Dearest, Times;
    SumCeilWeighs(cs);
    TimesWhole(repairs, Ceil(CostKey(Dearest(cs))));
  }

  /** The worst case of a stage is exactly that: no attempts, one first attempt at each target in
      whatever order and repairs as often as allowed, are forecast to cost more, and attempts in the
      very order of the targets cost as much. */
  lemma WorstCostIsWorst(targets: seq<Candidate>, repairs: nat)
    requires targets != [] && Priced(targets)
    ensures forall attempts: seq<Attempt> | Sequence(attempts, Upto(|targets|), |targets|, repairs) ::
              Spent(attempts, targets) <= WorstCost(targets, repairs)
    ensures exists attempts: seq<Attempt> :: attempts != [] &&
              Escalation(attempts, |targets|, repairs) && Spent(attempts, targets) == WorstCost(targets, repairs)
  {
    hide Times, Sequence, Escalation, SumCeil, Spent, WorstCost, Weigh, SumOf;
    var w := Prices(targets);
    var k := DearestIsGreatest(targets);
    WorstWeighs(targets, repairs, k);
    HeaviestIsWorst(w, repairs, k);
    forall attempts: seq<Attempt> | Sequence(attempts, Upto(|targets|), |targets|, repairs)
      ensures Spent(attempts, targets) <= WorstCost(targets, repairs)
    {
      SpentWeighs(attempts, targets);
    }
    var all: seq<Attempt> :| all != [] && Escalation(all, |w|, repairs)
      && Weigh(all, w) == SumOf(w) + Times(repairs, w[k]);
    SpentWeighs(all, targets);
  }

  // ----- what the duration means -----

  predicate Timed(cs: seq<Candidate>) {
    forall i | 0 <= i < |cs| :: cs[i].latency.Some?
  }

  function Wait(c: Candidate): real { if c.latency.Some? then c.latency.value else 0.0 }

  function Waits(cs: seq<Candidate>): seq<real> { Each(Wait, cs) }

  // How long these attempts take, one after the other.
  function Lasts(attempts: seq<Attempt>, targets: seq<Candidate>): real { Weigh(attempts, Waits(targets)) }

  lemma {:induction false} LatencySumWaits(cs: seq<Candidate>)
    ensures LatencySum(cs).Some? <==> Timed(cs)
    ensures Timed(cs) ==> LatencySum(cs) == Some(SumOf(Waits(cs)))
    decreases |cs|
  {
    if cs != [] {
      LatencySumWaits(cs[1..]);
      TimedStep(cs);
      EachStep(Wait, cs);
    }
  }

  lemma TimedStep(cs: seq<Candidate>)
    requires cs != []
    ensures Timed(cs) <==> cs[0].latency.Some? && Timed(cs[1..])
  {
    assert forall i | 0 < i < |cs| :: cs[i] == cs[1..][i - 1];
  }

  lemma {:induction false} LatencyMaxWaits(cs: seq<Candidate>) returns (k: nat)
    requires cs != []
    ensures LatencyMax(cs).Some? <==> Timed(cs)
    ensures Timed(cs) ==> IsGreatest(Waits(cs), k) && LatencyMax(cs) == Some(Waits(cs)[k])
    decreases |cs|
  {
    k := 0;
    if |cs| > 1 {
      var later := LatencyMaxWaits(cs[1..]);
      TimedStep(cs);
      if Timed(cs) {
        var w, rest := Waits(cs), Waits(cs[1..]);
        assert forall i | 0 < i < |w| :: w[i] == rest[i - 1];
        k := if Wait(cs[0]) > rest[later] then 0 else later + 1;
      }
    }
  }

  // A stage's duration is known exactly if it has targets and the latency of each is known.
  lemma DurationKnown(pinned: seq<Candidate>, repairs: nat)
    ensures Duration(pinned, repairs).Some? <==> pinned != [] && Timed(pinned)
  {
    if pinned != [] {
      LatencySumWaits(pinned);
      var k := LatencyMaxWaits(pinned);
    }
  }

  lemma DurationIs(pinned: seq<Candidate>, repairs: nat, sum: real, longest: real)
    requires pinned != [] && LatencySum(pinned) == Some(sum) && LatencyMax(pinned) == Some(longest)
    ensures Duration(pinned, repairs).Some?
    ensures Duration(pinned, repairs).value == sum + Times(repairs, longest)
  {
    assert Times(repairs, longest) == longest * repairs as real;
  }

  lemma DurationWeighs(cs: seq<Candidate>, repairs: nat) returns (k: nat)
    requires cs != [] && Timed(cs)
    ensures IsGreatest(Waits(cs), k)
    ensures Duration(cs, repairs) == Some(SumOf(Waits(cs)) + Times(repairs, Waits(cs)[k]))
  {
    hide Waits, LatencySum, LatencyMax, SumOf;
    LatencySumWaits(cs);
    k := LatencyMaxWaits(cs);
    DurationIs(cs, repairs, SumOf(Waits(cs)), Waits(cs)[k]);
  }

  ghost predicate Bounding(targets: seq<Candidate>, repairs: nat, most: real) {
    forall attempts: seq<Attempt> | Sequence(attempts, Upto(|targets|), |targets|, repairs) ::
      Lasts(attempts, targets) <= most
  }

  /** The duration of a stage is the longest that its attempts can take: no attempts, one first attempt
      at each target in whatever order and repairs as often as allowed, take longer together, and
      attempts in the order of the targets take as long. */
  lemma DurationIsWorst(targets: seq<Candidate>, repairs: nat)
    requires targets != [] && Timed(targets) && Nonnegatives(Waits(targets))
    ensures Duration(targets, repairs).Some?
    ensures Bounding(targets, repairs, Duration(targets, repairs).value)
    ensures exists attempts: seq<Attempt> :: attempts != [] && Escalation(attempts, |targets|, repairs)
              && Lasts(attempts, targets) == Duration(targets, repairs).value
  {
    hide Times, Sequence, Escalation, Duration, Weigh, SumOf;
    var k := DurationWeighs(targets, repairs);
    HeaviestIsWorst(Waits(targets), repairs, k);
    var all: seq<Attempt> :| all != [] && Escalation(all, |targets|, repairs)
      && Weigh(all, Waits(targets)) == SumOf(Waits(targets)) + Times(repairs, Waits(targets)[k]);
    assert Lasts(all, targets) == Duration(targets, repairs).value;
  }

  lemma {:induction false} SumCeilNonnegative(cs: seq<Candidate>)
    requires Priced(cs)
    ensures SumCeil(cs) >= 0
    decreases |cs|
  {
    if cs != [] {
      SumCeilNonnegative(cs[1..]);
    }
  }

  // ----- pinned targets are counted once -----

  function Pins(s: StageDecision): set<nat> {
    (if s.selected.Some? then {s.selected.value} else {}) + set i | 0 <= i < |s.fallbacks| :: s.fallbacks[i]
  }

  lemma {:induction false} PinnedCount(cs: seq<Candidate>, s: StageDecision, pins: set<nat>)
    requires DistinctConfigs(cs) && forall p | p in pins :: HasConfig(cs, p)
    requires forall i | 0 <= i < |cs| :: cs[i].config in pins <==> IsPinned(s, cs[i].config)
    ensures |PinnedAmong(cs, s)| == |pins|
    decreases |cs|
  {
    if cs == [] {
      assert pins == {};
    } else {
      var rest := pins - {cs[0].config};
      assert forall i | 0 <= i < |cs[1..]| :: cs[1..][i] == cs[i + 1];
      forall p | p in rest
        ensures HasConfig(cs[1..], p)
      {
        var i :| 0 <= i < |cs| && cs[i].config == p;
        assert cs[1..][i - 1].config == p;
      }
      if cs[0].config in pins {
        PinnedCount(cs[1..], s, rest);
      } else {
        assert rest == pins;
        PinnedCount(cs[1..], s, pins);
      }
    }
  }

  lemma {:induction false} PinnedFrom(cs: seq<Candidate>, s: StageDecision)
    ensures forall c | c in PinnedAmong(cs, s) :: c in cs && IsPinned(s, c.config)
    decreases |cs|
  {
    if cs != [] {
      PinnedFrom(cs[1..], s);
    }
  }

  // A stage with a selected target attempts it and every fallback, each once.
  lemma PinnedOnce(spec: Spec, choice: Choice, maxAttempts: nat)
    requires ValidChoice(choice) && choice.selected.Some?
    ensures
      var s := Decide(spec, choice, maxAttempts);
      |Pinned(s)| == 1 + |s.fallbacks| && Priced(Pinned(s))
  {
    var s := Decide(spec, choice, maxAttempts);
    FallbacksEscalate(spec, choice, maxAttempts);
    hide Fallbacks, PinnedAmong, HasConfig, Pins;
    PinsCount(s);
    PinsAreListed(s, choice.candidates);
    PinnedCount(choice.candidates, s, Pins(s));
    PinnedPriced(choice.candidates, s);
  }

  lemma PinsCount(s: StageDecision)
    requires s.selected.Some? && Distinct(s.fallbacks) && s.selected.value !in s.fallbacks
    ensures |Pins(s)| == 1 + |s.fallbacks|
  {
    var listed := [s.selected.value] + s.fallbacks;
    DistinctCons(s.selected.value, s.fallbacks);
    forall p
      ensures p in listed <==> p in Pins(s)
    {
    }
    DistinctSize(listed, Pins(s));
  }

  lemma PinsAreListed(s: StageDecision, cs: seq<Candidate>)
    requires s.selected.Some? && HasConfig(cs, s.selected.value)
    requires forall i | 0 <= i < |s.fallbacks| :: HasConfig(cs, s.fallbacks[i])
    ensures forall p | p in Pins(s) :: HasConfig(cs, p)
    ensures forall config :: config in Pins(s) <==> IsPinned(s, config)
  {
    hide HasConfig;
  }

  lemma PinnedPriced(cs: seq<Candidate>, s: StageDecision)
    requires forall i | 0 <= i < |cs| :: cs[i].cost.Some? ==> cs[i].cost.value >= 0.0
    ensures Priced(PinnedAmong(cs, s))
  {
    PinnedFrom(cs, s);
    var pinned := PinnedAmong(cs, s);
    forall i | 0 <= i < |pinned|
      ensures CostKey(pinned[i]) >= 0.0
    {
      assert pinned[i] in pinned;
      var k :| 0 <= k < |cs| && cs[k] == pinned[i];
    }
  }

  // ----- the order in which targets are tried -----

  function Tried(s: StageDecision): seq<nat> {
    (if s.selected.Some? then [s.selected.value] else []) + s.fallbacks
  }

  function Named(cs: seq<Candidate>, configs: seq<nat>): seq<Candidate> {
    if configs == [] then []
    else (match Lookup(cs, configs[0]) case Some(c) => [c] case None => []) + Named(cs, configs[1..])
  }

  // The selected target first and then the fallbacks, which is not the order of the candidates.
  function Targets(s: StageDecision): seq<Candidate> { Named(s.candidates, Tried(s)) }

  lemma {:induction false} NamedMeans(cs: seq<Candidate>, configs: seq<nat>)
    requires Distinct(configs) && forall i | 0 <= i < |configs| :: HasConfig(cs, configs[i])
    ensures
      var named := Named(cs, configs);
      && |named| == |configs| && (forall i | 0 <= i < |named| :: named[i] in cs && named[i].config == configs[i])
      && Distinct(named)
    decreases |configs|
  {
    hide HasConfig, Lookup;
    if configs != [] {
      assert configs == [configs[0]] + configs[1..];
      DistinctCons(configs[0], configs[1..]);
      NamedMeans(cs, configs[1..]);
      var named, rest := Named(cs, configs), Named(cs, configs[1..]);
      assert HasConfig(cs, configs[0]) && named == [Lookup(cs, configs[0]).value] + rest;
      forall i | 0 <= i < |rest|
        ensures rest[i] != named[0]
      {
        assert rest[i].config == configs[1..][i];
      }
      DistinctCons(named[0], rest);
    }
  }

  lemma {:induction false} PinnedAmongMeans(cs: seq<Candidate>, s: StageDecision)
    requires DistinctConfigs(cs)
    ensures
      var pinned := PinnedAmong(cs, s);
      Distinct(pinned) && forall c :: c in pinned <==> c in cs && IsPinned(s, c.config)
    decreases |cs|
  {
    if cs != [] {
      var c, rest := cs[0], PinnedAmong(cs[1..], s);
      assert cs == [c] + cs[1..];
      PinnedAmongMeans(cs[1..], s);
      assert c !in cs[1..];
      DistinctCons(c, rest);
    }
  }

  lemma {:induction false} DistinctCounts<T>(s: seq<T>, x: T)
    requires Distinct(s)
    ensures multiset(s)[x] == if x in s then 1 else 0
    decreases |s|
  {
    if s != [] {
      assert s == [s[0]] + s[1..];
      DistinctCons(s[0], s[1..]);
      DistinctCounts(s[1..], x);
    }
  }

  lemma SameMultiset<T>(a: seq<T>, b: seq<T>)
    requires Distinct(a) && Distinct(b) && forall x :: x in a <==> x in b
    ensures multiset(a) == multiset(b)
  {
    forall x
      ensures multiset(a)[x] == multiset(b)[x]
    {
      DistinctCounts(a, x);
      DistinctCounts(b, x);
    }
  }

  ghost predicate PinsListed(s: StageDecision) {
    && DistinctConfigs(s.candidates) && Distinct(Tried(s))
    && forall i | 0 <= i < |Tried(s)| :: HasConfig(s.candidates, Tried(s)[i])
  }

  lemma TargetsArePinned(s: StageDecision)
    requires PinsListed(s)
    ensures multiset(Targets(s)) == multiset(Pinned(s)) && |Targets(s)| == |Pinned(s)| == |Tried(s)|
  {
    hide HasConfig, Named, PinnedAmong, DistinctConfigs;
    var cs, tried, targets := s.candidates, Tried(s), Targets(s);
    NamedMeans(cs, tried);
    PinnedAmongMeans(cs, s);
    TriedIsPinned(s);
    forall c
      ensures c in targets <==> c in Pinned(s)
    {
      if c in Pinned(s) {
        assert c.config in tried;
        var i :| 0 <= i < |tried| && tried[i] == c.config;
        SameConfig(cs, c, targets[i]);
      }
      if c in targets {
        var i :| 0 <= i < |targets| && targets[i] == c;
        assert tried[i] in tried;
      }
    }
    SameMultiset(targets, Pinned(s));
    assert |targets| == |multiset(targets)| && |Pinned(s)| == |multiset(Pinned(s))|;
  }

  lemma TriedIsPinned(s: StageDecision)
    ensures forall config :: config in Tried(s) <==> IsPinned(s, config)
  {
  }

  lemma DecidedPins(spec: Spec, choice: Choice, maxAttempts: nat)
    requires ValidChoice(choice) && choice.selected.Some?
    ensures PinsListed(Decide(spec, choice, maxAttempts))
  {
    hide Fallbacks, HasConfig;
    FallbacksEscalate(spec, choice, maxAttempts);
    var s := Decide(spec, choice, maxAttempts);
    DistinctCons(s.selected.value, s.fallbacks);
    assert Tried(s)[0] == s.selected.value && Tried(s)[1..] == s.fallbacks;
  }

  lemma SumCeilPermutes(a: seq<Candidate>, b: seq<Candidate>)
    requires multiset(a) == multiset(b)
    ensures SumCeil(a) == SumCeil(b)
  {
    SumOfPermutes(Price, a, b);
    SumCeilWeighs(a);
    SumCeilWeighs(b);
  }

  lemma WorstCostPermutes(a: seq<Candidate>, b: seq<Candidate>, repairs: nat)
    requires a != [] && multiset(a) == multiset(b)
    ensures b != [] && WorstCost(a, repairs) == WorstCost(b, repairs)
    ensures Priced(a) <==> Priced(b)
  {
    assert a[0] in multiset(b);
    SumCeilPermutes(a, b);
    DearestIsDearest(a);
    DearestIsDearest(b);
    assert Dearest(a) in multiset(b) && Dearest(b) in multiset(a);
    if Priced(a) {
      PricedFrom(a, b);
    }
    if Priced(b) {
      PricedFrom(b, a);
    }
  }

  lemma PricedFrom(a: seq<Candidate>, b: seq<Candidate>)
    requires multiset(a) == multiset(b) && Priced(a)
    ensures Priced(b)
  {
    forall i | 0 <= i < |b|
      ensures CostKey(b[i]) >= 0.0
    {
      assert b[i] in multiset(a);
    }
  }

  lemma DurationPermutes(a: seq<Candidate>, b: seq<Candidate>, repairs: nat)
    requires a != [] && multiset(a) == multiset(b) && Timed(a)
    ensures b != [] && Timed(b) && Duration(a, repairs) == Duration(b, repairs)
    ensures Nonnegatives(Waits(a)) ==> Nonnegatives(Waits(b))
  {
    hide Times, SumOf, Duration;
    assert a[0] in multiset(b);
    forall i | 0 <= i < |b|
      ensures b[i] in a
    {
      assert b[i] in multiset(a);
    }
    SumOfPermutes(Wait, a, b);
    var k, l;
    k := DurationWeighs(a, repairs);
    l := DurationWeighs(b, repairs);
    assert a[k] in multiset(b) && b[l] in multiset(a);
    assert Waits(a)[k] == Waits(b)[l];
  }

  // ----- planning -----

  datatype Options = Options(cheapFirst: bool, requiredTerms: bool)

  // None of the source's reasons to block the plan.
  predicate NoBlocker(profile: Profile, options: Options, order: seq<Spec>, stages: seq<StageDecision>,
                      calls: nat, cost: Option<int>, latency: Option<real>) {
    && (forall i | 0 <= i < |order| :: 1 + order[i].maxRepairs <= profile.maxAttempts)
    && !profile.restricted
    && (forall i | 0 <= i < |stages| :: stages[i].selected.Some?)
    && !(options.cheapFirst && !options.requiredTerms)
    && !profile.tools && !profile.modality
    && calls <= profile.maxCalls
    && cost.Some?
    && (profile.maxCost.Some? ==> cost.value <= profile.maxCost.value)
    && (profile.maxLatency.Some? ==> latency.Some? && latency.value <= profile.maxLatency.value as real)
  }

  // What selection finds for a stage.
  type Selection = Spec -> Choice

  ghost predicate DecidedBy(stages: seq<StageDecision>, order: seq<Spec>, choose: Selection, maxAttempts: nat) {
    |stages| == |order| && forall i | 0 <= i < |order| :: stages[i] == Decide(order[i], choose(order[i]), maxAttempts)
  }

  // What planning these stages comes to.
  ghost predicate IsPlan(d: Decision, specs: seq<Spec>, g: Graph, profile: Profile, options: Options,
      choose: Selection) {
    && d.order == InOrder(specs)
    && DecidedBy(d.stages, d.order, choose, profile.maxAttempts)
    && d.waves == Waves(d.order, {})
    && d.calls == AllCalls(d.stages, d.order)
    && d.cost == Total(AllCosts(d.stages, d.order))
    && (d.ready <==> NoBlocker(profile, options, d.order, d.stages, d.calls, d.cost, d.latency))
  }

  // The latency is the end of the last stage, known if all durations are.
  ghost predicate IsTimed(d: Decision, g: Graph, durations: map<Id, Option<real>>, times: map<Id, real>) {
    && durations.Keys == g.Keys && |d.stages| == |d.order|
    && (forall i | 0 <= i < |d.order| ::
          d.order[i].id in durations
          && durations[d.order[i].id] == Duration(Pinned(d.stages[i]), d.order[i].maxRepairs))
    && (d.latency.Some? <==> forall n | n in durations :: durations[n].Some?)
    && (d.latency.Some? ==>
          && IsTimes(g, Known(durations), times)
          && (forall n | n in times :: times[n] <= d.latency.value)
          && (exists n :: n in times && times[n] == d.latency.value))
  }

  lemma OrderedPlan(specs: seq<Spec>, g: Graph)
    requires ValidPlan(specs, g)
    ensures
      var order := InOrder(specs);
      && order != [] && UniqueIds(order) && IsGraphOf(g, order) && Respects(order, order)
      && forall i | 0 <= i < |order| :: order[i] in specs
  {
    var order := InOrder(specs);
    OrderAndWaves(specs, g);
    SameGraph(specs, order, g);
    assert |multiset(order)| == |order| && |multiset(specs)| == |specs|;
  }

  lemma SameGraph(specs: seq<Spec>, order: seq<Spec>, g: Graph)
    requires IsGraphOf(g, specs) && Respects(specs, order) && multiset(order) == multiset(specs)
    ensures IsGraphOf(g, order) && Respects(order, order)
  {
    forall s | s in specs
      ensures s in order
    {
      assert s in multiset(order);
    }
    InSpecs(specs, order);
    InSpecs(order, specs);
    forall i | 0 <= i < |order|
      ensures g[order[i].id] == order[i].deps
    {
      assert order[i] in specs;
      var j :| 0 <= j < |specs| && specs[j] == order[i];
    }
  }

  method Plan(specs: seq<Spec>, ghost g: Graph, profile: Profile, options: Options, choose: Selection)
    returns (d: Decision, ghost durations: map<Id, Option<real>>, ghost times: map<Id, real>)
    requires ValidPlan(specs, g)
    ensures IsPlan(d, specs, g, profile, options, choose)
    ensures IsTimed(d, g, durations, times)
  {
    hide Duration, Pinned, AllCosts, AllCalls, Total, Waves, Respects, IsGraphOf, IdSet, Closed, Rankable, InOrder;
    var order := OrderStages(specs, g);
    OrderedPlan(specs, g);
    var stages: seq<StageDecision> := [];
    for i := 0 to |order|
      invariant |stages| == i
      invariant forall j | 0 <= j < i :: stages[j] == Decide(order[j], choose(order[j]), profile.maxAttempts)
    {
      stages := stages + [Decide(order[i], choose(order[i]), profile.maxAttempts)];
    }
    var waves := ParallelWaves(order, g);
    var calls, cost, found := Project(stages, order);
    GraphKeys(g, order);
    durations := found;
    var latency;
    latency, times := CriticalPath(order, g, found);
    var ready := NoBlocker(profile, options, order, stages, calls, cost, latency);
    d := Decision(ready, order, stages, waves.value, cost, latency, calls);
  }

  lemma GraphKeys(g: Graph, specs: seq<Spec>)
    requires IsGraphOf(g, specs)
    ensures g.Keys == IdSet(specs) && forall i | 0 <= i < |specs| :: specs[i].id in IdSet(specs)
  {
  }
}

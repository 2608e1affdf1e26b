/**
 What a decision forecasts against what its execution may attempt: the cost of a plan is the largest
 forecast of all attempts that the loop of fallbacks and repairs can make, and no more than that.
 */
module Forecast {
  import opened Basics
  import opened Failures
  import opened DependencyGraph
  import opened Planner
  import opened RoutingPlan
  import opened WorstCase
  import Engine = AttemptEngine
  import Sorting

  // An attempt of the loop as the forecast sees it.
  function Shape(trace: seq<Engine.Entry>): (attempts: seq<Attempt>)
    ensures |attempts| == |trace|
    ensures forall i | 0 <= i < |trace| :: attempts[i] == Attempt(trace[i].candidate, trace[i].repairing)
  {
    seq(|trace|, i requires 0 <= i < |trace| => Attempt(trace[i].candidate, trace[i].repairing))
  }

  // ----- every trace is an escalation -----

  lemma {:induction false} PlayIsOnward(stage: Engine.Stage, cs: seq<Engine.Candidate>, call: Engine.Call,
      at: Engine.Cursor, index: nat, limit: nat, world: Engine.World)
    requires at.candidate < |cs|
    ensures
      var attempts := Shape(Engine.Play(stage, cs, call, at, index, limit, world));
      && (attempts != [] ==> attempts[0] == Attempt(at.candidate, at.repairing))
      && (attempts != [] ==> Onward(attempts[1..], at.candidate, |cs|, at.repairs))
    decreases limit - index
  {
    hide Engine.Attempt, Onward;
    if index < limit {
      var reply := world(index);
      var entry := Engine.Attempt(stage, cs, call.maxTokens, at, reply);
      var attempts := Shape(Engine.Play(stage, cs, call, at, index, limit, world));
      Engine.PlayStep(stage, cs, call, at, index, limit, world);
      Engine.AttemptIsOrderly(stage, cs, call, at, reply);
      NothingOnward(at.candidate, |cs|, at.repairs);
      if entry.failure.Some? {
        var next := Engine.Next(stage, |cs|, call.input, at, entry.failure.value, reply);
        if next.Some? {
          var rest := Shape(Engine.Play(stage, cs, call, next.value, index + 1, limit, world));
          PlayIsOnward(stage, cs, call, next.value, index + 1, limit, world);
          assert attempts[1..] == rest;
          OnwardStep(rest, at.candidate, |cs|, at.repairs, next.value);
        } else {
          assert attempts[1..] == [];
        }
      } else {
        assert attempts[1..] == [];
      }
    }
  }

  lemma NothingOnward(at: nat, targets: nat, repairs: nat)
    ensures Onward([], at, targets, repairs)
  {
  }

  lemma OnwardStep(rest: seq<Attempt>, at: nat, targets: nat, repairs: nat, next: Engine.Cursor)
    requires rest != [] ==> rest[0] == Attempt(next.candidate, next.repairing)
    requires rest != [] ==> Onward(rest[1..], next.candidate, targets, next.repairs)
    requires if next.repairing then next.candidate == at && next.repairs + 1 == repairs
             else next.candidate == at + 1 < targets && next.repairs == repairs
    ensures Onward(rest, at, targets, repairs)
  {
  }

  /** Whatever providers answer, the attempts of a stage go through its targets in order, each once,
      with at most the allowed repairs in between. */
  lemma TraceEscalates(stage: Engine.Stage, cs: seq<Engine.Candidate>, call: Engine.Call, retained: bool,
      world: Engine.World)
    requires cs != []
    ensures Escalation(Shape(Engine.Trace(stage, cs, call, retained, world)), |cs|, stage.maxRepairs)
  {
    hide Engine.Refused, Engine.Play, Onward;
    PlayIsOnward(stage, cs, call, Engine.Cursor(0, stage.maxRepairs, false, call.input), 0,
        Engine.Min(stage.maxAttempts, |cs| + stage.maxRepairs), world);
  }

  // ----- every escalation is a trace -----

  // What makes the loop attempt just this: an answer that fails the validators before a repair, a
  // provider's failure before a fallback, and success at the end.
  function WorldFor(attempts: seq<Attempt>, input: nat): Engine.World {
    (k: nat) =>
      if k + 1 < |attempts| then
        var kind := if attempts[k + 1].repair then QualityValidation else ProviderFailure;
        Engine.Reply(None, Some(kind), Some(input), false)
      else Engine.Reply(None, None, None, false)
  }

  predicate Falls(stage: Engine.Stage) { stage.fallbackOn == {} || ProviderFailure in stage.fallbackOn }

  lemma {:induction false} OnwardLength(attempts: seq<Attempt>, at: nat, targets: nat, repairs: nat)
    requires Onward(attempts, at, targets, repairs) && at < targets
    ensures |attempts| <= targets - at - 1 + repairs
    decreases |attempts|
  {
    if attempts != [] {
      if attempts[0].repair {
        OnwardLength(attempts[1..], at, targets, repairs - 1);
      } else {
        OnwardLength(attempts[1..], at + 1, targets, repairs);
      }
    }
  }

  lemma EscalationLength(attempts: seq<Attempt>, targets: nat, repairs: nat)
    requires Escalation(attempts, targets, repairs)
    ensures |attempts| <= targets + repairs
  {
    if attempts != [] {
      OnwardLength(attempts[1..], 0, targets, repairs);
    }
  }

  lemma {:induction false} OnwardIsPlayed(stage: Engine.Stage, cs: seq<Engine.Candidate>, call: Engine.Call,
      at: Engine.Cursor, attempts: seq<Attempt>, index: nat, limit: nat)
    requires at.candidate < |cs| && at.input == call.input && index < |attempts| <= limit && Falls(stage)
    requires forall i | 0 <= i < |cs| :: Engine.Preflight(stage, cs[i], call.input, call.maxTokens).Some?
    requires attempts[index] == Attempt(at.candidate, at.repairing)
    requires Onward(attempts[index + 1..], at.candidate, |cs|, at.repairs)
    ensures Shape(Engine.Play(stage, cs, call, at, index, limit, WorldFor(attempts, call.input))) == attempts[index..]
    decreases |attempts| - index
  {
    hide Engine.Preflight, Engine.Play;
    var world := WorldFor(attempts, call.input);
    Engine.PlayStep(stage, cs, call, at, index, limit, world);
    var entry := Engine.Attempt(stage, cs, call.maxTokens, at, world(index));
    if index + 1 < |attempts| {
      var rest := attempts[index + 1..];
      assert rest[0] == attempts[index + 1] && rest[1..] == attempts[index + 2..];
      var next := Engine.Next(stage, |cs|, call.input, at, entry.failure.value, world(index));
      OnwardIsPlayed(stage, cs, call, next.value, attempts, index + 1, limit);
      assert attempts[index..] == [attempts[index]] + rest;
    }
  }

  /** And every escalation is what the loop attempts for some answers, when the stage's first checks
      pass and nothing but its length limits it. */
  lemma EscalationsAreTraces(stage: Engine.Stage, cs: seq<Engine.Candidate>, call: Engine.Call, retained: bool,
      attempts: seq<Attempt>)
    requires cs != [] && Engine.Refused(stage, cs, call, retained).None? && Falls(stage)
    requires attempts != [] && Escalation(attempts, |cs|, stage.maxRepairs) && |attempts| <= stage.maxAttempts
    ensures Shape(Engine.Trace(stage, cs, call, retained, WorldFor(attempts, call.input))) == attempts
  {
    hide Engine.Play, Engine.Preflight, Engine.Bounds, Onward;
    Engine.BoundsLength(stage, cs, call.input, call.maxTokens);
    OnwardLength(attempts[1..], 0, |cs|, stage.maxRepairs);
    Engine.TraceIsPlay(stage, cs, call, retained, WorldFor(attempts, call.input));
    OnwardIsPlayed(stage, cs, call, Engine.Cursor(0, stage.maxRepairs, false, call.input), attempts, 0,
        Engine.Min(stage.maxAttempts, |cs| + stage.maxRepairs));
    assert attempts[0..] == attempts;
  }

  // ----- the forecast of a stage -----

  // A stage as it is executed: its targets in order, with as many attempts as they and the repairs need.
  ghost predicate Executes(stage: Engine.Stage, cs: seq<Engine.Candidate>, s: StageDecision, spec: Spec) {
    && |cs| == |Targets(s)| > 0 && stage.maxRepairs == spec.maxRepairs
    && stage.maxAttempts == |cs| + spec.maxRepairs && Falls(stage)
  }

  /** The worst case of a stage is what its execution can come to: whatever providers answer, its
      attempts are forecast to cost no more, and unless the first checks refuse it, for some answers
      they cost as much. */
  lemma StageForecastIsWorst(stage: Engine.Stage, cs: seq<Engine.Candidate>, call: Engine.Call, retained: bool,
      s: StageDecision, spec: Spec)
    requires PinsListed(s) && Pinned(s) != [] && Priced(Pinned(s)) && Executes(stage, cs, s, spec)
    ensures forall world ::
              Spent(Shape(Engine.Trace(stage, cs, call, retained, world)), Targets(s))
              <= WorstCost(Pinned(s), spec.maxRepairs)
    ensures Engine.Refused(stage, cs, call, retained).None? ==> exists world ::
              Spent(Shape(Engine.Trace(stage, cs, call, retained, world)), Targets(s))
              == WorstCost(Pinned(s), spec.maxRepairs)
  {
    hide Engine.Trace, Engine.Refused, Pinned, Targets, WorstCost, PinsListed, Escalation, Sequence;
    var targets, repairs := Targets(s), spec.maxRepairs;
    TargetsArePinned(s);
    WorstCostPermutes(Pinned(s), targets, repairs);
    WorstCostIsWorst(targets, repairs);
    forall world
      ensures Spent(Shape(Engine.Trace(stage, cs, call, retained, world)), targets) <= WorstCost(targets, repairs)
    {
      TraceEscalates(stage, cs, call, retained, world);
      EscalationIsSequence(Shape(Engine.Trace(stage, cs, call, retained, world)), |cs|, repairs);
    }
    if Engine.Refused(stage, cs, call, retained).None? {
      var attempts: seq<Attempt> :| attempts != [] && Escalation(attempts, |targets|, repairs)
        && Spent(attempts, targets) == WorstCost(targets, repairs);
      EscalationLength(attempts, |targets|, repairs);
      EscalationsAreTraces(stage, cs, call, retained, attempts);
      assert Spent(Shape(Engine.Trace(stage, cs, call, retained, WorldFor(attempts, call.input))), targets)
          == WorstCost(targets, repairs);
    }
  }

  // ----- the forecast of a plan -----

  ghost predicate StageListed(s: StageDecision) {
    PinsListed(s) && Pinned(s) != [] && Priced(Pinned(s))
  }

  // What the stages attempt in one execution of the whole plan.
  ghost predicate PlanRuns(stages: seq<StageDecision>, specs: seq<Spec>, runs: seq<seq<Attempt>>) {
    |runs| == |stages| == |specs|
    && forall i | 0 <= i < |stages| :: Escalation(runs[i], |Targets(stages[i])|, specs[i].maxRepairs)
  }

  function PlanSpent(stages: seq<StageDecision>, runs: seq<seq<Attempt>>): int
    requires |runs| == |stages|
  {
    if stages == [] then 0 else Spent(runs[0], Targets(stages[0])) + PlanSpent(stages[1..], runs[1..])
  }

  lemma {:induction false} RunsBelow(stages: seq<StageDecision>, specs: seq<Spec>, runs: seq<seq<Attempt>>)
    requires PlanRuns(stages, specs, runs) && forall i | 0 <= i < |stages| :: StageListed(stages[i])
    ensures forall i | 0 <= i < |stages| :: Pinned(stages[i]) != []
    ensures PlanSpent(stages, runs) <= WorstCosts(stages, specs)
    decreases |stages|
  {
    hide Escalation, Sequence, Targets, Pinned, WorstCost, Priced, PinsListed, Spent;
    if stages != [] {
      var s, targets, repairs := stages[0], Targets(stages[0]), specs[0].maxRepairs;
      assert StageListed(s);
      TargetsArePinned(s);
      WorstCostPermutes(Pinned(s), targets, repairs);
      WorstCostIsWorst(targets, repairs);
      EscalationIsSequence(runs[0], |targets|, repairs);
      forall i | 0 <= i < |stages[1..]|
        ensures StageListed(stages[1..][i])
        ensures Escalation(runs[1..][i], |Targets(stages[1..][i])|, specs[1..][i].maxRepairs)
      {
        assert StageListed(stages[i + 1]);
      }
      RunsBelow(stages[1..], specs[1..], runs[1..]);
    }
  }

  lemma {:induction false} WorstRuns(stages: seq<StageDecision>, specs: seq<Spec>) returns (runs: seq<seq<Attempt>>)
    requires |stages| == |specs| && forall i | 0 <= i < |stages| :: StageListed(stages[i])
    ensures PlanRuns(stages, specs, runs) && forall i | 0 <= i < |stages| :: Pinned(stages[i]) != []
    ensures PlanSpent(stages, runs) == WorstCosts(stages, specs)
    decreases |stages|
  {
    hide Escalation, Sequence, Targets, Pinned, WorstCost, Priced, PinsListed, Spent;
    runs := [];
    if stages != [] {
      var s, targets, repairs := stages[0], Targets(stages[0]), specs[0].maxRepairs;
      assert StageListed(s);
      TargetsArePinned(s);
      WorstCostPermutes(Pinned(s), targets, repairs);
      WorstCostIsWorst(targets, repairs);
      var worst: seq<Attempt> :| worst != [] && Escalation(worst, |targets|, repairs)
        && Spent(worst, targets) == WorstCost(targets, repairs);
      forall i | 0 <= i < |stages[1..]|
        ensures StageListed(stages[1..][i])
      {
        assert StageListed(stages[i + 1]);
      }
      var rest := WorstRuns(stages[1..], specs[1..]);
      runs := [worst] + rest;
      assert runs[1..] == rest;
      forall i | 0 <= i < |stages|
        ensures Escalation(runs[i], |Targets(stages[i])|, specs[i].maxRepairs)
      {
        if i > 0 {
          assert Escalation(rest[i - 1], |Targets(stages[1..][i - 1])|, specs[1..][i - 1].maxRepairs);
        }
      }
    }
  }

  lemma DecidedListed(spec: Spec, choice: Choice, maxAttempts: nat)
    requires ValidChoice(choice) && choice.selected.Some?
    ensures StageListed(Decide(spec, choice, maxAttempts))
  {
    hide PinsListed, Pinned, Fallbacks;
    DecidedPins(spec, choice, maxAttempts);
    PinnedOnce(spec, choice, maxAttempts);
  }

  lemma PlanStages(d: Decision, specs: seq<Spec>, g: Graph, profile: Profile, options: Options, choose: Selection)
    requires IsPlan(d, specs, g, profile, options, choose)
    ensures d.order == InOrder(specs) && DecidedBy(d.stages, d.order, choose, profile.maxAttempts)
    ensures d.cost == Total(AllCosts(d.stages, d.order)) && d.calls == AllCalls(d.stages, d.order)
  {
    hide InOrder, AllCosts, AllCalls, Total, Waves, DecidedBy, NoBlocker;
  }

  lemma ReadyPlan(d: Decision, specs: seq<Spec>, g: Graph, profile: Profile, options: Options, choose: Selection)
    requires IsPlan(d, specs, g, profile, options, choose) && d.ready
    ensures d.order == InOrder(specs) && DecidedBy(d.stages, d.order, choose, profile.maxAttempts)
    ensures d.cost.Some? && d.cost == Total(AllCosts(d.stages, d.order))
    ensures forall i | 0 <= i < |d.stages| :: d.stages[i].selected.Some?
  {
    hide InOrder, AllCosts, AllCalls, Total, Waves, DecidedBy;
  }

  lemma PlanListed(d: Decision, specs: seq<Spec>, g: Graph, profile: Profile, options: Options, choose: Selection)
    requires ValidPlan(specs, g) && IsPlan(d, specs, g, profile, options, choose)
    requires forall i | 0 <= i < |d.stages| :: d.stages[i].selected.Some?
    requires forall i | 0 <= i < |specs| :: ValidChoice(choose(specs[i]))
    ensures |d.stages| == |d.order| && forall i | 0 <= i < |d.stages| :: StageListed(d.stages[i])
  {
    hide IsPlan, ValidPlan, StageListed, InOrder, ValidChoice, Fallbacks;
    PlanStages(d, specs, g, profile, options, choose);
    OrderIsSpecs(specs, g);
    forall i | 0 <= i < |d.order|
      ensures StageListed(d.stages[i])
    {
      assert d.order[i] in specs;
      var j :| 0 <= j < |specs| && specs[j] == d.order[i];
      assert d.stages[i].selected.Some?;
      DecidedListed(d.order[i], choose(d.order[i]), profile.maxAttempts);
    }
  }

  lemma OrderIsSpecs(specs: seq<Spec>, g: Graph)
    requires ValidPlan(specs, g)
    ensures forall i | 0 <= i < |InOrder(specs)| :: InOrder(specs)[i] in specs
  {
    hide ValidPlan, InOrder;
    OrderedPlan(specs, g);
  }

  lemma TotalWorst(stages: seq<StageDecision>, specs: seq<Spec>, cost: int)
    requires |stages| == |specs| && forall i | 0 <= i < |stages| :: StageListed(stages[i])
    requires Total(AllCosts(stages, specs)) == Some(cost)
    ensures forall i | 0 <= i < |stages| :: Pinned(stages[i]) != []
    ensures WorstCosts(stages, specs) == cost
  {
    hide PinsListed, Pinned, WorstCost, AllCosts;
    forall i | 0 <= i < |stages|
      ensures Pinned(stages[i]) != []
    {
      assert StageListed(stages[i]);
    }
    TotalIsWorst(stages, specs);
  }

  // The cost is the largest forecast of all executions.
  ghost predicate CostIsWorst(stages: seq<StageDecision>, specs: seq<Spec>, cost: int) {
    && |stages| == |specs|
    && (forall runs: seq<seq<Attempt>> | PlanRuns(stages, specs, runs) :: PlanSpent(stages, runs) <= cost)
    && (exists runs: seq<seq<Attempt>> :: PlanRuns(stages, specs, runs) && PlanSpent(stages, runs) == cost)
  }

  lemma TotalIsLargest(stages: seq<StageDecision>, specs: seq<Spec>, cost: int)
    requires |stages| == |specs| && forall i | 0 <= i < |stages| :: StageListed(stages[i])
    requires Total(AllCosts(stages, specs)) == Some(cost)
    ensures CostIsWorst(stages, specs, cost)
  {
    hide PlanSpent, StageListed, Pinned, WorstCosts, AllCosts, Total, Escalation;
    TotalWorst(stages, specs, cost);
    forall runs: seq<seq<Attempt>> | PlanRuns(stages, specs, runs)
      ensures PlanSpent(stages, runs) <= cost
    {
      RunsBelow(stages, specs, runs);
    }
    var runs := WorstRuns(stages, specs);
  }

  /** The cost of a ready decision is the maximum over everything its execution can attempt: no run of
      the plan is forecast to cost more, and one costs exactly that. */
  lemma PlanForecastIsWorst(d: Decision, specs: seq<Spec>, g: Graph, profile: Profile, options: Options,
      choose: Selection)
    requires ValidPlan(specs, g) && IsPlan(d, specs, g, profile, options, choose) && d.ready
    requires forall i | 0 <= i < |specs| :: ValidChoice(choose(specs[i]))
    ensures |d.stages| == |d.order| && d.cost.Some?
    ensures forall runs: seq<seq<Attempt>> | PlanRuns(d.stages, d.order, runs) ::
              PlanSpent(d.stages, runs) <= d.cost.value
    ensures exists runs: seq<seq<Attempt>> :: PlanRuns(d.stages, d.order, runs)
              && PlanSpent(d.stages, runs) == d.cost.value
  {
    hide PlanRuns, PlanSpent, StageListed, ValidChoice, AllCosts, Total, IsPlan, ValidPlan;
    ReadyPlan(d, specs, g, profile, options, choose);
    PlanListed(d, specs, g, profile, options, choose);
    TotalIsLargest(d.stages, d.order, d.cost.value);
  }

  // ----- an order that is not the candidates' -----

  // Three deployments, each dearer and better than the one before.
  const LADDER := Choice(Some(1), [
    RoutingPlan.Candidate(1, true, Some(1.0), None, Some(0.1)),
    RoutingPlan.Candidate(2, true, Some(2.0), None, Some(0.2)),
    RoutingPlan.Candidate(3, true, Some(3.0), None, Some(0.3))])

  const CLIMB := Spec(1, [], [1], 0, true)

  lemma LadderSorted(a: RoutingPlan.Candidate, b: RoutingPlan.Candidate, c: RoutingPlan.Candidate)
    requires LADDER.candidates == [a, b, c]
    ensures Sorted([b, c]) == [c, b]
  {
    assert [b, c][1..] == [c] && [c][1..] == [];
    assert Sorting.Insert(c, [], Before) == [c] && Sorted([c]) == [c];
    assert Sorting.Insert(b, [c], Before) == [c] + Sorting.Insert(b, [], Before) == [c, b];
  }

  lemma LadderAlternatives()
    ensures
      var cs := LADDER.candidates;
      Lookup(cs, 1) == Some(cs[0]) && Alternatives(cs, cs[0]) == [cs[1], cs[2]]
  {
    var cs := LADDER.candidates;
    var a, b, c := cs[0], cs[1], cs[2];
    assert cs[1..] == [b, c] && [b, c][1..] == [c] && [c][1..] == [];
    assert Alternatives([c], a) == [c];
    assert Alternatives([b, c], a) == [b] + [c] == [b, c];
  }

  lemma LadderConfigs()
    ensures
      var cs := LADDER.candidates;
      Configs([cs[2], cs[1]]) == [3, 2]
  {
    var cs := LADDER.candidates;
    ConfigsAre([cs[2], cs[1]]);
    hide Configs;
    assert [cs[2], cs[1]][0].config == 3 && [cs[2], cs[1]][1].config == 2;
  }

  lemma LadderFallbacks()
    ensures Fallbacks(CLIMB, LADDER, 3) == [3, 2]
  {
    hide Sorted, Sorting.Insert, Alternatives, Configs, Lookup;
    var cs := LADDER.candidates;
    LadderAlternatives();
    LadderSorted(cs[0], cs[1], cs[2]);
    LadderConfigs();
  }

  /** A stage that escalates tries the best fallback first: here the third candidate before the second,
      out of the order of the candidates, and these attempts are covered by the forecast like any. */
  lemma EscalationLeavesCandidateOrder()
    ensures
      var s, cs := Decide(CLIMB, LADDER, 3), LADDER.candidates;
      && s.fallbacks == [3, 2] && Pinned(s) == cs && Targets(s) == [cs[0], cs[2], cs[1]]
      && Escalation([Attempt(0, false), Attempt(1, false), Attempt(2, false)], 3, 0)
      && Spent([Attempt(0, false), Attempt(1, false), Attempt(2, false)], Targets(s)) == WorstCost(Pinned(s), 0) == 6
  {
    hide Fallbacks;
    LadderFallbacks();
    var s, cs := Decide(CLIMB, LADDER, 3), LADDER.candidates;
    LadderPinned(s);
    LadderTargets(s);
    LadderSpent([cs[0], cs[2], cs[1]], cs);
  }

  lemma LadderPinned(s: StageDecision)
    requires s.selected == Some(1) && s.fallbacks == [3, 2] && s.candidates == LADDER.candidates
    ensures Pinned(s) == LADDER.candidates
  {
    var cs := LADDER.candidates;
    assert cs[1..] == [cs[1], cs[2]] && [cs[1], cs[2]][1..] == [cs[2]] && [cs[2]][1..] == [];
    assert 3 == s.fallbacks[0] && 2 == s.fallbacks[1];
    assert PinnedAmong([cs[2]], s) == [cs[2]];
    assert PinnedAmong([cs[1], cs[2]], s) == [cs[1]] + [cs[2]];
  }

  lemma LadderTargets(s: StageDecision)
    requires s.selected == Some(1) && s.fallbacks == [3, 2] && s.candidates == LADDER.candidates
    ensures Targets(s) == [LADDER.candidates[0], LADDER.candidates[2], LADDER.candidates[1]]
  {
    var cs := LADDER.candidates;
    assert cs[1..] == [cs[1], cs[2]] && [cs[1], cs[2]][1..] == [cs[2]];
    assert Tried(s) == [1, 3, 2] && [1, 3, 2][1..] == [3, 2] && [3, 2][1..] == [2] && [2][1..] == [];
    assert Lookup(cs, 1) == Some(cs[0]);
    assert Lookup([cs[2]], 3) == Some(cs[2]) && Lookup([cs[1], cs[2]], 3) == Some(cs[2]);
    assert Lookup(cs, 3) == Some(cs[2]);
    assert Lookup([cs[1], cs[2]], 2) == Some(cs[1]) && Lookup(cs, 2) == Some(cs[1]);
    assert Named(cs, [2]) == [cs[1]];
    assert Named(cs, [3, 2]) == [cs[2]] + [cs[1]];
  }

  lemma LadderSpent(targets: seq<RoutingPlan.Candidate>, cs: seq<RoutingPlan.Candidate>)
    requires cs == LADDER.candidates && targets == [cs[0], cs[2], cs[1]]
    ensures
      var attempts := [Attempt(0, false), Attempt(1, false), Attempt(2, false)];
      Escalation(attempts, 3, 0) && Spent(attempts, targets) == WorstCost(cs, 0) == 6
  {
    var attempts := [Attempt(0, false), Attempt(1, false), Attempt(2, false)];
    var two, one := [Attempt(1, false), Attempt(2, false)], [Attempt(2, false)];
    assert attempts[1..] == two && two[1..] == one && one[1..] == [];
    assert Onward(one, 1, 3, 0) && Onward(two, 0, 3, 0);
    assert Ceil(1.0) == 1 && Ceil(2.0) == 2 && Ceil(3.0) == 3;
    assert Spent(one, targets) == 2 && Spent(two, targets) == 5;
    assert cs[1..] == [cs[1], cs[2]] && [cs[1], cs[2]][1..] == [cs[2]] && [cs[2]][1..] == [];
    assert SumCeil([cs[2]]) == 3 && SumCeil([cs[1], cs[2]]) == 5 && SumCeil(cs) == 6;
  }
}

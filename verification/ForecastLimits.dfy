/**
 What the latency and the calls of a decision bound, and when a plan is ready: nothing forbids it, and
 no execution of it exceeds a limit.
 */
module ForecastLimits {
  import opened Basics
  import opened DependencyGraph
  import opened Planner
  import opened RoutingPlan
  import opened WorstCase
  import opened Forecast
  import Engine = AttemptEngine
  import Failures
  import Compiler = PolicyCompiler
  import CompiledRun
  import Envelope = SpendEnvelope

  // ----- the latency of a stage -----

  /** The duration of a stage is what its execution can come to: whatever providers answer, its attempts
      take no longer together, and unless the first checks refuse it, for some answers they take as long. */
  lemma StageDurationIsWorst(stage: Engine.Stage, cs: seq<Engine.Candidate>, call: Engine.Call, retained: bool,
      s: StageDecision, spec: Spec)
    requires PinsListed(s) && Pinned(s) != [] && Executes(stage, cs, s, spec)
    requires Timed(Pinned(s)) && Nonnegatives(Waits(Pinned(s)))
    ensures Duration(Pinned(s), spec.maxRepairs).Some?
    ensures forall world ::
              Lasts(Shape(Engine.Trace(stage, cs, call, retained, world)), Targets(s))
              <= Duration(Pinned(s), spec.maxRepairs).value
    ensures Engine.Refused(stage, cs, call, retained).None? ==> exists world ::
              Lasts(Shape(Engine.Trace(stage, cs, call, retained, world)), Targets(s))
              == Duration(Pinned(s), spec.maxRepairs).value
  {
    hide Engine.Trace, Engine.Refused, Pinned, Targets, Duration, PinsListed, Escalation, Sequence, Lasts;
    var targets, repairs := Targets(s), spec.maxRepairs;
    TargetsArePinned(s);
    DurationPermutes(Pinned(s), targets, repairs);
    DurationIsWorst(targets, repairs);
    forall world
      ensures Lasts(Shape(Engine.Trace(stage, cs, call, retained, world)), targets) <= Duration(targets, repairs).value
    {
      TraceEscalates(stage, cs, call, retained, world);
      EscalationIsSequence(Shape(Engine.Trace(stage, cs, call, retained, world)), |cs|, repairs);
    }
    if Engine.Refused(stage, cs, call, retained).None? {
      var attempts: seq<Attempt> :| attempts != [] && Escalation(attempts, |targets|, repairs)
        && Lasts(attempts, targets) == Duration(targets, repairs).value;
      EscalationLength(attempts, |targets|, repairs);
      EscalationsAreTraces(stage, cs, call, retained, attempts);
      assert Lasts(Shape(Engine.Trace(stage, cs, call, retained, WorldFor(attempts, call.input))), targets)
          == Duration(targets, repairs).value;
    }
  }

  // ----- the latency of a plan -----

  // How long each stage takes in one execution of the plan.
  ghost predicate TakesTime(stages: seq<StageDecision>, specs: seq<Spec>, runs: seq<seq<Attempt>>,
      took: map<Id, real>)
  {
    && |runs| == |stages| == |specs| && took.Keys == IdSet(specs)
    && forall i | 0 <= i < |specs| :: specs[i].id in took && took[specs[i].id] == Lasts(runs[i], Targets(stages[i]))
  }

  // Every stage has targets of known latency.
  ghost predicate PlanTimed(stages: seq<StageDecision>) {
    forall i | 0 <= i < |stages| :: Targets(stages[i]) != [] && Timed(Targets(stages[i]))
  }

  // Latencies are measurements.
  ghost predicate Measured(c: Choice) {
    forall i | 0 <= i < |c.candidates| :: Wait(c.candidates[i]) >= 0.0
  }

  ghost predicate StageMeasured(s: StageDecision) {
    PinsListed(s) && Nonnegatives(Waits(Targets(s)))
  }

  // No chain of stages takes longer in any execution of the plan, and one takes as long.
  ghost predicate LatencyBounds(stages: seq<StageDecision>, specs: seq<Spec>, g: Graph, latency: real) {
    forall runs: seq<seq<Attempt>>, took: map<Id, real>, chain: seq<Id>
      | PlanRuns(stages, specs, runs) && TakesTime(stages, specs, runs, took) && took.Keys == g.Keys
        && Chain(g, chain) :: Weight(took, chain) <= latency
  }

  ghost predicate LatencyAttained(stages: seq<StageDecision>, specs: seq<Spec>, g: Graph, latency: real) {
    exists runs: seq<seq<Attempt>>, took: map<Id, real>, chain: seq<Id> ::
      PlanRuns(stages, specs, runs) && TakesTime(stages, specs, runs, took) && took.Keys == g.Keys
        && Chain(g, chain) && Weight(took, chain) == latency
  }

  lemma {:induction false} WeightUp(a: map<Id, real>, b: map<Id, real>, chain: seq<Id>)
    requires forall i | 0 <= i < |chain| :: chain[i] in a && chain[i] in b && a[chain[i]] <= b[chain[i]]
    ensures Weight(a, chain) <= Weight(b, chain)
    decreases |chain|
  {
    if chain != [] {
      WeightUp(a, b, chain[..|chain| - 1]);
    }
  }

  // The forecast of a stage in terms of its targets in order.
  lemma StageDuration(s: StageDecision, repairs: nat)
    requires PinsListed(s)
    ensures Duration(Pinned(s), repairs).Some? <==> Targets(s) != [] && Timed(Targets(s))
    ensures Duration(Pinned(s), repairs).Some? ==> Duration(Pinned(s), repairs) == Duration(Targets(s), repairs)
  {
    hide Duration, Pinned, Targets, PinsListed;
    TargetsArePinned(s);
    DurationKnown(Pinned(s), repairs);
    if Pinned(s) != [] && Timed(Pinned(s)) {
      DurationPermutes(Pinned(s), Targets(s), repairs);
    } else if Targets(s) != [] && Timed(Targets(s)) {
      DurationPermutes(Targets(s), Pinned(s), repairs);
    }
  }

  lemma StageTakesLess(s: StageDecision, repairs: nat, attempts: seq<Attempt>)
    requires StageMeasured(s) && Targets(s) != [] && Timed(Targets(s))
    requires Escalation(attempts, |Targets(s)|, repairs)
    ensures Duration(Pinned(s), repairs).Some?
    ensures Lasts(attempts, Targets(s)) <= Duration(Pinned(s), repairs).value
  {
    hide Duration, Pinned, Targets, PinsListed, Escalation, Lasts, Sequence;
    StageDuration(s, repairs);
    DurationIsWorst(Targets(s), repairs);
    EscalationIsSequence(attempts, |Targets(s)|, repairs);
  }

  lemma StageTakesAll(s: StageDecision, repairs: nat) returns (attempts: seq<Attempt>)
    requires StageMeasured(s) && Targets(s) != [] && Timed(Targets(s))
    ensures Escalation(attempts, |Targets(s)|, repairs) && Duration(Pinned(s), repairs).Some?
    ensures Lasts(attempts, Targets(s)) == Duration(Pinned(s), repairs).value
  {
    hide Duration, Pinned, Targets, PinsListed, Escalation, Lasts, Sequence;
    StageDuration(s, repairs);
    DurationIsWorst(Targets(s), repairs);
    attempts :| attempts != [] && Escalation(attempts, |Targets(s)|, repairs)
      && Lasts(attempts, Targets(s)) == Duration(Targets(s), repairs).value;
  }

  // An execution in which every stage takes its full duration.
  lemma {:induction false} SlowestRuns(stages: seq<StageDecision>, specs: seq<Spec>) returns (runs: seq<seq<Attempt>>)
    requires |stages| == |specs| && PlanTimed(stages) && forall i | 0 <= i < |stages| :: StageMeasured(stages[i])
    ensures PlanRuns(stages, specs, runs)
    ensures forall i | 0 <= i < |stages| ::
              && Duration(Pinned(stages[i]), specs[i].maxRepairs).Some?
              && Lasts(runs[i], Targets(stages[i])) == Duration(Pinned(stages[i]), specs[i].maxRepairs).value
    decreases |stages|
  {
    hide StageMeasured, Duration, Pinned, Targets, Timed, Escalation, Lasts;
    runs := [];
    if stages != [] {
      var last := |stages| - 1;
      var front := SlowestRuns(stages[..last], specs[..last]);
      var attempts := StageTakesAll(stages[last], specs[last].maxRepairs);
      runs := front + [attempts];
      forall i | 0 <= i < |stages|
        ensures Escalation(runs[i], |Targets(stages[i])|, specs[i].maxRepairs)
        ensures Duration(Pinned(stages[i]), specs[i].maxRepairs).Some?
        ensures Lasts(runs[i], Targets(stages[i])) == Duration(Pinned(stages[i]), specs[i].maxRepairs).value
      {
        if i < last {
          assert Escalation(front[i], |Targets(stages[..last][i])|, specs[..last][i].maxRepairs);
        }
      }
    }
  }

  lemma LatencyKnown(d: Decision, g: Graph, durations: map<Id, Option<real>>, times: map<Id, real>)
    requires IsTimed(d, g, durations, times) && g.Keys == IdSet(d.order)
    requires forall i | 0 <= i < |d.stages| :: StageMeasured(d.stages[i])
    ensures d.latency.Some? <==> PlanTimed(d.stages)
  {
    hide Duration, Pinned, Targets, PinsListed, Timed, IsTimes;
    forall i | 0 <= i < |d.order|
      ensures d.order[i].id in durations
      ensures durations[d.order[i].id].Some? <==> Targets(d.stages[i]) != [] && Timed(Targets(d.stages[i]))
    {
      assert StageMeasured(d.stages[i]);
      StageDuration(d.stages[i], d.order[i].maxRepairs);
    }
  }

  lemma DurationsNonnegative(d: Decision, g: Graph, durations: map<Id, Option<real>>, times: map<Id, real>)
    requires IsTimed(d, g, durations, times) && g.Keys == IdSet(d.order) && PlanTimed(d.stages)
    requires forall i | 0 <= i < |d.stages| :: StageMeasured(d.stages[i])
    ensures Nonnegative(Known(durations))
  {
    hide Duration, Pinned, Targets, PinsListed, Timed, IsTimes, StageMeasured;
    forall n | n in Known(durations)
      ensures Known(durations)[n] >= 0.0
    {
      var i :| 0 <= i < |d.order| && d.order[i].id == n;
      StageTakesLess(d.stages[i], d.order[i].maxRepairs, []);
    }
  }

  lemma RunsFit(d: Decision, g: Graph, durations: map<Id, Option<real>>, times: map<Id, real>,
      runs: seq<seq<Attempt>>, took: map<Id, real>)
    requires IsTimed(d, g, durations, times) && d.latency.Some? && PlanTimed(d.stages)
    requires forall i | 0 <= i < |d.stages| :: StageMeasured(d.stages[i])
    requires PlanRuns(d.stages, d.order, runs) && TakesTime(d.stages, d.order, runs, took)
    ensures forall n | n in took :: n in Known(durations) && took[n] <= Known(durations)[n]
  {
    hide Duration, Pinned, Targets, PinsListed, Timed, IsTimes, StageMeasured, Escalation, Lasts;
    forall n | n in took
      ensures n in Known(durations) && took[n] <= Known(durations)[n]
    {
      var i :| 0 <= i < |d.order| && d.order[i].id == n;
      StageTakesLess(d.stages[i], d.order[i].maxRepairs, runs[i]);
    }
  }

  /** The latency of a decision is the maximum over everything its execution can attempt: no chain of
      stages takes longer in any execution, and in one execution a chain takes exactly that. It is known
      exactly if every target of every stage has a known latency. */
  lemma PlanLatencyIsWorst(d: Decision, g: Graph, durations: map<Id, Option<real>>, times: map<Id, real>)
    requires IsTimed(d, g, durations, times) && IsGraphOf(g, d.order) && Rankable(g)
    requires forall i | 0 <= i < |d.stages| :: StageMeasured(d.stages[i])
    ensures d.latency.Some? <==> PlanTimed(d.stages)
    ensures d.latency.Some? ==>
              && LatencyBounds(d.stages, d.order, g, d.latency.value)
              && LatencyAttained(d.stages, d.order, g, d.latency.value)
  {
    LatencyKnown(d, g, durations, times);
    if d.latency.Some? {
      hide StageMeasured, PlanRuns, TakesTime, IsTimes, Rankable, Duration, Lasts, Pinned, Targets, Weight, PlanTimed;
      var longest := Known(durations);
      DurationsNonnegative(d, g, durations, times);
      LatencyIsHeaviestChain(g, longest, times, d.latency.value);
      LatencyFits(d, g, durations, times);
      var runs := SlowestRuns(d.stages, d.order);
      SlowestTakes(d, g, durations, times, runs);
      var chain :| Chain(g, chain) && Weight(longest, chain) == d.latency.value;
    }
  }

  lemma LatencyFits(d: Decision, g: Graph, durations: map<Id, Option<real>>, times: map<Id, real>)
    requires IsTimed(d, g, durations, times) && d.latency.Some? && PlanTimed(d.stages)
    requires forall i | 0 <= i < |d.stages| :: StageMeasured(d.stages[i])
    requires forall chain | Chain(g, chain) :: Weight(Known(durations), chain) <= d.latency.value
    ensures LatencyBounds(d.stages, d.order, g, d.latency.value)
  {
    hide StageMeasured, PlanRuns, TakesTime, IsTimes, Duration, Lasts, Pinned, Targets, Weight, PlanTimed;
    forall runs: seq<seq<Attempt>>, took: map<Id, real>, chain: seq<Id>
      | PlanRuns(d.stages, d.order, runs) && TakesTime(d.stages, d.order, runs, took) && took.Keys == g.Keys
        && Chain(g, chain)
      ensures Weight(took, chain) <= d.latency.value
    {
      RunsFit(d, g, durations, times, runs, took);
      WeightUp(took, Known(durations), chain);
    }
  }

  lemma SlowestTakes(d: Decision, g: Graph, durations: map<Id, Option<real>>, times: map<Id, real>,
      runs: seq<seq<Attempt>>)
    requires IsTimed(d, g, durations, times) && d.latency.Some? && IsGraphOf(g, d.order)
    requires |runs| == |d.stages| && forall i | 0 <= i < |d.stages| ::
              && Duration(Pinned(d.stages[i]), d.order[i].maxRepairs).Some?
              && Lasts(runs[i], Targets(d.stages[i])) == Duration(Pinned(d.stages[i]), d.order[i].maxRepairs).value
    ensures TakesTime(d.stages, d.order, runs, Known(durations)) && Known(durations).Keys == g.Keys
  {
    hide IsTimes, Duration, Lasts, Pinned, Targets;
  }

  // ----- the calls of a plan -----

  function PlanLength(runs: seq<seq<Attempt>>): nat {
    if runs == [] then 0 else |runs[0]| + PlanLength(runs[1..])
  }

  lemma {:induction false} RepeatedLength<T>(x: T, n: nat)
    ensures |Repeated(x, n)| == n
    decreases n
  {
    if n > 0 {
      RepeatedLength(x, n - 1);
    }
  }

  lemma {:induction false} HeaviestLength(at: nat, targets: nat, repairs: nat, k: nat)
    requires at < targets && k < targets
    ensures |Heaviest(at, targets, repairs, k)| == targets - at - 1 + (if at <= k then repairs else 0)
    decreases targets - at
  {
    RepeatedLength(Attempt(k, true), repairs);
    if at + 1 < targets {
      HeaviestLength(at + 1, targets, repairs, k);
    }
  }

  // The longest that a stage may make.
  lemma LongestAttempts(s: StageDecision, repairs: nat) returns (attempts: seq<Attempt>)
    requires StageListed(s)
    ensures Escalation(attempts, |Targets(s)|, repairs) && |attempts| == |Pinned(s)| + repairs
  {
    hide Targets, Pinned, PinsListed, Priced, Onward;
    TargetsArePinned(s);
    var w := Prices(Targets(s));
    HeaviestWeighs(w, 0, repairs, 0);
    HeaviestLength(0, |w|, repairs, 0);
    attempts := [Attempt(0, false)] + Heaviest(0, |w|, repairs, 0);
    assert attempts[1..] == Heaviest(0, |w|, repairs, 0);
  }

  lemma StageLength(s: StageDecision, repairs: nat, attempts: seq<Attempt>)
    requires StageListed(s) && Escalation(attempts, |Targets(s)|, repairs)
    ensures |attempts| <= |Pinned(s)| + repairs
  {
    hide Targets, Pinned, PinsListed, Priced, Escalation;
    TargetsArePinned(s);
    EscalationLength(attempts, |Targets(s)|, repairs);
  }

  lemma {:induction false} CallsBelow(stages: seq<StageDecision>, specs: seq<Spec>, runs: seq<seq<Attempt>>)
    requires PlanRuns(stages, specs, runs) && forall i | 0 <= i < |stages| :: StageListed(stages[i])
    ensures PlanLength(runs) <= AllCalls(stages, specs)
    decreases |stages|
  {
    hide StageListed, Targets, Pinned, Escalation;
    if stages != [] {
      StageLength(stages[0], specs[0].maxRepairs, runs[0]);
      forall i | 0 <= i < |stages[1..]|
        ensures StageListed(stages[1..][i])
        ensures Escalation(runs[1..][i], |Targets(stages[1..][i])|, specs[1..][i].maxRepairs)
      {
        assert StageListed(stages[i + 1]);
      }
      CallsBelow(stages[1..], specs[1..], runs[1..]);
    }
  }

  lemma {:induction false} LongestRuns(stages: seq<StageDecision>, specs: seq<Spec>) returns (runs: seq<seq<Attempt>>)
    requires |stages| == |specs| && forall i | 0 <= i < |stages| :: StageListed(stages[i])
    ensures PlanRuns(stages, specs, runs) && PlanLength(runs) == AllCalls(stages, specs)
    decreases |stages|
  {
    hide StageListed, Targets, Pinned, Escalation;
    runs := [];
    if stages != [] {
      var attempts := LongestAttempts(stages[0], specs[0].maxRepairs);
      forall i | 0 <= i < |stages[1..]|
        ensures StageListed(stages[1..][i])
      {
        assert StageListed(stages[i + 1]);
      }
      var rest := LongestRuns(stages[1..], specs[1..]);
      runs := [attempts] + rest;
      assert runs[1..] == rest;
      forall i | 0 <= i < |stages|
        ensures Escalation(runs[i], |Targets(stages[i])|, specs[i].maxRepairs)
      {
        if i > 0 {
          assert Escalation(rest[i - 1], |Targets(stages[1..][i - 1])|, specs[1..][i - 1].maxRepairs);
        }
      }
    }
  }

  // ----- when a plan is ready -----

  ghost predicate CallsWithin(stages: seq<StageDecision>, specs: seq<Spec>, most: nat) {
    forall runs: seq<seq<Attempt>> | PlanRuns(stages, specs, runs) :: PlanLength(runs) <= most
  }

  ghost predicate CostWithin(stages: seq<StageDecision>, specs: seq<Spec>, most: nat) {
    forall runs: seq<seq<Attempt>> | PlanRuns(stages, specs, runs) :: PlanSpent(stages, runs) <= most
  }

  // Every candidate that a stage may try has a known price.
  ghost predicate PlanPriced(stages: seq<StageDecision>) {
    forall i | 0 <= i < |stages| :: Costed(Pinned(stages[i]))
  }

  // What the profile and the options forbid outright.
  predicate Permitted(order: seq<Spec>, stages: seq<StageDecision>, profile: Profile, options: Options) {
    && profile.restricted == profile.tools == profile.modality == false
    && (options.cheapFirst ==> options.requiredTerms)
    && (forall i | 0 <= i < |order| :: order[i].maxRepairs < profile.maxAttempts)
    && (forall i | 0 <= i < |stages| :: stages[i].selected.Some?)
  }

  // No execution exceeds a limit of the profile.
  ghost predicate Affordable(d: Decision, g: Graph, profile: Profile) {
    && CallsWithin(d.stages, d.order, profile.maxCalls)
    && PlanPriced(d.stages)
    && (profile.maxCost.Some? ==> CostWithin(d.stages, d.order, profile.maxCost.value))
    && (profile.maxLatency.Some? ==>
          PlanTimed(d.stages) && LatencyBounds(d.stages, d.order, g, profile.maxLatency.value as real))
  }

  lemma CallsAreWorst(stages: seq<StageDecision>, specs: seq<Spec>, most: nat)
    requires |stages| == |specs| && forall i | 0 <= i < |stages| :: StageListed(stages[i])
    ensures CallsWithin(stages, specs, most) <==> AllCalls(stages, specs) <= most
  {
    hide StageListed, PlanRuns, AllCalls, PlanLength;
    var runs := LongestRuns(stages, specs);
    if AllCalls(stages, specs) <= most {
      forall runs: seq<seq<Attempt>> | PlanRuns(stages, specs, runs)
        ensures PlanLength(runs) <= most
      {
        CallsBelow(stages, specs, runs);
      }
    }
  }

  lemma CostKnown(stages: seq<StageDecision>, specs: seq<Spec>)
    requires |stages| == |specs| > 0 && forall i | 0 <= i < |stages| :: StageListed(stages[i])
    ensures Total(AllCosts(stages, specs)).Some? <==> PlanPriced(stages)
  {
    hide Pinned, AllKnown, Costed, WorstCosts, PinsListed, Priced;
    forall i | 0 <= i < |stages|
      ensures Pinned(stages[i]) != []
    {
      assert StageListed(stages[i]);
    }
    TotalIsWorst(stages, specs);
    assert StageCosts(Pinned(stages[0]), specs[0].maxRepairs) != [];
  }

  lemma CostIsBound(stages: seq<StageDecision>, specs: seq<Spec>, cost: int, most: nat)
    requires CostIsWorst(stages, specs, cost)
    ensures CostWithin(stages, specs, most) <==> cost <= most
  {
    hide PlanRuns, PlanSpent;
  }

  lemma LatencyIsBound(stages: seq<StageDecision>, specs: seq<Spec>, g: Graph, latency: real, most: real)
    requires LatencyBounds(stages, specs, g, latency) && LatencyAttained(stages, specs, g, latency)
    ensures LatencyBounds(stages, specs, g, most) <==> latency <= most
  {
    hide PlanRuns, TakesTime, Weight;
    if latency <= most {
      forall runs: seq<seq<Attempt>>, took: map<Id, real>, chain: seq<Id>
        | PlanRuns(stages, specs, runs) && TakesTime(stages, specs, runs, took) && took.Keys == g.Keys
          && Chain(g, chain)
        ensures Weight(took, chain) <= most
      {
        assert Weight(took, chain) <= latency;
      }
    }
  }

  lemma PlanMeasured(d: Decision, specs: seq<Spec>, g: Graph, profile: Profile, options: Options, choose: Selection)
    requires ValidPlan(specs, g) && IsPlan(d, specs, g, profile, options, choose)
    requires forall i | 0 <= i < |d.stages| :: d.stages[i].selected.Some?
    requires forall i | 0 <= i < |specs| :: ValidChoice(choose(specs[i])) && Measured(choose(specs[i]))
    ensures |d.stages| == |d.order| && forall i | 0 <= i < |d.stages| :: StageMeasured(d.stages[i])
  {
    hide IsPlan, ValidPlan, StageMeasured, InOrder, ValidChoice, Fallbacks, Measured;
    PlanStages(d, specs, g, profile, options, choose);
    OrderIsSpecs(specs, g);
    forall i | 0 <= i < |d.order|
      ensures StageMeasured(d.stages[i])
    {
      assert d.order[i] in specs;
      var j :| 0 <= j < |specs| && specs[j] == d.order[i];
      assert d.stages[i].selected.Some?;
      DecidedMeasured(d.order[i], choose(d.order[i]), profile.maxAttempts);
    }
  }

  lemma DecidedMeasured(spec: Spec, choice: Choice, maxAttempts: nat)
    requires ValidChoice(choice) && Measured(choice) && choice.selected.Some?
    ensures StageMeasured(Decide(spec, choice, maxAttempts))
  {
    hide PinsListed, Fallbacks, HasConfig, Lookup, Named, DistinctConfigs;
    var s := Decide(spec, choice, maxAttempts);
    DecidedPins(spec, choice, maxAttempts);
    TriedNamed(s);
    var targets := Targets(s);
    forall i | 0 <= i < |targets|
      ensures Wait(targets[i]) >= 0.0
    {
      assert targets[i] in choice.candidates;
      var j :| 0 <= j < |choice.candidates| && choice.candidates[j] == targets[i];
    }
  }

  lemma TriedNamed(s: StageDecision)
    requires PinsListed(s)
    ensures forall i | 0 <= i < |Targets(s)| :: Targets(s)[i] in s.candidates
  {
    hide HasConfig, Lookup, Named, DistinctConfigs;
    NamedMeans(s.candidates, Tried(s));
  }

  /** A plan is ready exactly if the profile and the options forbid nothing of it, every stage has a
      target, all prices are known, and no execution whatever makes more calls, costs more or, along any
      chain of stages, takes longer than the profile allows. */
  lemma ReadyExactly(d: Decision, specs: seq<Spec>, g: Graph, profile: Profile, options: Options,
      choose: Selection, durations: map<Id, Option<real>>, times: map<Id, real>)
    requires ValidPlan(specs, g) && IsPlan(d, specs, g, profile, options, choose) && IsTimed(d, g, durations, times)
    requires forall i | 0 <= i < |specs| :: ValidChoice(choose(specs[i])) && Measured(choose(specs[i]))
    ensures d.ready <==> Permitted(d.order, d.stages, profile, options) && Affordable(d, g, profile)
  {
    hide PlanRuns, PlanSpent, StageListed, StageMeasured, ValidChoice, AllCosts, AllCalls, Total, IsPlan, ValidPlan,
        IsTimed, LatencyBounds, CallsWithin, CostWithin, PlanPriced, PlanTimed, Measured, CostIsWorst, LatencyAttained;
    PlanReady(d, specs, g, profile, options, choose);
    if Permitted(d.order, d.stages, profile, options) {
      PlanStages(d, specs, g, profile, options, choose);
      PlanGraph(d, specs, g, profile, options, choose);
      PlanListed(d, specs, g, profile, options, choose);
      PlanMeasured(d, specs, g, profile, options, choose);
      CallsAreWorst(d.stages, d.order, profile.maxCalls);
      CostKnown(d.stages, d.order);
      if d.cost.Some? {
        TotalIsLargest(d.stages, d.order, d.cost.value);
        if profile.maxCost.Some? {
          CostIsBound(d.stages, d.order, d.cost.value, profile.maxCost.value);
        }
      }
      PlanLatencyIsWorst(d, g, durations, times);
      if d.latency.Some? && profile.maxLatency.Some? {
        LatencyIsBound(d.stages, d.order, g, d.latency.value, profile.maxLatency.value as real);
      }
    }
  }

  lemma PlanReady(d: Decision, specs: seq<Spec>, g: Graph, profile: Profile, options: Options, choose: Selection)
    requires IsPlan(d, specs, g, profile, options, choose)
    ensures d.ready <==>
              && Permitted(d.order, d.stages, profile, options)
              && d.calls <= profile.maxCalls && d.cost.Some?
              && (profile.maxCost.Some? ==> d.cost.value <= profile.maxCost.value)
              && (profile.maxLatency.Some? ==>
                    d.latency.Some? && d.latency.value <= profile.maxLatency.value as real)
  {
    hide InOrder, AllCosts, AllCalls, Total, Waves, DecidedBy;
  }

  lemma PlanGraph(d: Decision, specs: seq<Spec>, g: Graph, profile: Profile, options: Options, choose: Selection)
    requires ValidPlan(specs, g) && IsPlan(d, specs, g, profile, options, choose)
    ensures IsGraphOf(g, d.order) && Rankable(g) && d.order != []
  {
    hide InOrder, AllCosts, AllCalls, Total, Waves, DecidedBy, NoBlocker, IsGraphOf, Rankable;
    OrderedPlan(specs, g);
  }

  // ----- the budgets of compiled stages -----

  // No execution of the stage is forecast to cost more than this, and one costs as much unless the first
  // checks refuse it.
  ghost predicate IsWorstOf(stage: Engine.Stage, cs: seq<Engine.Candidate>, call: Engine.Call, retained: bool,
      targets: seq<Candidate>, cost: int)
    requires cs != []
  {
    && (forall world :: Spent(Shape(Engine.Trace(stage, cs, call, retained, world)), targets) <= cost)
    && (Engine.Refused(stage, cs, call, retained).None? ==>
          exists world :: Spent(Shape(Engine.Trace(stage, cs, call, retained, world)), targets) == cost)
  }

  lemma CompiledExecutes(p: Compiler.Policy, i: nat, s: StageDecision, spec: Spec, profile: Profile,
      cs: seq<Engine.Candidate>)
    requires i < |p.stages| == |p.workflow.nodes| == |p.prompts|
    requires CompiledRun.StageOfDecision(p, i, s, spec, profile) && StageListed(s) && s.selected.Some?
    requires |cs| == |Targets(s)|
    ensures Executes(Envelope.EngineStage(p.stages[i]), cs, s, spec)
    ensures p.stages[i].budget.maxCost == WorstCost(Pinned(s), spec.maxRepairs)
  {
    hide PinsListed, Pinned, Targets, Priced, WorstCost, CompiledRun.TextsOf;
    TargetsArePinned(s);
    assert Failures.ProviderFailure in p.stages[i].fallbackOn;
  }

  /** The budget of a compiled stage is what its execution can come to: the engine's attempts under the
      compiled limits and reasons for a fallback are never forecast to cost more than the stage's own budget,
      and for some answers they cost exactly that. */
  lemma CompiledBudgetIsWorst(specs: seq<Spec>, g: Graph, profile: Profile, options: Options, choose: Selection,
      d: Decision, planId: nat, i: nat, cs: seq<Engine.Candidate>, call: Engine.Call, retained: bool)
    requires ValidPlan(specs, g) && Compiler.ValidProfile(profile)
    requires IsPlan(d, specs, g, profile, options, choose) && d.ready
    requires forall k | 0 <= k < |specs| :: Compiler.ChoiceFor(profile, choose(specs[k]))
    requires i < |d.stages| == |d.order| && |cs| == |Targets(d.stages[i])| && cs != []
    ensures
      var p := Compiler.Draft(d, profile, planId);
      && i < |p.stages|
      && IsWorstOf(Envelope.EngineStage(p.stages[i]), cs, call, retained, Targets(d.stages[i]),
                   p.stages[i].budget.maxCost)
  {
    hide IsPlan, ValidPlan, Compiler.Draft, StageListed, Compiler.ValidProfile, CompiledRun.StageOfDecision, Executes,
        CompiledRun.NodeOfStage, Targets, Pinned, WorstCost, Engine.Trace, Engine.Refused, Spent;
    var p, s := Compiler.Draft(d, profile, planId), d.stages[i];
    CompiledRun.CompiledExactly(specs, g, profile, options, choose, d, planId);
    ReadyPlan(d, specs, g, profile, options, choose);
    PlanListed(d, specs, g, profile, options, choose);
    CompiledExecutes(p, i, s, d.order[i], profile, cs);
    ListedParts(s);
    StageForecastIsWorst(Envelope.EngineStage(p.stages[i]), cs, call, retained, s, d.order[i]);
  }

  lemma ListedParts(s: StageDecision)
    requires StageListed(s)
    ensures PinsListed(s) && Pinned(s) != [] && Priced(Pinned(s))
  {
  }
}

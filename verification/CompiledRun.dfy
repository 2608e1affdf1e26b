/**
 What compilation makes of each stage of a decision, what a run hands to each stage, and how it ends.
 */
module CompiledRun {
  import opened Basics
  import opened DependencyGraph
  import opened Planner
  import opened RoutingPlan
  import opened ValueTypes
  import opened PolicyCompiler
  import opened Runner
  import Failures

  // ----- what a stage is compiled to -----

  // The results of all dependencies and the original input, under their own names, and nothing else.
  ghost predicate ReadsJust(n: Node, deps: seq<Id>) {
    && (forall x :: x in n.inputs <==> x == INPUT || x in deps)
    && n.inputs[INPUT] == Binding(INPUT, VALUE, true)
    && forall x | x in deps && x != INPUT :: n.inputs[x] == Binding(x, RESULT, false)
  }

  ghost predicate TextsOf(types: map<Id, ValueType>, n: Node) {
    (forall x :: x in types <==> x in n.inputs) && forall x | x in types :: types[x] == Text
  }

  ghost predicate NodeOfStage(n: Node, s: StageDecision) {
    && n.id == s.node && n.kind == Llm && n.deps == s.deps && n.outputs == [RESULT] && n.tool.None?
    && ReadsJust(n, s.deps)
  }

  // One attempt for the selected target, one for each fallback and one for each repair.
  ghost predicate BudgetOfStage(b: Budget, s: StageDecision, spec: Spec, profile: Profile) {
    && b.maxCalls == b.maxAttempts == 1 + |s.fallbacks| + spec.maxRepairs && b.maxTools == 0
    && profile.inputTokens == Some(b.maxInput) && profile.outputTokens == Some(b.maxOutput)
    && (profile.maxLatency.Some? ==> b.timeout == profile.maxLatency.value)
    && (profile.maxLatency.None? ==> b.timeout == 120000)
    && Pinned(s) != [] && b.maxCost == WorstCost(Pinned(s), spec.maxRepairs)
  }

  // A failed answer, provider or rate, but no mistake of the request's own.
  ghost predicate FallsBackOn(kinds: set<Failures.FailureKind>) {
    forall kind: Failures.FailureKind :: kind in kinds <==>
      || kind.QualityValidation? || kind.InvalidOutput? || kind.ProviderFailure? || kind.RateLimit?
      || kind.Timeout? || kind.CircuitOpen?
  }

  ghost predicate StageOfDecision(p: Policy, i: nat, s: StageDecision, spec: Spec, profile: Profile)
    requires i < |p.stages| == |p.workflow.nodes| == |p.prompts|
  {
    var c := p.stages[i];
    && c.node == s.node && c.configuration == s.selected && c.fallbacks == s.fallbacks
    && c.rules == spec.validators && c.maxRepairs == spec.maxRepairs && c.operation.None? && c.tools == []
    && c.prompt == Some(p.prompts[i].ref) && p.prompts[i].ref == VersionRef(s.node, 1)
    && TextsOf(c.inputTypes, p.workflow.nodes[i]) && TextsOf(p.prompts[i].variables, p.workflow.nodes[i])
    && (c.formatted <==> profile.json && i == |p.stages| - 1)
    && c.outputTypes == map[RESULT := if profile.json && i == |p.stages| - 1 then Json else Text]
    && BudgetOfStage(c.budget, s, spec, profile)
    && FallsBackOn(c.fallbackOn)
  }

  // The limits of the profile, and the most attempts of any stage.
  ghost predicate BudgetOfPolicy(p: Policy, profile: Profile) {
    && profile.inputTokens == Some(p.budget.maxInput) && profile.outputTokens == Some(p.budget.maxOutput)
    && (profile.maxLatency.Some? ==> p.budget.timeout == profile.maxLatency.value)
    && (profile.maxLatency.None? ==> p.budget.timeout == 120000)
    && p.budget.maxTools == 0
    && (forall i | 0 <= i < |p.stages| :: p.stages[i].budget.maxAttempts <= p.budget.maxAttempts)
    && (exists i :: 0 <= i < |p.stages| && p.stages[i].budget.maxAttempts == p.budget.maxAttempts)
  }

  lemma {:induction false} MostIsAtLeast(stages: seq<Stage>)
    ensures forall i | 0 <= i < |stages| :: stages[i].budget.maxAttempts <= MostAttempts(stages)
    decreases |stages|
  {
    if stages != [] {
      MostIsAtLeast(stages[1..]);
      assert forall i | 0 < i < |stages| :: stages[i] == stages[1..][i - 1];
    }
  }

  lemma PolicyBudgeted(d: Decision, g: Graph, profile: Profile, planId: nat)
    requires Sound(d, g, profile) && |d.stages| == |d.order|
    ensures BudgetOfPolicy(Draft(d, profile, planId), profile)
  {
    SoundSizes(d, g, profile);
    SoundTokens(d, g, profile);
    hide Sound, Draft;
    PolicyLimits(d, profile, planId);
    PolicyAttempts(d, profile, planId);
  }

  lemma PolicyLimits(d: Decision, profile: Profile, planId: nat)
    requires |d.stages| == |d.order| && profile.inputTokens.Some? && profile.outputTokens.Some?
    ensures
      var b := Draft(d, profile, planId).budget;
      && profile.inputTokens == Some(b.maxInput) && profile.outputTokens == Some(b.maxOutput)
      && (profile.maxLatency.Some? ==> b.timeout == profile.maxLatency.value)
      && (profile.maxLatency.None? ==> b.timeout == 120000)
      && b.maxTools == 0
  {
    hide Stages, Nodes, Prompts, MostAttempts, Delivered, Sum, CostsOf;
  }

  lemma PolicyAttempts(d: Decision, profile: Profile, planId: nat)
    requires |d.stages| == |d.order| > 0
    ensures
      var p := Draft(d, profile, planId);
      && (forall i | 0 <= i < |p.stages| :: p.stages[i].budget.maxAttempts <= p.budget.maxAttempts)
      && (exists i :: 0 <= i < |p.stages| && p.stages[i].budget.maxAttempts == p.budget.maxAttempts)
  {
    hide CompiledStage, Stages, Nodes, Prompts, Draft, MostAttempts, Delivered, Sum, CostsOf, Tokens;
    var p, stages := Draft(d, profile, planId), Stages(d.stages, d.order, profile);
    DraftParts(d, profile, planId);
    Indexed(d.stages, d.order, profile);
    DeliveredBudgets(stages, profile.json);
    MostOfAll(p, stages);
  }

  lemma MostOfAll(p: Policy, stages: seq<Stage>)
    requires |p.stages| == |stages| > 0 && forall i | 0 <= i < |stages| :: p.stages[i].budget == stages[i].budget
    requires p.budget.maxAttempts == MostAttempts(stages)
    ensures forall i | 0 <= i < |p.stages| :: p.stages[i].budget.maxAttempts <= p.budget.maxAttempts
    ensures exists i :: 0 <= i < |p.stages| && p.stages[i].budget.maxAttempts == p.budget.maxAttempts
  {
    hide MostAttempts;
    MostIsAtLeast(stages);
    MostIsMost(stages);
    var i :| 0 <= i < |stages| && stages[i].budget.maxAttempts == MostAttempts(stages);
    assert p.stages[i].budget.maxAttempts == p.budget.maxAttempts;
  }

  lemma SoundTokens(d: Decision, g: Graph, profile: Profile)
    requires Sound(d, g, profile)
    ensures profile.inputTokens.Some? && profile.outputTokens.Some?
  {
  }

  lemma BindingsRead(s: StageDecision, spec: Spec, profile: Profile)
    ensures NodeOfStage(CompiledNode(s), s)
    ensures TextsOf(CompiledPrompt(s).variables, CompiledNode(s))
    ensures TextsOf(CompiledStage(s, spec, profile).inputTypes, CompiledNode(s))
  {
    hide Amount, Timeout, Tokens;
  }

  lemma FormatOfStage(d: Decision, profile: Profile, planId: nat, i: nat)
    requires |d.stages| == |d.order| && i < |d.stages|
    ensures
      var p := Draft(d, profile, planId);
      && |p.stages| == |d.stages|
      && (p.stages[i].formatted <==> profile.json && i == |p.stages| - 1)
      && p.stages[i].outputTypes == map[RESULT := if profile.json && i == |p.stages| - 1 then Json else Text]
  {
    hide CompiledStage, Stages, Nodes, Prompts, Draft;
    var stages := Stages(d.stages, d.order, profile);
    DraftParts(d, profile, planId);
    Indexed(d.stages, d.order, profile);
    CompiledText(d.stages[i], d.order[i], profile);
  }

  lemma BudgetOfCompiled(s: StageDecision, spec: Spec, profile: Profile)
    requires StageReady(s, spec, profile) && profile.inputTokens.Some? && profile.outputTokens.Some?
    ensures BudgetOfStage(CompiledStage(s, spec, profile).budget, s, spec, profile)
  {
    AmountReady(s, spec, profile);
  }

  lemma PinsOfCompiled(s: StageDecision, spec: Spec, profile: Profile)
    ensures
      var c := CompiledStage(s, spec, profile);
      && c.node == s.node && c.configuration == s.selected && c.fallbacks == s.fallbacks
      && c.rules == spec.validators && c.maxRepairs == spec.maxRepairs && c.operation.None? && c.tools == []
      && c.prompt == Some(CompiledPrompt(s).ref) && CompiledPrompt(s).ref == VersionRef(s.node, 1)
      && FallsBackOn(c.fallbackOn)
  {
    hide Amount, Timeout, Tokens, Bindings, Types;
  }

  lemma StageIsDecided(d: Decision, g: Graph, profile: Profile, planId: nat, i: nat)
    requires Sound(d, g, profile) && i < |d.stages| == |d.order|
    ensures
      var p := Draft(d, profile, planId);
      && |p.stages| == |p.workflow.nodes| == |p.prompts| == |d.stages|
      && NodeOfStage(p.workflow.nodes[i], d.stages[i])
      && StageOfDecision(p, i, d.stages[i], d.order[i], profile)
  {
    SoundStage(d, g, profile, i);
    hide Sound, CompiledNode, CompiledPrompt, CompiledStage, Draft, StageReady, NodeOfStage, BudgetOfStage, TextsOf;
    DraftAt(d, profile, planId, i);
    BindingsRead(d.stages[i], d.order[i], profile);
    FormatOfStage(d, profile, planId, i);
    BudgetOfCompiled(d.stages[i], d.order[i], profile);
    PinsOfCompiled(d.stages[i], d.order[i], profile);
  }

  lemma SoundStage(d: Decision, g: Graph, profile: Profile, i: nat)
    requires Sound(d, g, profile) && i < |d.stages| == |d.order|
    ensures StageReady(d.stages[i], d.order[i], profile) && profile.inputTokens.Some? && profile.outputTokens.Some?
  {
  }

  /** Every stage of a ready decision is compiled to one node that reads the results of all its
      dependencies and the original input, and nothing else, and to one stage with just the decided
      targets, validators and repairs, its own worst case as its budget, and JSON on the last alone. */
  lemma CompiledExactly(specs: seq<Spec>, g: Graph, profile: Profile, options: Options, choose: Selection,
      d: Decision, planId: nat)
    requires ValidPlan(specs, g) && ValidProfile(profile) && IsPlan(d, specs, g, profile, options, choose) && d.ready
    requires forall i | 0 <= i < |specs| :: ChoiceFor(profile, choose(specs[i]))
    ensures
      var p := Draft(d, profile, planId);
      && |p.stages| == |p.workflow.nodes| == |p.prompts| == |d.stages| == |d.order|
      && p.workflow.inputs == [INPUT] && p.inputTypes == map[INPUT := Text] && p.workflow.tools == []
      && BudgetOfPolicy(p, profile)
      && forall i | 0 <= i < |d.stages| ::
           && NodeOfStage(p.workflow.nodes[i], d.stages[i])
           && StageOfDecision(p, i, d.stages[i], d.order[i], profile)
  {
    hide Sound, Draft, ChoiceFor, ValidPlan, IsPlan, NodeOfStage, StageOfDecision, ValidProfile, BudgetOfPolicy;
    DecisionIsSound(specs, g, profile, options, choose, d);
    DraftHeader(d, profile, planId);
    DraftParts(d, profile, planId);
    DraftSize(d, profile, planId);
    PolicyBudgeted(d, g, profile, planId);
    forall i | 0 <= i < |d.stages|
      ensures
        var p := Draft(d, profile, planId);
        NodeOfStage(p.workflow.nodes[i], d.stages[i]) && StageOfDecision(p, i, d.stages[i], d.order[i], profile)
    {
      StageIsDecided(d, g, profile, planId, i);
    }
  }

  // ----- what a stage is handed -----

  // A stage of an earlier frontier answered with this record.
  ghost predicate AnsweredIn(fs: seq<seq<Dispatch>>, answers: Answers, id: Id, record: Record) {
    exists l, j :: 0 <= l < |fs| && 0 <= j < |fs[l]| && AnsweredBy(fs[l][j], answers, id, record)
  }

  ghost predicate AnsweredBy(d: Dispatch, answers: Answers, id: Id, record: Record) {
    d.node == id && d.bound.Some? && answers(id, d.bound.value) == Some(record)
  }

  // Each input of the node: the run's own input, or what a stage answered in an earlier frontier.
  ghost predicate HandedTo(n: Node, fs: seq<seq<Dispatch>>, inputs: Record, answers: Answers, bound: Record) {
    && (forall x :: x in bound <==> x in n.inputs)
    && forall x | x in n.inputs :: HandedAt(n.inputs[x], fs, inputs, answers, bound[x])
  }

  ghost predicate HandedAt(b: Binding, fs: seq<seq<Dispatch>>, inputs: Record, answers: Answers, value: Value) {
    if b.fromInput then b.source in inputs && value == inputs[b.source]
    else
      exists record: Record ::
        AnsweredIn(fs, answers, b.source, record) && b.output in record && record[b.output] == value
  }

  ghost predicate AllAnsweredIn(fs: seq<seq<Dispatch>>, answers: Answers, outputs: map<Id, Record>) {
    forall x | x in outputs :: AnsweredIn(fs, answers, x, outputs[x])
  }

  ghost predicate FrontierHanded(p: Policy, before: seq<seq<Dispatch>>, ds: seq<Dispatch>, inputs: Record,
      answers: Answers)
  {
    forall i | 0 <= i < |ds| && ds[i].bound.Some? ::
      exists k :: 0 <= k < |p.workflow.nodes| && p.workflow.nodes[k].id == ds[i].node
        && HandedTo(p.workflow.nodes[k], before, inputs, answers, ds[i].bound.value)
  }

  lemma BoundIsHanded(n: Node, fs: seq<seq<Dispatch>>, inputs: Record, outputs: map<Id, Record>, answers: Answers)
    requires AllAnsweredIn(fs, answers, outputs) && Bound(n, inputs, outputs).Some?
    ensures HandedTo(n, fs, inputs, answers, Bound(n, inputs, outputs).value)
  {
    hide AnsweredIn;
    var bound := Bound(n, inputs, outputs).value;
    forall x | x in n.inputs
      ensures HandedAt(n.inputs[x], fs, inputs, answers, bound[x])
    {
      var b := n.inputs[x];
      assert Produced(b, inputs, outputs);
      if !b.fromInput {
        assert AnsweredIn(fs, answers, b.source, outputs[b.source]);
      }
    }
  }

  lemma DispatchesHanded(p: Policy, frontier: seq<Id>, fs: seq<seq<Dispatch>>, inputs: Record,
      outputs: map<Id, Record>, answers: Answers)
    requires AllAnsweredIn(fs, answers, outputs)
    ensures FrontierHanded(p, fs, Dispatches(p, frontier, inputs, outputs), inputs, answers)
  {
    hide Bound, HandedTo, AllAnsweredIn;
    var ds, nodes := Dispatches(p, frontier, inputs, outputs), p.workflow.nodes;
    forall i | 0 <= i < |ds| && ds[i].bound.Some?
      ensures exists k :: 0 <= k < |nodes| && nodes[k].id == ds[i].node
                && HandedTo(nodes[k], fs, inputs, answers, ds[i].bound.value)
    {
      var k := NodeOf(nodes, frontier[i]);
      BoundIsHanded(nodes[k], fs, inputs, outputs, answers);
    }
  }

  lemma OutputIsAnswer(p: Policy, id: Id, inputs: Record, outputs: map<Id, Record>, answers: Answers)
    ensures
      var output := Output(p, id, inputs, outputs, answers);
      output.Some? ==> AnsweredBy(Dispatched(p, id, inputs, outputs), answers, id, output.value)
  {
    hide Typed, Bound;
  }

  lemma StillAnswered(fs: seq<seq<Dispatch>>, more: seq<seq<Dispatch>>, answers: Answers, id: Id, record: Record)
    requires AnsweredIn(fs, answers, id, record)
    ensures AnsweredIn(fs + more, answers, id, record)
  {
    hide AnsweredBy;
    var l, j :| 0 <= l < |fs| && 0 <= j < |fs[l]| && AnsweredBy(fs[l][j], answers, id, record);
    assert (fs + more)[l] == fs[l];
  }

  lemma SettledAnswered(p: Policy, frontier: seq<Id>, fs: seq<seq<Dispatch>>, inputs: Record,
      outputs: map<Id, Record>, answers: Answers)
    requires AllAnsweredIn(fs, answers, outputs)
    ensures AllAnsweredIn(fs + [Dispatches(p, frontier, inputs, outputs)], answers,
        Runner.Settled(p, frontier, inputs, outputs, answers))
  {
    hide Output, AnsweredBy, AnsweredIn, Runner.Settled, Dispatched;
    var ds, after := Dispatches(p, frontier, inputs, outputs), Runner.Settled(p, frontier, inputs, outputs, answers);
    forall x | x in after
      ensures AnsweredIn(fs + [ds], answers, x, after[x])
    {
      SettledAt(p, frontier, inputs, outputs, answers, x);
      if x in frontier && Output(p, x, inputs, outputs, answers).Some? {
        var i :| 0 <= i < |frontier| && frontier[i] == x;
        OutputIsAnswer(p, x, inputs, outputs, answers);
        AnsweredLast(fs, ds, i, answers, x, after[x]);
      } else {
        StillAnswered(fs, [ds], answers, x, after[x]);
      }
    }
  }

  lemma AnsweredLast(fs: seq<seq<Dispatch>>, ds: seq<Dispatch>, i: nat, answers: Answers, id: Id, record: Record)
    requires i < |ds| && AnsweredBy(ds[i], answers, id, record)
    ensures AnsweredIn(fs + [ds], answers, id, record)
  {
    hide AnsweredBy;
    assert (fs + [ds])[|fs|][i] == ds[i];
  }

  // From the f-th frontier on, everything a stage is handed was there before.
  ghost predicate HandedFrom(p: Policy, fs: seq<seq<Dispatch>>, from: nat, inputs: Record, answers: Answers) {
    forall f | from <= f < |fs| :: FrontierHanded(p, fs[..f], fs[f], inputs, answers)
  }

  lemma {:induction false} RestHands(p: Policy, inputs: Record, outputs: map<Id, Record>, answers: Answers,
      stops: nat -> bool, k: nat, fs: seq<seq<Dispatch>>)
    requires AllAnsweredIn(fs, answers, outputs)
    ensures HandedFrom(p, fs + Rest(p, inputs, outputs, answers, stops, k).frontiers, |fs|, inputs, answers)
    decreases |IdsOf(p.workflow.nodes) - outputs.Keys|
  {
    hide *;
    var t := Rest(p, inputs, outputs, answers, stops, k);
    RestCases(p, inputs, outputs, answers, stops, k);
    if GoesOn(p, inputs, outputs, stops, k) {
      var frontier := Frontier(p.workflow.nodes, outputs.Keys);
      var ds := Dispatches(p, frontier, inputs, outputs);
      DispatchesHanded(p, frontier, fs, inputs, outputs, answers);
      if AnyFailed(p, frontier, inputs, outputs, answers) {
        OneHanded(p, fs, ds, t, inputs, answers);
      } else {
        var settled := Runner.Settled(p, frontier, inputs, outputs, answers);
        SettledAnswered(p, frontier, fs, inputs, outputs, answers);
        assert |fs + [ds]| == |fs| + 1;
        RestHands(p, inputs, settled, answers, stops, k + 1, fs + [ds]);
        MoreHanded(p, fs, ds, Rest(p, inputs, settled, answers, stops, k + 1), t, inputs, answers);
      }
    } else {
      NoneHanded(p, fs, t, inputs, answers);
    }
  }

  // There is a frontier to dispatch.
  predicate GoesOn(p: Policy, inputs: Record, outputs: map<Id, Record>, stops: nat -> bool, k: nat) {
    && |outputs| < |p.stages| && !stops(k) && !NeedsApproval(p.workflow.nodes, outputs.Keys)
    && Frontier(p.workflow.nodes, outputs.Keys) != []
  }

  lemma RestCases(p: Policy, inputs: Record, outputs: map<Id, Record>, answers: Answers, stops: nat -> bool, k: nat)
    ensures
      var nodes, t := p.workflow.nodes, Rest(p, inputs, outputs, answers, stops, k);
      var frontier := Frontier(nodes, outputs.Keys);
      var ds := Dispatches(p, frontier, inputs, outputs);
      if !GoesOn(p, inputs, outputs, stops, k) then t.frontiers == []
      else if AnyFailed(p, frontier, inputs, outputs, answers) then t.frontiers == [ds]
      else
        var settled := Runner.Settled(p, frontier, inputs, outputs, answers);
        && t == Prefixed([ds], Rest(p, inputs, settled, answers, stops, k + 1))
        && |IdsOf(nodes) - settled.Keys| < |IdsOf(nodes) - outputs.Keys|
  {
    hide *;
    RestStep(p, inputs, outputs, answers, stops, k);
    GoesOnMeans(p, inputs, outputs, stops, k);
  }

  lemma GoesOnMeans(p: Policy, inputs: Record, outputs: map<Id, Record>, stops: nat -> bool, k: nat)
    ensures GoesOn(p, inputs, outputs, stops, k) <==>
      && |outputs| < |p.stages| && !stops(k) && !NeedsApproval(p.workflow.nodes, outputs.Keys)
      && Frontier(p.workflow.nodes, outputs.Keys) != []
  {
    hide Frontier, NeedsApproval;
  }

  lemma NoneHanded(p: Policy, fs: seq<seq<Dispatch>>, t: Trace, inputs: Record, answers: Answers)
    requires t.frontiers == []
    ensures HandedFrom(p, fs + t.frontiers, |fs|, inputs, answers)
  {
  }

  lemma OneHanded(p: Policy, fs: seq<seq<Dispatch>>, ds: seq<Dispatch>, t: Trace, inputs: Record, answers: Answers)
    requires FrontierHanded(p, fs, ds, inputs, answers) && t.frontiers == [ds]
    ensures HandedFrom(p, fs + t.frontiers, |fs|, inputs, answers)
  {
    hide FrontierHanded;
    assert (fs + [ds])[..|fs|] == fs;
  }

  lemma MoreHanded(p: Policy, fs: seq<seq<Dispatch>>, ds: seq<Dispatch>, rest: Trace, t: Trace,
      inputs: Record, answers: Answers)
    requires FrontierHanded(p, fs, ds, inputs, answers)
    requires HandedFrom(p, fs + [ds] + rest.frontiers, |fs| + 1, inputs, answers)
    requires t == Prefixed([ds], rest)
    ensures HandedFrom(p, fs + t.frontiers, |fs|, inputs, answers)
  {
    hide FrontierHanded;
    Regroup(fs, [ds], rest.frontiers);
    var all := fs + [ds] + rest.frontiers;
    assert all[..|fs|] == fs;
  }

  /** Whatever happens in a run, each stage that is dispatched with its inputs bound gets exactly the
      inputs of its node: those of the run, and what the stages it reads answered in earlier frontiers. */
  lemma RunHandsOver(p: Policy, inputs: Record, answers: Answers, stops: nat -> bool)
    ensures HandedFrom(p, Rest(p, inputs, map[], answers, stops, 0).frontiers, 0, inputs, answers)
  {
    hide *;
    NothingAnswered(answers);
    RestHands(p, inputs, map[], answers, stops, 0, []);
    var fs := Rest(p, inputs, map[], answers, stops, 0).frontiers;
    assert [] + fs == fs;
  }

  lemma NothingAnswered(answers: Answers)
    ensures AllAnsweredIn([], answers, map[])
  {
  }

  // ----- a compiled run -----

  // Bound to the run's input and to the results of these stages of earlier frontiers, and to nothing else.
  ghost predicate BoundTo(bound: Record, deps: seq<Id>, before: seq<seq<Dispatch>>, inputs: Record, answers: Answers) {
    && (forall x :: x in bound <==> x == INPUT || x in deps)
    && INPUT in inputs && bound[INPUT] == inputs[INPUT]
    && forall x | x in deps && x != INPUT :: exists record: Record ::
        AnsweredIn(before, answers, x, record) && RESULT in record && record[RESULT] == bound[x]
  }

  lemma HandedIsBound(n: Node, s: StageDecision, before: seq<seq<Dispatch>>, inputs: Record, answers: Answers,
      bound: Record)
    requires NodeOfStage(n, s) && HandedTo(n, before, inputs, answers, bound)
    ensures BoundTo(bound, s.deps, before, inputs, answers)
  {
    hide AnsweredIn;
    assert HandedAt(n.inputs[INPUT], before, inputs, answers, bound[INPUT]);
    forall x | x in s.deps && x != INPUT
      ensures exists record: Record ::
                AnsweredIn(before, answers, x, record) && RESULT in record && record[RESULT] == bound[x]
    {
      assert HandedAt(n.inputs[x], before, inputs, answers, bound[x]);
    }
  }

  ghost predicate DecidedDispatch(d: Decision, ds: Dispatch, before: seq<seq<Dispatch>>, inputs: Record,
      answers: Answers)
  {
    exists i :: 0 <= i < |d.stages| && d.stages[i].node == ds.node && ds.bound.Some?
      && BoundTo(ds.bound.value, d.stages[i].deps, before, inputs, answers)
  }

  lemma DispatchIsDecided(p: Policy, d: Decision, ds: seq<Dispatch>, i: nat, before: seq<seq<Dispatch>>,
      inputs: Record, answers: Answers)
    requires |p.workflow.nodes| == |d.stages|
    requires forall k | 0 <= k < |d.stages| :: NodeOfStage(p.workflow.nodes[k], d.stages[k])
    requires FrontierHanded(p, before, ds, inputs, answers) && i < |ds| && ds[i].bound.Some?
    ensures DecidedDispatch(d, ds[i], before, inputs, answers)
  {
    hide NodeOfStage, HandedTo, BoundTo;
    var nodes := p.workflow.nodes;
    var k :| 0 <= k < |nodes| && nodes[k].id == ds[i].node
      && HandedTo(nodes[k], before, inputs, answers, ds[i].bound.value);
    HandedIsBound(nodes[k], d.stages[k], before, inputs, answers, ds[i].bound.value);
    NamedNode(nodes[k], d.stages[k]);
  }

  lemma NamedNode(n: Node, s: StageDecision)
    requires NodeOfStage(n, s)
    ensures n.id == s.node
  {
  }

  lemma RunnableBound(p: Policy, g: Graph, inputs: Record, answers: Answers, stops: nat -> bool)
    requires Runnable(p, g) && Typed(p.inputTypes, inputs)
    ensures
      var fs := Rest(p, inputs, map[], answers, stops, 0).frontiers;
      forall f, i | 0 <= f < |fs| && 0 <= i < |fs[f]| :: fs[f][i].bound.Some?
  {
    hide Runnable, Typed, Layers, StageOf, Rest, NodesIn;
    RunFollowsLayers(p, g, inputs, answers, stops);
    var fs: seq<seq<Dispatch>> := Rest(p, inputs, map[], answers, stops, 0).frontiers;
    forall f, i | 0 <= f < |fs| && 0 <= i < |fs[f]|
      ensures fs[f][i].bound.Some?
    {
      assert ProperFrontier(p, fs[f]);
    }
  }

  /** From plan to data: in a run of the policy compiled from a ready decision, every stage is dispatched
      with exactly the original input and, for each stage it depends on, the result that this stage
      answered in an earlier frontier. */
  lemma CompiledRunHandsOver(specs: seq<Spec>, g: Graph, profile: Profile, options: Options, choose: Selection,
      d: Decision, planId: nat, inputs: Record, answers: Answers, stops: nat -> bool)
    requires ValidPlan(specs, g) && ValidProfile(profile) && IsPlan(d, specs, g, profile, options, choose) && d.ready
    requires forall i | 0 <= i < |specs| :: ChoiceFor(profile, choose(specs[i]))
    requires Typed(map[INPUT := Text], inputs)
    ensures |d.stages| == |d.order|
    ensures
      var fs := Rest(Draft(d, profile, planId), inputs, map[], answers, stops, 0).frontiers;
      forall f, i | 0 <= f < |fs| && 0 <= i < |fs[f]| :: DecidedDispatch(d, fs[f][i], fs[..f], inputs, answers)
  {
    hide Typed, ChoiceFor, ValidPlan, IsPlan, NodeOfStage, StageOfDecision, ValidProfile, Sound, Draft,
        WorkflowValid, ExecutableBindings, Layers, Rest, DecidedDispatch, FrontierHanded;
    CompiledExactly(specs, g, profile, options, choose, d, planId);
    DecisionIsSound(specs, g, profile, options, choose, d);
    CompiledIsExecutable(specs, g, profile, options, choose, d, planId);
    DraftGraph(d, g, profile, planId);
    SoundGraph(d, g, profile);
    var p := Draft(d, profile, planId);
    IsRunnable(p, g);
    RunnableBound(p, g, inputs, answers, stops);
    RunHandsOver(p, inputs, answers, stops);
    var fs: seq<seq<Dispatch>> := Rest(p, inputs, map[], answers, stops, 0).frontiers;
    forall f, i | 0 <= f < |fs| && 0 <= i < |fs[f]|
      ensures DecidedDispatch(d, fs[f][i], fs[..f], inputs, answers)
    {
      assert FrontierHanded(p, fs[..f], fs[f], inputs, answers);
      DispatchIsDecided(p, d, fs[f], i, fs[..f], inputs, answers);
    }
  }
}

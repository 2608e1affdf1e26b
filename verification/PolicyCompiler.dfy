/**
 Compiling a ready decision into an executable policy, and the check every executable policy has to
 pass.

 Prompts appear by their reference and typed variables; their text is the subject of PromptTemplate.
 The reference of a stage's prompt is derived from the decision and the stage, so it is the stage's
 identifier here.
 */
module PolicyCompiler {
  import opened Basics
  import opened DependencyGraph
  import opened Planner
  import opened RoutingPlan
  import WorstCase
  import opened ValueTypes
  import Failures

  // ----- executable policies -----

  const RESULT: Id := 1
  const VALUE: Id := 2
  const TEXT: Id := 3
  const MAX_COST := 1_000_000

  datatype Kind = Llm | Tool | Code | HumanApproval | BoundedAgent

  datatype Binding = Binding(source: Id, output: Id, fromInput: bool)

  datatype Node = Node(id: Id, kind: Kind, deps: seq<Id>, inputs: map<Id, Binding>, outputs: seq<Id>, tool: Option<Id>)

  datatype VersionRef = VersionRef(id: nat, version: nat)

  datatype Workflow = Workflow(ref: VersionRef, inputs: seq<Id>, nodes: seq<Node>, tools: seq<Id>)

  datatype Budget = Budget(maxCost: int, maxCalls: nat, maxTools: nat, maxInput: nat, maxOutput: nat, timeout: nat,
      maxAttempts: nat)

  datatype Stage = Stage(
    node: Id, inputTypes: map<Id, ValueType>, outputTypes: map<Id, ValueType>, prompt: Option<VersionRef>,
    configuration: Option<nat>, fallbacks: seq<nat>, formatted: bool, operation: Option<nat>, tools: seq<Id>,
    budget: Budget, rules: seq<nat>, maxRepairs: nat, fallbackOn: set<Failures.FailureKind>)

  datatype Prompt = Prompt(ref: VersionRef, variables: map<Id, ValueType>)

  datatype Policy = Policy(plan: VersionRef, workflow: Workflow, inputTypes: map<Id, ValueType>, stages: seq<Stage>,
      prompts: seq<Prompt>, budget: Budget)

  predicate BudgetInRange(b: Budget) {
    && 0 <= b.maxCost <= MAX_COST && b.maxCalls <= 20 && b.maxTools <= 20 && 1 <= b.maxInput <= 131072
    && 1 <= b.maxOutput <= 16384 && 100 <= b.timeout <= 120000 && 1 <= b.maxAttempts <= 3
  }

  predicate StageInRange(s: Stage) {
    BudgetInRange(s.budget) && |s.fallbacks| <= 2 && |s.rules| <= 5 && s.maxRepairs <= 2
  }

  ghost predicate IsGraphOfNodes(g: Graph, nodes: seq<Node>) {
    && g.Keys == (set i | 0 <= i < |nodes| :: nodes[i].id)
    && forall i | 0 <= i < |nodes| :: g[nodes[i].id] == nodes[i].deps
  }

  ghost predicate BindingDeclared(w: Workflow, n: Node, b: Binding) {
    if b.fromInput then b.source in w.inputs && b.output == VALUE
    else b.source in n.deps && exists i ::
      0 <= i < |w.nodes| && w.nodes[i].id == b.source && b.output in w.nodes[i].outputs
  }

  ghost predicate NodeValid(w: Workflow, n: Node) {
    && n.outputs != [] && Distinct(n.outputs) && Distinct(n.deps)
    && (n.kind == Tool <==> n.tool.Some?) && (n.tool.Some? ==> n.tool.value in w.tools)
    && n.id !in n.deps
    && (forall x | x in n.inputs :: BindingDeclared(w, n, n.inputs[x]))
  }

  // What a workflow demands of its nodes, and an acyclic closed graph.
  ghost predicate WorkflowValid(w: Workflow) {
    && 1 <= |w.nodes| <= 30 && Distinct(w.inputs) && Distinct(w.tools)
    && UniqueNodes(w)
    && (forall i | 0 <= i < |w.nodes| :: NodeValid(w, w.nodes[i]))
    && exists g :: IsGraphOfNodes(g, w.nodes) && Closed(g) && Rankable(g)
  }

  // Repairs and fallbacks, pinned targets and their attempts.
  ghost predicate RecoveryFits(n: Node, s: Stage) {
    && (s.maxRepairs > 0 ==> n.kind == Llm && s.rules != [] && 1 + s.maxRepairs + |s.fallbacks| <= s.budget.maxAttempts)
    && Distinct(s.fallbacks)
    && (s.configuration.Some? ==> s.configuration.value !in s.fallbacks)
    && (s.fallbacks != [] ==> n.kind == Llm && |s.fallbacks| + 1 + s.maxRepairs <= s.budget.maxAttempts)
  }

  predicate KindFits(n: Node, s: Stage) {
    && (s.formatted ==> n.kind == Llm)
    && n.kind != BoundedAgent
    && (n.kind == Llm <==> s.prompt.Some? && s.configuration.Some?)
    && (n.kind != Llm ==> s.prompt.None? && s.configuration.None? && s.budget.maxCalls == 0)
    && (n.kind == Llm ==> s.budget.maxCalls == s.budget.maxAttempts && s.budget.maxTools == 0)
    && (n.kind == Code <==> s.operation.Some?)
    && (n.kind == Code ==> s.inputTypes == map[TEXT := Text] && s.outputTypes == map[RESULT := Text])
    && s.tools == (if n.kind == Tool && n.tool.Some? then [n.tool.value] else [])
    && s.budget.maxTools == (if n.kind == Tool then 1 else 0)
  }

  // The type a binding delivers.
  predicate Delivers(p: Policy, b: Binding, t: ValueType) {
    if b.fromInput then b.source in p.inputTypes && p.inputTypes[b.source] == t
    else
      exists i | 0 <= i < |p.stages| ::
        p.stages[i].node == b.source && b.output in p.stages[i].outputTypes && p.stages[i].outputTypes[b.output] == t
  }

  predicate TypesFit(p: Policy, n: Node, s: Stage) {
    && n.inputs != map[] && s.inputTypes.Keys == n.inputs.Keys
    && s.outputTypes.Keys == (set i | 0 <= i < |n.outputs| :: n.outputs[i])
    && forall x | x in n.inputs :: Delivers(p, n.inputs[x], s.inputTypes[x])
  }

  predicate PromptFits(p: Policy, s: Stage) {
    s.prompt.Some? ==> exists i | 0 <= i < |p.prompts| ::
      p.prompts[i].ref == s.prompt.value && p.prompts[i].variables == s.inputTypes
  }

  predicate WithinPolicy(p: Policy, s: Stage) {
    && s.budget.maxCost <= p.budget.maxCost && s.budget.maxInput <= p.budget.maxInput
    && s.budget.maxOutput <= p.budget.maxOutput && s.budget.timeout <= p.budget.timeout
  }

  ghost predicate StageFits(p: Policy, n: Node, s: Stage) {
    RecoveryFits(n, s) && KindFits(n, s) && TypesFit(p, n, s) && PromptFits(p, s) && WithinPolicy(p, s)
  }

  function CostsOf(stages: seq<Stage>): seq<int> {
    if stages == [] then [] else [stages[0].budget.maxCost] + CostsOf(stages[1..])
  }

  function CallsOf(stages: seq<Stage>): seq<int> {
    if stages == [] then [] else [stages[0].budget.maxCalls] + CallsOf(stages[1..])
  }

  function ToolsOf(stages: seq<Stage>): seq<int> {
    if stages == [] then [] else [stages[0].budget.maxTools] + ToolsOf(stages[1..])
  }

  predicate UsesPrompt(p: Policy, ref: VersionRef) {
    exists i | 0 <= i < |p.stages| :: p.stages[i].prompt == Some(ref)
  }

  predicate HasNode(w: Workflow, id: Id) {
    exists k | 0 <= k < |w.nodes| :: w.nodes[k].id == id
  }

  predicate HasStage(stages: seq<Stage>, id: Id) {
    exists i | 0 <= i < |stages| :: stages[i].node == id
  }

  ghost predicate UniqueStages(stages: seq<Stage>) { DistinctBy(stages, (s: Stage) => s.node) }

  ghost predicate OneStagePerNode(p: Policy) {
    && UniqueStages(p.stages)
    && (forall i | 0 <= i < |p.stages| :: HasNode(p.workflow, p.stages[i].node))
    && (forall k | 0 <= k < |p.workflow.nodes| :: HasStage(p.stages, p.workflow.nodes[k].id))
  }

  ghost predicate UniquePrompts(prompts: seq<Prompt>) { DistinctBy(prompts, (p: Prompt) => p.ref) }

  ghost predicate PromptsBound(p: Policy) {
    && UniquePrompts(p.prompts) && (forall i | 0 <= i < |p.prompts| :: UsesPrompt(p, p.prompts[i].ref))
  }

  predicate InBudget(p: Policy) {
    Sum(CostsOf(p.stages)) <= p.budget.maxCost && Sum(CallsOf(p.stages)) <= p.budget.maxCalls
        && Sum(ToolsOf(p.stages)) <= p.budget.maxTools
  }

  ghost predicate AllFit(p: Policy) {
    forall i, k | 0 <= i < |p.stages| && 0 <= k < |p.workflow.nodes| && p.workflow.nodes[k].id == p.stages[i].node ::
      StageFits(p, p.workflow.nodes[k], p.stages[i])
  }

  predicate InputsTyped(p: Policy) {
    p.inputTypes.Keys == (set i | 0 <= i < |p.workflow.inputs| :: p.workflow.inputs[i])
  }

  // The demands on an executable policy: one stage per node that fits it, no prompt unused, and room
  // in the policy's budget for all stages together.
  ghost predicate ExecutableBindings(p: Policy) {
    p.workflow.ref == p.plan && OneStagePerNode(p) && InputsTyped(p) && PromptsBound(p) && AllFit(p) && InBudget(p)
  }

  ghost predicate PolicyValid(p: Policy) {
    && WorkflowValid(p.workflow) && ExecutableBindings(p)
    && 1 <= |p.stages| <= 30 && |p.prompts| <= 30 && BudgetInRange(p.budget)
    && forall i | 0 <= i < |p.stages| :: StageInRange(p.stages[i])
  }

  function NodeIds(nodes: seq<Node>): (ids: seq<Id>)
    ensures |ids| == |nodes| && forall i | 0 <= i < |nodes| :: ids[i] == nodes[i].id
  {
    seq(|nodes|, i requires 0 <= i < |nodes| => nodes[i].id)
  }

  function StageIds(stages: seq<Stage>): (ids: seq<Id>)
    ensures |ids| == |stages| && forall i | 0 <= i < |stages| :: ids[i] == stages[i].node
  {
    seq(|stages|, i requires 0 <= i < |stages| => stages[i].node)
  }

  function PromptRefs(prompts: seq<Prompt>): (refs: seq<VersionRef>)
    ensures |refs| == |prompts| && forall i | 0 <= i < |prompts| :: refs[i] == prompts[i].ref
  {
    seq(|prompts|, i requires 0 <= i < |prompts| => prompts[i].ref)
  }

  lemma SameIdSets(p: Policy)
    ensures (ToSet(StageIds(p.stages)) == ToSet(NodeIds(p.workflow.nodes))) <==>
            && (forall i | 0 <= i < |p.stages| :: HasNode(p.workflow, p.stages[i].node))
            && (forall k | 0 <= k < |p.workflow.nodes| :: HasStage(p.stages, p.workflow.nodes[k].id))
  {
    var a, b := StageIds(p.stages), NodeIds(p.workflow.nodes);
    if ToSet(a) == ToSet(b) {
      forall i | 0 <= i < |p.stages|
        ensures HasNode(p.workflow, p.stages[i].node)
      {
        assert a[i] in ToSet(a);
      }
      forall k | 0 <= k < |p.workflow.nodes|
        ensures HasStage(p.stages, p.workflow.nodes[k].id)
      {
        assert b[k] in ToSet(b);
      }
    }
  }

  method NodeNamed(nodes: seq<Node>, id: Id) returns (k: nat)
    requires exists i :: 0 <= i < |nodes| && nodes[i].id == id
    ensures k < |nodes| && nodes[k].id == id
  {
    k := 0;
    while nodes[k].id != id
      invariant k < |nodes| && forall i | 0 <= i < k :: nodes[i].id != id
      decreases |nodes| - k
    {
      k := k + 1;
    }
  }

  // The type at the source of a binding, found in the policy's inputs or in the stage of that name.
  method TypeAt(p: Policy, b: Binding) returns (t: Option<ValueType>)
    requires UniqueStages(p.stages)
    ensures forall u :: t == Some(u) <==> Delivers(p, b, u)
  {
    if b.fromInput {
      return if b.source in p.inputTypes then Some(p.inputTypes[b.source]) else None;
    }
    for i := 0 to |p.stages|
      invariant forall j | 0 <= j < i :: p.stages[j].node != b.source
    {
      if p.stages[i].node == b.source {
        var types := p.stages[i].outputTypes;
        return if b.output in types then Some(types[b.output]) else None;
      }
    }
    t := None;
  }

  method BindingsFit(p: Policy, n: Node, s: Stage) returns (ok: bool)
    requires UniqueStages(p.stages) && s.inputTypes.Keys == n.inputs.Keys
    ensures ok <==> forall x | x in n.inputs :: Delivers(p, n.inputs[x], s.inputTypes[x])
  {
    hide Delivers;
    var left := n.inputs.Keys;
    while left != {}
      invariant left <= n.inputs.Keys
      invariant forall x | x in n.inputs && x !in left :: Delivers(p, n.inputs[x], s.inputTypes[x])
      decreases |left|
    {
      var x :| x in left;
      var t := TypeAt(p, n.inputs[x]);
      if t != Some(s.inputTypes[x]) {
        return false;
      }
      left := left - {x};
    }
    ok := true;
  }

  method PromptVariables(p: Policy, ref: VersionRef) returns (variables: Option<map<Id, ValueType>>)
    requires UniquePrompts(p.prompts)
    ensures forall v :: variables == Some(v) <==>
      exists i | 0 <= i < |p.prompts| :: p.prompts[i].ref == ref && p.prompts[i].variables == v
  {
    for i := 0 to |p.prompts|
      invariant forall j | 0 <= j < i :: p.prompts[j].ref != ref
    {
      if p.prompts[i].ref == ref {
        return Some(p.prompts[i].variables);
      }
    }
    variables := None;
  }

  // The guards on repairs and fallbacks; duplicates show in the size of a set.
  method RecoveryChecked(n: Node, s: Stage) returns (ok: bool)
    ensures ok <==> RecoveryFits(n, s)
  {
    ToSetSize(s.fallbacks);
    if s.maxRepairs > 0
        && (n.kind != Llm || s.rules == [] || 1 + s.maxRepairs + |s.fallbacks| > s.budget.maxAttempts) {
      return false;
    }
    if |ToSet(s.fallbacks)| != |s.fallbacks| || (s.configuration.Some? && s.configuration.value in s.fallbacks) {
      return false;
    }
    ok := s.fallbacks == [] || (n.kind == Llm && |s.fallbacks| + 1 + s.maxRepairs <= s.budget.maxAttempts);
  }

  // The guards that depend on the kind of the node, apart from the prompt's variables.
  method KindChecked(n: Node, s: Stage) returns (ok: bool)
    ensures ok <==> KindFits(n, s)
  {
    if (s.formatted && n.kind != Llm) || n.kind == BoundedAgent {
      return false;
    }
    if (n.kind == Llm) != (s.prompt.Some? && s.configuration.Some?) {
      return false;
    }
    if n.kind != Llm && (s.prompt.Some? || s.configuration.Some?) {
      return false;
    }
    if n.kind == Llm {
      if s.budget.maxCalls != s.budget.maxAttempts || s.budget.maxTools != 0 {
        return false;
      }
    } else if s.budget.maxCalls != 0 {
      return false;
    }
    if (n.kind == Code) != s.operation.Some? {
      return false;
    }
    if n.kind == Code && (s.inputTypes != map[TEXT := Text] || s.outputTypes != map[RESULT := Text]) {
      return false;
    }
    var expected := if n.kind == Tool && n.tool.Some? then [n.tool.value] else [];
    ok := s.tools == expected && s.budget.maxTools == if n.kind == Tool then 1 else 0;
  }

  // One stage against its node, guard by guard.
  method FitsStage(p: Policy, n: Node, s: Stage) returns (ok: bool)
    requires UniqueStages(p.stages) && UniquePrompts(p.prompts)
    ensures ok <==> StageFits(p, n, s)
  {
    hide RecoveryFits, KindFits, Delivers, UniqueStages, UniquePrompts;
    var sound := RecoveryChecked(n, s);
    if !sound || n.inputs == map[] || s.inputTypes.Keys != n.inputs.Keys || s.outputTypes.Keys != ToSet(n.outputs) {
      return false;
    }
    var typed := BindingsFit(p, n, s);
    var fitting := KindChecked(n, s);
    if !typed || !fitting {
      return false;
    }
    if s.prompt.Some? {
      var variables := PromptVariables(p, s.prompt.value);
      if variables != Some(s.inputTypes) {
        return false;
      }
    }
    ok := s.budget.maxCost <= p.budget.maxCost && s.budget.maxInput <= p.budget.maxInput
          && s.budget.maxOutput <= p.budget.maxOutput && s.budget.timeout <= p.budget.timeout;
  }

  ghost predicate FitSoFar(p: Policy, n: nat) {
    forall i, k | 0 <= i < n && i < |p.stages| && 0 <= k < |p.workflow.nodes|
        && p.workflow.nodes[k].id == p.stages[i].node ::
      StageFits(p, p.workflow.nodes[k], p.stages[i])
  }

  ghost predicate UniqueNodes(w: Workflow) { DistinctBy(w.nodes, (n: Node) => n.id) }

  lemma FitsNext(p: Policy, n: nat, k: nat)
    requires UniqueNodes(p.workflow) && FitSoFar(p, n) && n < |p.stages|
    requires k < |p.workflow.nodes| && p.workflow.nodes[k].id == p.stages[n].node
    ensures StageFits(p, p.workflow.nodes[k], p.stages[n]) <==> FitSoFar(p, n + 1)
  {
    hide StageFits;
  }

  lemma FitFails(p: Policy, n: nat)
    requires n < |p.stages| && !FitSoFar(p, n + 1)
    ensures !AllFit(p)
  {
    hide StageFits;
  }

  // The stages one by one, and the prompts they use.
  method CheckStages(p: Policy) returns (ok: bool, used: set<VersionRef>)
    requires UniqueNodes(p.workflow) && OneStagePerNode(p) && UniquePrompts(p.prompts)
    ensures ok <==> AllFit(p)
    ensures ok ==> used <= ToSet(PromptRefs(p.prompts)) && forall ref :: ref in used <==> UsesPrompt(p, ref)
  {
    hide StageFits, FitSoFar, UniqueNodes, AllFit, UniquePrompts;
    used := {};
    NothingChecked(p);
    for i := 0 to |p.stages|
      invariant FitSoFar(p, i) && used <= ToSet(PromptRefs(p.prompts))
      invariant forall ref :: ref in used <==> exists j | 0 <= j < i :: p.stages[j].prompt == Some(ref)
    {
      assert HasNode(p.workflow, p.stages[i].node);
      var k := NodeNamed(p.workflow.nodes, p.stages[i].node);
      FitsNext(p, i, k);
      var fits := FitsStage(p, p.workflow.nodes[k], p.stages[i]);
      if !fits {
        FitFails(p, i);
        return false, used;
      }
      PromptIsBound(p, p.workflow.nodes[k], p.stages[i]);
      if p.stages[i].prompt.Some? {
        used := used + {p.stages[i].prompt.value};
      }
    }
    AllChecked(p);
    ok := true;
  }

  lemma NothingChecked(p: Policy)
    ensures FitSoFar(p, 0)
  {
  }

  lemma AllChecked(p: Policy)
    ensures FitSoFar(p, |p.stages|) <==> AllFit(p)
  {
    hide StageFits;
  }

  /** The validator of executable policies decides exactly the demands above; the workflow it looks at
      has been validated before. */
  method Validate(p: Policy) returns (ok: bool)
    requires UniqueNodes(p.workflow)
    ensures ok <==> ExecutableBindings(p)
  {
    hide AllFit, UniqueNodes;
    var nodes, stages, prompts := ToSet(NodeIds(p.workflow.nodes)), ToSet(StageIds(p.stages)),
        ToSet(PromptRefs(p.prompts));
    ToSetSize(StageIds(p.stages));
    ToSetSize(PromptRefs(p.prompts));
    SameIdSets(p);
    if p.workflow.ref != p.plan {
      return false;
    }
    if |stages| != |p.stages| || stages != nodes {
      return false;
    }
    if |prompts| != |p.prompts| || !InputsTyped(p) {
      return false;
    }
    assert OneStagePerNode(p);
    var used;
    ok, used := CheckStages(p);
    if !ok || !InBudget(p) {
      return false;
    }
    ok := used == prompts;
    UsedAll(p, used);
  }

  lemma PromptIsBound(p: Policy, n: Node, s: Stage)
    requires StageFits(p, n, s)
    ensures s.prompt.Some? ==> s.prompt.value in ToSet(PromptRefs(p.prompts))
  {
    if s.prompt.Some? {
      var i :| 0 <= i < |p.prompts| && p.prompts[i].ref == s.prompt.value;
      assert PromptRefs(p.prompts)[i] == s.prompt.value;
    }
  }

  lemma UsedAll(p: Policy, used: set<VersionRef>)
    requires forall ref :: ref in used <==> UsesPrompt(p, ref)
    requires used <= ToSet(PromptRefs(p.prompts))
    ensures used == ToSet(PromptRefs(p.prompts)) <==> forall i | 0 <= i < |p.prompts| :: UsesPrompt(p, p.prompts[i].ref)
  {
    var refs := PromptRefs(p.prompts);
    if used == ToSet(refs) {
      forall i | 0 <= i < |p.prompts|
        ensures UsesPrompt(p, p.prompts[i].ref)
      {
        assert refs[i] in ToSet(refs);
      }
    }
  }

  // ----- compiling -----

  // Every dependency's result, and always the original input.
  function Bindings(deps: seq<Id>): map<Id, Binding> {
    map x | x in [INPUT] + deps :: if x == INPUT then Binding(INPUT, VALUE, true) else Binding(x, RESULT, false)
  }

  function Types(bindings: map<Id, Binding>): map<Id, ValueType> {
    map x | x in bindings :: Text
  }

  function CompiledNode(s: StageDecision): Node {
    Node(s.node, Llm, s.deps, Bindings(s.deps), [RESULT], None)
  }

  function CompiledPrompt(s: StageDecision): Prompt {
    Prompt(VersionRef(s.node, 1), Types(Bindings(s.deps)))
  }

  // After these failures a compiled stage tries its next target.
  const FALL_BACK_ON := {
    Failures.QualityValidation, Failures.InvalidOutput, Failures.ProviderFailure, Failures.RateLimit,
    Failures.Timeout, Failures.CircuitOpen}

  // None where a pinned target has no complete price.
  function Amount(s: StageDecision, repairs: nat): Option<int> {
    var pinned := Pinned(s);
    if pinned == [] then Some(0) else if Costed(pinned) then Some(WorstCost(pinned, repairs)) else None
  }

  function Timeout(profile: Profile): nat {
    if profile.maxLatency.Some? then profile.maxLatency.value else 120000
  }

  function Tokens(tokens: Option<nat>): nat { if tokens.Some? then tokens.value else 0 }

  function CompiledStage(s: StageDecision, spec: Spec, profile: Profile): Stage {
    var attempts := 1 + |s.fallbacks| + spec.maxRepairs;
    var amount := Amount(s, spec.maxRepairs);
    Stage(s.node, Types(Bindings(s.deps)), map[RESULT := Text], Some(VersionRef(s.node, 1)), s.selected, s.fallbacks,
          false, None, [],
          Budget(if amount.Some? then amount.value else 0, attempts, 0,
                 Tokens(profile.inputTokens), Tokens(profile.outputTokens),
                 Timeout(profile), attempts),
          spec.validators, spec.maxRepairs, FALL_BACK_ON)
  }

  // JSON delivery on the last stage only.
  function Delivered(stages: seq<Stage>, json: bool): seq<Stage> {
    if json && stages != [] then
      stages[|stages| - 1 := stages[|stages| - 1].(formatted := true, outputTypes := map[RESULT := Json])]
    else stages
  }

  function MostAttempts(stages: seq<Stage>): nat {
    if stages == [] then 0
    else
      var rest := MostAttempts(stages[1..]);
      if stages[0].budget.maxAttempts > rest then stages[0].budget.maxAttempts else rest
  }

  function Nodes(stages: seq<StageDecision>): seq<Node> {
    if stages == [] then [] else [CompiledNode(stages[0])] + Nodes(stages[1..])
  }

  function Prompts(stages: seq<StageDecision>): seq<Prompt> {
    if stages == [] then [] else [CompiledPrompt(stages[0])] + Prompts(stages[1..])
  }

  function Stages(stages: seq<StageDecision>, specs: seq<Spec>, profile: Profile): seq<Stage>
    requires |stages| == |specs|
  {
    if stages == [] then []
    else [CompiledStage(stages[0], specs[0], profile)] + Stages(stages[1..], specs[1..], profile)
  }

  // The policy that is built from a decision before it is checked.
  function Draft(d: Decision, profile: Profile, planId: nat): Policy
    requires |d.stages| == |d.order|
  {
    var stages := Stages(d.stages, d.order, profile);
    Policy(
      VersionRef(planId, 1),
      Workflow(VersionRef(planId, 1), [INPUT], Nodes(d.stages), []),
      map[INPUT := Text],
      Delivered(stages, profile.json),
      Prompts(d.stages),
      Budget(Sum(CostsOf(stages)), d.calls, 0, Tokens(profile.inputTokens), Tokens(profile.outputTokens),
          Timeout(profile),
             MostAttempts(stages)))
  }

  // Nothing stops the source from building the draft: the decision is ready, the token estimates are
  // there, and every pinned target is priced.
  predicate Compilable(d: Decision, profile: Profile) {
    && |d.stages| == |d.order|
    && d.ready && profile.inputTokens.Some? && profile.outputTokens.Some?
    && forall i | 0 <= i < |d.stages| :: Amount(d.stages[i], d.order[i].maxRepairs).Some?
  }

  lemma {:induction false} PinnedHolds(cs: seq<Candidate>, s: StageDecision)
    ensures forall c :: c in PinnedAmong(cs, s) <==> c in cs && IsPinned(s, c.config)
    decreases |cs|
  {
    if cs != [] {
      PinnedHolds(cs[1..], s);
      assert cs == [cs[0]] + cs[1..];
    }
  }

  // The selected deployment or a fallback.
  predicate MayRun(s: StageDecision, c: Candidate) {
    c in s.candidates && (s.selected == Some(c.config) || c.config in s.fallbacks)
  }

  /** A decision compiles exactly if it is ready, both token estimates are there, and every deployment that a
      stage may run has a known price. */
  lemma CompilesExactly(d: Decision, profile: Profile)
    requires |d.stages| == |d.order|
    ensures Compilable(d, profile) <==>
      && d.ready && profile.inputTokens.Some? && profile.outputTokens.Some?
      && forall i, c | 0 <= i < |d.stages| && MayRun(d.stages[i], c) :: c.cost.Some?
  {
    forall i | 0 <= i < |d.stages|
      ensures Amount(d.stages[i], d.order[i].maxRepairs).Some? <==> forall c | MayRun(d.stages[i], c) :: c.cost.Some?
    {
      PricedExactly(d.stages[i], d.order[i].maxRepairs);
    }
    hide Amount, MayRun;
  }

  lemma PricedExactly(s: StageDecision, repairs: nat)
    ensures Amount(s, repairs).Some? <==> forall c | MayRun(s, c) :: c.cost.Some?
  {
    hide WorstCost;
    PinnedHolds(s.candidates, s);
    var pinned := Pinned(s);
    forall c
      ensures c in pinned <==> MayRun(s, c)
    {
    }
    if forall c | MayRun(s, c) :: c.cost.Some? {
      forall i | 0 <= i < |pinned|
        ensures pinned[i].cost.Some?
      {
        assert pinned[i] in pinned;
      }
    }
    if Costed(pinned) {
      forall c | c in pinned
        ensures c.cost.Some?
      {
        var i :| 0 <= i < |pinned| && pinned[i] == c;
      }
    }
  }

  method BuildPolicy(d: Decision, profile: Profile, planId: nat) returns (policy: Option<Policy>)
    requires |d.stages| == |d.order| && (d.ready ==> d.stages != [])
    ensures policy == if Compilable(d, profile) then Some(Draft(d, profile, planId)) else None
  {
    hide Amount, CompiledNode, CompiledPrompt, CompiledStage, CostsOf, MostAttempts, Nodes, Prompts, Stages;
    if !d.ready || profile.inputTokens.None? || profile.outputTokens.None? {
      return None;
    }
    var nodes: seq<Node>, prompts: seq<Prompt>, stages: seq<Stage> := [], [], [];
    for i := 0 to |d.stages|
      invariant |nodes| == i && |prompts| == i && |stages| == i
      invariant forall j | 0 <= j < i :: nodes[j] == CompiledNode(d.stages[j])
      invariant forall j | 0 <= j < i :: prompts[j] == CompiledPrompt(d.stages[j])
      invariant forall j | 0 <= j < i :: stages[j] == CompiledStage(d.stages[j], d.order[j], profile)
      invariant forall j | 0 <= j < i :: Amount(d.stages[j], d.order[j].maxRepairs).Some?
    {
      var s, spec := d.stages[i], d.order[i];
      if Amount(s, spec.maxRepairs).None? {
        return None;
      }
      nodes := nodes + [CompiledNode(s)];
      prompts := prompts + [CompiledPrompt(s)];
      stages := stages + [CompiledStage(s, spec, profile)];
    }
    Built(d, profile, nodes, prompts, stages);
    var budget := Budget(Sum(CostsOf(stages)), d.calls, 0, profile.inputTokens.value, profile.outputTokens.value,
        Timeout(profile), MostAttempts(stages));
    if profile.json {
      var last := |stages| - 1;
      stages := stages[last := stages[last].(formatted := true, outputTypes := map[RESULT := Json])];
    }
    policy := Some(Policy(VersionRef(planId, 1), Workflow(VersionRef(planId, 1), [INPUT], nodes, []),
        map[INPUT := Text], stages, prompts, budget));
  }

  lemma Built(d: Decision, profile: Profile, nodes: seq<Node>, prompts: seq<Prompt>, stages: seq<Stage>)
    requires |nodes| == |prompts| == |stages| == |d.stages| == |d.order|
    requires forall j | 0 <= j < |d.stages| ::
               && nodes[j] == CompiledNode(d.stages[j]) && prompts[j] == CompiledPrompt(d.stages[j])
               && stages[j] == CompiledStage(d.stages[j], d.order[j], profile)
    ensures nodes == Nodes(d.stages) && prompts == Prompts(d.stages) && stages == Stages(d.stages, d.order, profile)
  {
    hide CompiledNode, CompiledPrompt, CompiledStage;
    Indexed(d.stages, d.order, profile);
  }

  lemma {:induction false} Indexed(stages: seq<StageDecision>, specs: seq<Spec>, profile: Profile)
    requires |stages| == |specs|
    ensures |Nodes(stages)| == |stages| && |Prompts(stages)| == |stages| && |Stages(stages, specs, profile)| == |stages|
    ensures forall i | 0 <= i < |stages| ::
              && Nodes(stages)[i] == CompiledNode(stages[i]) && Prompts(stages)[i] == CompiledPrompt(stages[i])
              && Stages(stages, specs, profile)[i] == CompiledStage(stages[i], specs[i], profile)
    decreases |stages|
  {
    hide CompiledNode, CompiledPrompt, CompiledStage;
    if stages != [] {
      Indexed(stages[1..], specs[1..], profile);
      assert forall i | 0 < i < |stages| :: stages[i] == stages[1..][i - 1] && specs[i] == specs[1..][i - 1];
    }
  }

  // ----- a ready decision -----

  ghost predicate ValidProfile(p: Profile) {
    && 1 <= p.maxAttempts <= 3 && 1 <= p.maxCalls <= 20
    && (p.inputTokens.Some? ==> 1 <= p.inputTokens.value <= 131072)
    && (p.outputTokens.Some? ==> 1 <= p.outputTokens.value <= 16384)
    && (p.maxCost.Some? ==> p.maxCost.value <= MAX_COST)
    && (p.maxLatency.Some? ==> 100 <= p.maxLatency.value <= 120000)
  }

  // Selection answers for this profile: a forecast needs the token estimates.
  ghost predicate ChoiceFor(profile: Profile, c: Choice) {
    && ValidChoice(c)
    && forall i | 0 <= i < |c.candidates| && c.candidates[i].cost.Some? ::
        profile.inputTokens.Some? && profile.outputTokens.Some?
  }

  // What a stage of a ready decision is like.
  ghost predicate StageReady(s: StageDecision, spec: Spec, profile: Profile) {
    && s.node == spec.id && s.deps == spec.deps && s.selected.Some?
    && Distinct(s.fallbacks) && s.selected.value !in s.fallbacks
    && Pinned(s) != [] && Costed(Pinned(s)) && Priced(Pinned(s)) && |Pinned(s)| == 1 + |s.fallbacks|
    && 1 + |s.fallbacks| + spec.maxRepairs <= profile.maxAttempts
  }

  lemma DecidedStage(spec: Spec, choice: Choice, profile: Profile)
    requires ChoiceFor(profile, choice) && choice.selected.Some? && 1 + spec.maxRepairs <= profile.maxAttempts
    requires Costed(Pinned(Decide(spec, choice, profile.maxAttempts)))
    ensures StageReady(Decide(spec, choice, profile.maxAttempts), spec, profile)
    ensures profile.inputTokens.Some? && profile.outputTokens.Some?
  {
    var s := Decide(spec, choice, profile.maxAttempts);
    FallbacksEscalate(spec, choice, profile.maxAttempts);
    PinnedOnce(spec, choice, profile.maxAttempts);
    PinnedFrom(choice.candidates, s);
    var c := Pinned(s)[0];
    assert c in Pinned(s) && c.cost.Some?;
    var k :| 0 <= k < |choice.candidates| && choice.candidates[k] == c;
  }

  ghost predicate AllReady(d: Decision, profile: Profile) {
    && |d.stages| == |d.order| && d.stages != []
    && forall i | 0 <= i < |d.stages| :: StageReady(d.stages[i], d.order[i], profile)
  }

  lemma ReadyStages(d: Decision, specs: seq<Spec>, g: Graph, profile: Profile, options: Options, choose: Selection)
    requires ValidPlan(specs, g) && IsPlan(d, specs, g, profile, options, choose) && d.ready
    requires forall i | 0 <= i < |specs| :: ChoiceFor(profile, choose(specs[i]))
    ensures AllReady(d, profile) && profile.inputTokens.Some? && profile.outputTokens.Some?
    ensures d.cost == Some(WorstCosts(d.stages, d.order)) && d.calls == AllCalls(d.stages, d.order) <= profile.maxCalls
    ensures profile.maxCost.Some? ==> d.cost.value <= profile.maxCost.value
  {
    OrderedPlan(specs, g);
    forall i | 0 <= i < |d.order|
      ensures ChoiceFor(profile, choose(d.order[i])) && Pinned(d.stages[i]) != []
    {
      assert d.order[i] in specs;
      var j :| 0 <= j < |specs| && specs[j] == d.order[i];
      PinnedOnce(d.order[i], choose(d.order[i]), profile.maxAttempts);
    }
    hide Pinned, Costed, InOrder, Waves, ChoiceFor, StageReady, Decide;
    TotalIsWorst(d.stages, d.order);
    forall i | 0 <= i < |d.order|
      ensures StageReady(d.stages[i], d.order[i], profile) && profile.inputTokens.Some? && profile.outputTokens.Some?
    {
      SelectedIsChoice(d.order[i], choose(d.order[i]), profile.maxAttempts);
      DecidedStage(d.order[i], choose(d.order[i]), profile);
    }
    assert StageReady(d.stages[0], d.order[0], profile);
  }

  lemma SelectedIsChoice(spec: Spec, choice: Choice, maxAttempts: nat)
    ensures Decide(spec, choice, maxAttempts).selected == choice.selected
  {
  }

  // ----- sums -----

  lemma AmountReady(s: StageDecision, spec: Spec, profile: Profile)
    requires StageReady(s, spec, profile)
    ensures Amount(s, spec.maxRepairs) == Some(WorstCost(Pinned(s), spec.maxRepairs))
    ensures WorstCost(Pinned(s), spec.maxRepairs) >= 0
  {
    var pinned := Pinned(s);
    SumCeilNonnegative(pinned);
    DearestIsDearest(pinned);
  }

  lemma {:induction false} SumsAgree(stages: seq<StageDecision>, specs: seq<Spec>, profile: Profile)
    requires |stages| == |specs| && forall i | 0 <= i < |stages| :: StageReady(stages[i], specs[i], profile)
    requires forall i | 0 <= i < |stages| :: Pinned(stages[i]) != []
    ensures
      var compiled := Stages(stages, specs, profile);
      && Sum(CostsOf(compiled)) == WorstCosts(stages, specs)
      && Sum(CallsOf(compiled)) == AllCalls(stages, specs)
      && Sum(ToolsOf(compiled)) == 0
    decreases |stages|
  {
    hide StageReady, Amount, Pinned, WorstCost;
    if stages != [] {
      ReadyCounts(stages[0], specs[0], profile);
      AmountReady(stages[0], specs[0], profile);
      forall i | 0 <= i < |stages[1..]|
        ensures StageReady(stages[1..][i], specs[1..][i], profile)
      {
        assert StageReady(stages[i + 1], specs[i + 1], profile);
      }
      SumsAgree(stages[1..], specs[1..], profile);
      var compiled := Stages(stages, specs, profile);
      assert compiled[1..] == Stages(stages[1..], specs[1..], profile);
      SumCons(compiled);
    }
  }

  lemma SumCons(stages: seq<Stage>)
    requires stages != []
    ensures Sum(CostsOf(stages)) == stages[0].budget.maxCost + Sum(CostsOf(stages[1..]))
    ensures Sum(CallsOf(stages)) == stages[0].budget.maxCalls + Sum(CallsOf(stages[1..]))
    ensures Sum(ToolsOf(stages)) == stages[0].budget.maxTools + Sum(ToolsOf(stages[1..]))
  {
    assert CostsOf(stages)[1..] == CostsOf(stages[1..]);
    assert CallsOf(stages)[1..] == CallsOf(stages[1..]);
    assert ToolsOf(stages)[1..] == ToolsOf(stages[1..]);
  }

  lemma ReadyCounts(s: StageDecision, spec: Spec, profile: Profile)
    requires StageReady(s, spec, profile)
    ensures Pinned(s) != [] && |Pinned(s)| + spec.maxRepairs ==
        1 + |s.fallbacks| + spec.maxRepairs <= profile.maxAttempts
  {
  }

  lemma {:induction false} SameBudgets(a: seq<Stage>, b: seq<Stage>)
    requires |a| == |b| && forall i | 0 <= i < |a| :: a[i].budget == b[i].budget
    ensures CostsOf(a) == CostsOf(b) && CallsOf(a) == CallsOf(b) && ToolsOf(a) == ToolsOf(b)
    decreases |a|
  {
    if a != [] {
      SameBudgets(a[1..], b[1..]);
    }
  }

  lemma {:induction false} PartOfSum(stages: seq<Stage>, i: nat)
    requires i < |stages| && forall j | 0 <= j < |stages| :: stages[j].budget.maxCost >= 0
    ensures 0 <= stages[i].budget.maxCost <= Sum(CostsOf(stages))
    decreases |stages|
  {
    SumCons(stages);
    if i > 0 {
      PartOfSum(stages[1..], i - 1);
    } else if |stages| > 1 {
      PartOfSum(stages[1..], 0);
    }
  }

  lemma {:induction false} MostIsMost(stages: seq<Stage>)
    requires stages != []
    ensures exists i :: 0 <= i < |stages| && stages[i].budget.maxAttempts == MostAttempts(stages)
    decreases |stages|
  {
    if |stages| > 1 {
      MostIsMost(stages[1..]);
      if MostAttempts(stages) != stages[0].budget.maxAttempts {
        var i :| 0 <= i < |stages[1..]| && stages[1..][i].budget.maxAttempts == MostAttempts(stages[1..]);
        assert stages[i + 1].budget.maxAttempts == MostAttempts(stages);
      } else {
        assert stages[0].budget.maxAttempts == MostAttempts(stages);
      }
    } else {
      assert MostAttempts(stages[1..]) == 0;
      assert stages[0].budget.maxAttempts == MostAttempts(stages);
    }
  }

  // ----- the compiled policy -----

  // What is known of the stages in order: dependencies come first, and none is the last one.
  ghost predicate InDependencyOrder(order: seq<Spec>) {
    && UniqueIds(order)
    && (forall i | 0 <= i < |order| :: order[i].id != INPUT && INPUT !in order[i].deps && Distinct(order[i].deps)
         && order[i].maxRepairs <= 2 && |order[i].validators| <= 5
             && (order[i].maxRepairs > 0 ==> order[i].validators != []))
    && (forall i, x | 0 <= i < |order| && x in order[i].deps :: exists j :: 0 <= j < i && order[j].id == x)
  }

  lemma PlanIsInOrder(specs: seq<Spec>, g: Graph)
    requires ValidPlan(specs, g)
    ensures InDependencyOrder(InOrder(specs)) && |InOrder(specs)| == |specs|
  {
    hide InOrder, Waves, Layers, Rankable, Closed;
    var order := InOrder(specs);
    OrderAndWaves(specs, g);
    assert |multiset(order)| == |order| && |multiset(specs)| == |specs|;
    DependenciesBefore(specs, order);
    forall i | 0 <= i < |order|
      ensures order[i].id != INPUT && INPUT !in order[i].deps && Distinct(order[i].deps)
      ensures order[i].maxRepairs <= 2 && |order[i].validators| <= 5
          && (order[i].maxRepairs > 0 ==> order[i].validators != [])
    {
      assert order[i] in specs;
      var k :| 0 <= k < |specs| && specs[k] == order[i];
      InputIsNoStage(specs, g, k);
    }
  }

  lemma DependenciesBefore(specs: seq<Spec>, order: seq<Spec>)
    requires Respects(specs, order)
    ensures forall i, x | 0 <= i < |order| && x in order[i].deps :: exists j :: 0 <= j < i && order[j].id == x
  {
    forall i, x | 0 <= i < |order| && x in order[i].deps
      ensures exists j :: 0 <= j < i && order[j].id == x
    {
      var j :| 0 <= j < |order[..i]| && order[..i][j].id == x;
      assert order[j].id == x;
    }
  }

  lemma InputIsNoStage(specs: seq<Spec>, g: Graph, k: nat)
    requires ValidPlan(specs, g) && k < |specs|
    ensures INPUT !in specs[k].deps
  {
    assert INPUT !in IdSet(specs);
    assert specs[k].id in g && g[specs[k].id] == specs[k].deps;
  }

  // Everything the checks below need to know of a decision.
  ghost predicate Sound(d: Decision, g: Graph, profile: Profile) {
    && ValidProfile(profile) && profile.inputTokens.Some? && profile.outputTokens.Some?
    && AllReady(d, profile) && InDependencyOrder(d.order) && IsGraphOf(g, d.order) && Closed(g) && Rankable(g)
    && |d.order| <= 8 && d.calls == AllCalls(d.stages, d.order) <= 20
  }

  lemma DraftParts(d: Decision, profile: Profile, planId: nat)
    requires |d.stages| == |d.order|
    ensures
      var p, stages := Draft(d, profile, planId), Stages(d.stages, d.order, profile);
      && p.stages == Delivered(stages, profile.json)
      && p.workflow.nodes == Nodes(d.stages) && p.prompts == Prompts(d.stages) && p.inputTypes == map[INPUT := Text]
      && p.budget == Budget(Sum(CostsOf(stages)), d.calls, 0, Tokens(profile.inputTokens),
                            Tokens(profile.outputTokens), Timeout(profile), MostAttempts(stages))
  {
    hide Stages, Nodes, Prompts, Delivered, CostsOf, MostAttempts, Sum, Tokens, Timeout;
  }

  // Only the last stage's output may be JSON.
  lemma DeliveredAt(stages: seq<Stage>, json: bool, i: nat)
    requires i < |stages| && !stages[i].formatted && stages[i].outputTypes == map[RESULT := Text]
    ensures
      var s := Delivered(stages, json);
      && |s| == |stages| && s[i].(formatted := false, outputTypes := map[RESULT := Text]) == stages[i]
      && s[i].outputTypes.Keys == {RESULT} && (i < |stages| - 1 ==> s[i].outputTypes == map[RESULT := Text])
  {
  }

  lemma CompiledText(s: StageDecision, spec: Spec, profile: Profile)
    ensures
      var stage := CompiledStage(s, spec, profile);
      !stage.formatted && stage.outputTypes == map[RESULT := Text]
  {
    hide Types, Bindings, Amount;
  }

  // The i-th stage, node and prompt of the draft.
  lemma DraftAt(d: Decision, profile: Profile, planId: nat, i: nat)
    requires |d.stages| == |d.order| && i < |d.stages|
    ensures
      var p, s := Draft(d, profile, planId), d.stages[i];
      && |p.stages| == |p.workflow.nodes| == |p.prompts| == |d.stages|
      && p.workflow.nodes[i] == CompiledNode(s) && p.prompts[i] == CompiledPrompt(s)
      && p.stages[i].(formatted := false, outputTypes := map[RESULT := Text]) == CompiledStage(s, d.order[i], profile)
      && p.stages[i].outputTypes.Keys == {RESULT}
      && (i < |d.stages| - 1 ==> p.stages[i].outputTypes == map[RESULT := Text])
  {
    hide CompiledNode, CompiledPrompt, CompiledStage, Draft, Delivered, Stages, Nodes, Prompts;
    var stages := Stages(d.stages, d.order, profile);
    DraftParts(d, profile, planId);
    Indexed(d.stages, d.order, profile);
    CompiledText(d.stages[i], d.order[i], profile);
    DeliveredAt(stages, profile.json, i);
  }

  lemma DraftSize(d: Decision, profile: Profile, planId: nat)
    requires |d.stages| == |d.order|
    ensures
      var p := Draft(d, profile, planId);
      |p.stages| == |p.workflow.nodes| == |p.prompts| == |d.stages|
  {
    Indexed(d.stages, d.order, profile);
  }

  lemma ReadyBudget(s: StageDecision, spec: Spec, profile: Profile)
    requires ValidProfile(profile) && profile.inputTokens.Some? && profile.outputTokens.Some?
        && StageReady(s, spec, profile)
    ensures
      var b := CompiledStage(s, spec, profile).budget;
      && b.maxCost == WorstCost(Pinned(s), spec.maxRepairs) >= 0
      && b.maxCalls == b.maxAttempts == 1 + |s.fallbacks| + spec.maxRepairs <= profile.maxAttempts <= 3
      && b.maxTools == 0 && 1 <= b.maxInput <= 131072 && 1 <= b.maxOutput <= 16384 && 100 <= b.timeout <= 120000
  {
    AmountReady(s, spec, profile);
  }

  lemma DeliveredBudgets(stages: seq<Stage>, json: bool)
    ensures |Delivered(stages, json)| == |stages|
    ensures forall i | 0 <= i < |stages| :: Delivered(stages, json)[i].budget == stages[i].budget
  {
  }

  lemma DraftSums(d: Decision, g: Graph, profile: Profile, planId: nat)
    requires Sound(d, g, profile)
    ensures forall i | 0 <= i < |d.stages| :: Pinned(d.stages[i]) != []
    ensures
      var p := Draft(d, profile, planId);
      && Sum(CostsOf(p.stages)) == p.budget.maxCost == WorstCosts(d.stages, d.order)
      && Sum(CallsOf(p.stages)) == p.budget.maxCalls == d.calls && Sum(ToolsOf(p.stages)) == 0
  {
    hide CompiledStage, Pinned, InDependencyOrder, StageReady, WorstCosts, Draft, Delivered, Stages, Closed, Rankable,
        IsGraphOf, CostsOf, CallsOf, ToolsOf, Sum, ValidProfile;
    var p := Draft(d, profile, planId);
    var stages := Stages(d.stages, d.order, profile);
    DraftParts(d, profile, planId);
    DeliveredBudgets(stages, profile.json);
    Indexed(d.stages, d.order, profile);
    forall i | 0 <= i < |d.stages|
      ensures Pinned(d.stages[i]) != []
    {
      ReadyCounts(d.stages[i], d.order[i], profile);
    }
    SumsAgree(d.stages, d.order, profile);
    SameBudgets(p.stages, stages);
  }

  lemma WithinTotal(d: Decision, g: Graph, profile: Profile, planId: nat, i: nat)
    requires Sound(d, g, profile) && i < |d.stages|
    ensures
      var p := Draft(d, profile, planId);
      i < |p.stages| && WithinPolicy(p, p.stages[i]) && 0 <= p.stages[i].budget.maxCost
  {
    hide CompiledStage, CompiledNode, CompiledPrompt, Pinned, InDependencyOrder, StageReady;
    var p := Draft(d, profile, planId);
    DraftSums(d, g, profile, planId);
    DraftSize(d, profile, planId);
    forall j | 0 <= j < |p.stages|
      ensures p.stages[j].budget.maxCost >= 0
    {
      DraftAt(d, profile, planId, j);
      assert StageReady(d.stages[j], d.order[j], profile);
      ReadyBudget(d.stages[j], d.order[j], profile);
    }
    PartOfSum(p.stages, i);
    DraftAt(d, profile, planId, i);
    SameLimits(d.stages[i], d.order[i], profile);
  }

  lemma SameLimits(s: StageDecision, spec: Spec, profile: Profile)
    ensures
      var b := CompiledStage(s, spec, profile).budget;
      b.maxInput == Tokens(profile.inputTokens) && b.maxOutput == Tokens(profile.outputTokens)
          && b.timeout == Timeout(profile)
  {
  }

  lemma RecoveryIsBounded(d: Decision, g: Graph, profile: Profile, planId: nat, i: nat)
    requires Sound(d, g, profile) && i < |d.stages|
    ensures
      var p := Draft(d, profile, planId);
      && i < |p.stages| == |p.workflow.nodes|
      && RecoveryFits(p.workflow.nodes[i], p.stages[i]) && KindFits(p.workflow.nodes[i], p.stages[i])
      && |p.stages[i].fallbacks| <= 2 && |p.stages[i].rules| <= 5 && p.stages[i].maxRepairs <= 2
      && p.stages[i].budget.maxAttempts <= profile.maxAttempts
      && (p.stages[i].budget.maxCost <= MAX_COST ==> BudgetInRange(p.stages[i].budget))
  {
    hide Pinned, Costed, RoutingPlan.Priced, Amount;
    DraftAt(d, profile, planId, i);
    assert StageReady(d.stages[i], d.order[i], profile);
    ReadyBudget(d.stages[i], d.order[i], profile);
    assert Distinct(d.stages[i].fallbacks);
  }

  lemma StageDelivers(d: Decision, g: Graph, profile: Profile, planId: nat, i: nat, x: Id)
    requires Sound(d, g, profile) && i < |d.stages| && x in Bindings(d.stages[i].deps)
    ensures Delivers(Draft(d, profile, planId), Bindings(d.stages[i].deps)[x], Text)
  {
    hide Draft, Delivered, CompiledNode, CompiledPrompt, CompiledStage, Closed, Rankable, IsGraphOf, StageReady,
        ValidProfile, AllCalls;
    var p := Draft(d, profile, planId);
    DraftParts(d, profile, planId);
    if x != INPUT {
      SoundSizes(d, g, profile);
      assert x in d.order[i].deps;
      var j :| 0 <= j < i && d.order[j].id == x;
      DraftAt(d, profile, planId, j);
      CompiledTypes(d.stages[j], d.order[j], profile);
      OutputDelivered(p, j, x);
    }
  }

  lemma OutputDelivered(p: Policy, j: nat, x: Id)
    requires j < |p.stages| && p.stages[j].node == x && p.stages[j].outputTypes == map[RESULT := Text]
    ensures Delivers(p, Binding(x, RESULT, false), Text)
  {
  }

  lemma CompiledTypes(s: StageDecision, spec: Spec, profile: Profile)
    ensures
      var stage, node, prompt := CompiledStage(s, spec, profile), CompiledNode(s), CompiledPrompt(s);
      && node.id == stage.node == s.node && node.inputs == Bindings(s.deps) && node.outputs == [RESULT]
      && node.deps == s.deps && node.kind == Llm && node.tool.None?
      && stage.inputTypes == Types(node.inputs) == prompt.variables && stage.prompt == Some(prompt.ref)
      && prompt.ref == VersionRef(s.node, 1)
      && INPUT in node.inputs
  {
  }

  lemma StageIsExecutable(d: Decision, g: Graph, profile: Profile, planId: nat, i: nat)
    requires Sound(d, g, profile) && i < |d.stages|
    ensures
      var p := Draft(d, profile, planId);
      i < |p.stages| == |p.workflow.nodes| && StageFits(p, p.workflow.nodes[i], p.stages[i])
  {
    hide Sound, CompiledNode, CompiledPrompt, CompiledStage, Draft, RecoveryFits, KindFits, WithinPolicy, Delivers,
        Bindings;
    SoundSizes(d, g, profile);
    var p := Draft(d, profile, planId);
    RecoveryIsBounded(d, g, profile, planId, i);
    WithinTotal(d, g, profile, planId, i);
    DraftAt(d, profile, planId, i);
    CompiledTypes(d.stages[i], d.order[i], profile);
    forall x | x in p.workflow.nodes[i].inputs
      ensures Delivers(p, p.workflow.nodes[i].inputs[x], p.stages[i].inputTypes[x])
    {
      StageDelivers(d, g, profile, planId, i, x);
    }
    assert p.workflow.nodes[i].outputs[0] == RESULT;
    assert p.prompts[i].ref == p.stages[i].prompt.value;
  }

  lemma SoundSizes(d: Decision, g: Graph, profile: Profile)
    requires Sound(d, g, profile)
    ensures 1 <= |d.stages| == |d.order| <= 8
    ensures forall i | 0 <= i < |d.stages| :: d.stages[i].node == d.order[i].id && d.stages[i].deps == d.order[i].deps
    ensures forall i, j | 0 <= i < j < |d.stages| :: d.stages[i].node != d.stages[j].node
    ensures forall i | 0 <= i < |d.stages| :: d.stages[i].selected.Some?
  {
    forall i | 0 <= i < |d.stages|
      ensures d.stages[i].node == d.order[i].id && d.stages[i].deps == d.order[i].deps && d.stages[i].selected.Some?
    {
      assert StageReady(d.stages[i], d.order[i], profile);
    }
  }

  lemma DraftIsBound(d: Decision, g: Graph, profile: Profile, planId: nat)
    requires Sound(d, g, profile)
    ensures ExecutableBindings(Draft(d, profile, planId))
  {
    hide Sound, CompiledNode, CompiledPrompt, CompiledStage, StageFits, Draft, OneStagePerNode, PromptsBound, AllFit;
    SoundSizes(d, g, profile);
    var p := Draft(d, profile, planId);
    DraftSize(d, profile, planId);
    forall i | 0 <= i < |d.stages|
      ensures p.stages[i].node == p.workflow.nodes[i].id == d.stages[i].node
      ensures p.prompts[i].ref == VersionRef(d.stages[i].node, 1) && p.stages[i].prompt == Some(p.prompts[i].ref)
      ensures StageFits(p, p.workflow.nodes[i], p.stages[i])
    {
      DraftAt(d, profile, planId, i);
      CompiledTypes(d.stages[i], d.order[i], profile);
      StageIsExecutable(d, g, profile, planId, i);
    }
    ParallelIsBound(p);
    DraftSums(d, g, profile, planId);
    DraftHeader(d, profile, planId);
  }

  // Stages, nodes and prompts side by side.
  lemma ParallelIsBound(p: Policy)
    requires |p.stages| == |p.workflow.nodes| == |p.prompts|
    requires forall i | 0 <= i < |p.stages| ::
               && p.stages[i].node == p.workflow.nodes[i].id
               && p.prompts[i].ref == VersionRef(p.stages[i].node, 1) && p.stages[i].prompt == Some(p.prompts[i].ref)
               && StageFits(p, p.workflow.nodes[i], p.stages[i])
    requires UniqueStages(p.stages)
    ensures OneStagePerNode(p) && PromptsBound(p) && AllFit(p)
  {
    hide StageFits;
    forall i | 0 <= i < |p.stages|
      ensures HasNode(p.workflow, p.stages[i].node) && HasStage(p.stages, p.workflow.nodes[i].id)
      ensures UsesPrompt(p, p.prompts[i].ref)
    {
    }
  }

  lemma DraftHeader(d: Decision, profile: Profile, planId: nat)
    requires |d.stages| == |d.order|
    ensures
      var p := Draft(d, profile, planId);
      && p.workflow.ref == p.plan && InputsTyped(p) && p.workflow.inputs == [INPUT] && p.workflow.tools == []
      && p.budget.maxTools == 0
  {
    var inputs := Draft(d, profile, planId).workflow.inputs;
    assert inputs[0] == INPUT;
    assert (set i | 0 <= i < |inputs| :: inputs[i]) == {INPUT};
  }

  lemma NodeIsValid(d: Decision, g: Graph, profile: Profile, planId: nat, i: nat)
    requires Sound(d, g, profile) && i < |d.stages|
    ensures
      var w := Draft(d, profile, planId).workflow;
      i < |w.nodes| && NodeValid(w, w.nodes[i])
  {
    SoundSizes(d, g, profile);
    DependenciesCompiled(d, g, profile, planId, i);
    hide Sound, CompiledNode, CompiledStage, Draft, CompiledPrompt;
    var w := Draft(d, profile, planId).workflow;
    DraftAt(d, profile, planId, i);
    DraftHeader(d, profile, planId);
    CompiledTypes(d.stages[i], d.order[i], profile);
    forall x | x in w.nodes[i].inputs
      ensures BindingDeclared(w, w.nodes[i], w.nodes[i].inputs[x])
    {
    }
  }

  lemma DependenciesCompiled(d: Decision, g: Graph, profile: Profile, planId: nat, i: nat)
    requires Sound(d, g, profile) && i < |d.stages|
    ensures Distinct(d.stages[i].deps) && d.stages[i].node !in d.stages[i].deps
    ensures
      var w := Draft(d, profile, planId).workflow;
      forall x | x in d.stages[i].deps :: exists j ::
        0 <= j < |w.nodes| && w.nodes[j].id == x && w.nodes[j].outputs == [RESULT]
  {
    SoundSizes(d, g, profile);
    assert d.stages[i].deps == d.order[i].deps && Distinct(d.order[i].deps);
    hide CompiledNode, CompiledStage, Draft, AllReady, CompiledPrompt;
    var w := Draft(d, profile, planId).workflow;
    forall x | x in d.order[i].deps
      ensures x != d.order[i].id && exists j ::
        0 <= j < |w.nodes| && w.nodes[j].id == x && w.nodes[j].outputs == [RESULT]
    {
      var j :| 0 <= j < i && d.order[j].id == x;
      DraftAt(d, profile, planId, j);
      CompiledTypes(d.stages[j], d.order[j], profile);
      assert w.nodes[j].id == x;
    }
  }

  lemma DraftGraph(d: Decision, g: Graph, profile: Profile, planId: nat)
    requires Sound(d, g, profile)
    ensures IsGraphOfNodes(g, Draft(d, profile, planId).workflow.nodes)
    ensures
      var nodes := Draft(d, profile, planId).workflow.nodes;
      |nodes| == |d.order| && forall i | 0 <= i < |nodes| :: nodes[i].id == d.order[i].id
  {
    hide Sound, CompiledNode, CompiledPrompt, CompiledStage, Draft, Closed, Rankable;
    SoundSizes(d, g, profile);
    SoundGraph(d, g, profile);
    var nodes := Draft(d, profile, planId).workflow.nodes;
    DraftSize(d, profile, planId);
    forall i | 0 <= i < |nodes|
      ensures nodes[i].id == d.order[i].id && nodes[i].deps == d.order[i].deps
    {
      DraftAt(d, profile, planId, i);
      CompiledTypes(d.stages[i], d.order[i], profile);
    }
  }

  lemma SoundGraph(d: Decision, g: Graph, profile: Profile)
    requires Sound(d, g, profile)
    ensures IsGraphOf(g, d.order) && Closed(g) && Rankable(g) && |d.stages| == |d.order| && UniqueIds(d.order)
  {
  }

  lemma DraftWorkflowIsValid(d: Decision, g: Graph, profile: Profile, planId: nat)
    requires Sound(d, g, profile)
    ensures WorkflowValid(Draft(d, profile, planId).workflow)
  {
    hide Sound, CompiledNode, CompiledPrompt, CompiledStage, Draft, NodeValid, Closed, Rankable, IsGraphOfNodes,
        IsGraphOf;
    SoundSizes(d, g, profile);
    SoundGraph(d, g, profile);
    var w := Draft(d, profile, planId).workflow;
    DraftSize(d, profile, planId);
    DraftHeader(d, profile, planId);
    DraftGraph(d, g, profile, planId);
    forall i | 0 <= i < |w.nodes|
      ensures NodeValid(w, w.nodes[i])
    {
      NodeIsValid(d, g, profile, planId, i);
    }
    assert IsGraphOfNodes(g, w.nodes);
  }

  lemma DraftIsValid(d: Decision, g: Graph, profile: Profile, planId: nat)
    requires Sound(d, g, profile)
    ensures forall i | 0 <= i < |d.stages| :: Pinned(d.stages[i]) != []
    ensures PolicyValid(Draft(d, profile, planId)) <==> WorstCosts(d.stages, d.order) <= MAX_COST
    ensures
      var p := Draft(d, profile, planId);
      |p.stages| == |d.stages| && forall i | 0 <= i < |p.stages| ::
          p.stages[i].budget.maxAttempts <= profile.maxAttempts
  {
    var p := Draft(d, profile, planId);
    SoundSizes(d, g, profile);
    DraftSums(d, g, profile, planId);
    DraftSize(d, profile, planId);
    DraftIsBound(d, g, profile, planId);
    DraftWorkflowIsValid(d, g, profile, planId);
    DraftBudget(d, g, profile, planId);
    hide Sound, Draft, ExecutableBindings, WorkflowValid, WorstCosts, BudgetInRange, Pinned, CompiledStage;
    forall i | 0 <= i < |p.stages|
      ensures p.stages[i].budget.maxAttempts <= profile.maxAttempts
      ensures WorstCosts(d.stages, d.order) <= MAX_COST ==> StageInRange(p.stages[i])
    {
      RecoveryIsBounded(d, g, profile, planId, i);
      WithinTotal(d, g, profile, planId, i);
    }
  }

  lemma DraftBudget(d: Decision, g: Graph, profile: Profile, planId: nat)
    requires Sound(d, g, profile)
    ensures
      var p := Draft(d, profile, planId);
      BudgetInRange(p.budget) <==> p.budget.maxCost <= MAX_COST
  {
    hide CompiledNode, CompiledPrompt, CompiledStage, InDependencyOrder, StageReady, Stages, CostsOf, Draft, Delivered,
        Closed, Rankable, IsGraphOf, MostAttempts, Sum, Pinned, AllCalls;
    var p := Draft(d, profile, planId);
    DraftParts(d, profile, planId);
    var stages := Stages(d.stages, d.order, profile);
    Indexed(d.stages, d.order, profile);
    MostIsMost(stages);
    var i :| 0 <= i < |stages| && stages[i].budget.maxAttempts == MostAttempts(stages);
    assert StageReady(d.stages[i], d.order[i], profile);
    ReadyBudget(d.stages[i], d.order[i], profile);
    SameLimits(d.stages[i], d.order[i], profile);
    WithinTotal(d, g, profile, planId, 0);
  }

  /** From plan to policy: a ready decision always compiles to a draft that meets every demand on an
      executable policy and its workflow, its budgets adding up to exactly the decision's worst case
      of calls and cost, no stage attempting more than the profile allows; and that draft is within
      the limits of a budget if and only if the worst-case cost is, which a cost cap in the profile
      guarantees. */
  lemma CompiledIsExecutable(specs: seq<Spec>, g: Graph, profile: Profile, options: Options, choose: Selection,
      d: Decision, planId: nat)
    requires ValidPlan(specs, g) && ValidProfile(profile) && IsPlan(d, specs, g, profile, options, choose) && d.ready
    requires forall i | 0 <= i < |specs| :: ChoiceFor(profile, choose(specs[i]))
    ensures Compilable(d, profile)
    ensures
      var p := Draft(d, profile, planId);
      && WorkflowValid(p.workflow) && ExecutableBindings(p)
      && (PolicyValid(p) <==> d.cost.value <= MAX_COST)
      && (profile.maxCost.Some? ==> PolicyValid(p))
      && Sum(CostsOf(p.stages)) == p.budget.maxCost == d.cost.value
      && Sum(CallsOf(p.stages)) == p.budget.maxCalls == d.calls
      && |p.stages| == |specs| && forall i | 0 <= i < |p.stages| ::
          p.stages[i].budget.maxAttempts <= profile.maxAttempts <= 3
  {
    hide AllReady, Sound, WorkflowValid, ExecutableBindings, PolicyValid, ChoiceFor, ValidPlan, IsPlan, Draft,
        WorstCosts, NoBlocker;
    DecisionIsSound(specs, g, profile, options, choose, d);
    DraftIsValid(d, g, profile, planId);
    DraftIsBound(d, g, profile, planId);
    DraftWorkflowIsValid(d, g, profile, planId);
    DraftSums(d, g, profile, planId);
    AmountsKnown(d, g, profile);
    IsReady(d, specs, g, profile, options, choose);
  }

  // One stage, and one deployment for it that costs two million micro-USD; the profile has no cost cap.
  const DEAR_SPEC := Spec(1, [], [], 0, false)

  const DEAR_PROFILE := Profile(Some(1000), Some(1000), None, None, 1, 1, false, false, false, false)

  const DEAR_CHOICE := Choice(Some(7), [RoutingPlan.Candidate(7, true, Some(2_000_000.0), None, None)])

  const DEAR := Decision(true, [DEAR_SPEC], [Decide(DEAR_SPEC, DEAR_CHOICE, 1)], [[1]], Some(2_000_000), None, 1)

  lemma DearPinned()
    ensures Pinned(DEAR.stages[0]) == DEAR_CHOICE.candidates
  {
    assert PinnedAmong(DEAR_CHOICE.candidates[1..], DEAR.stages[0]) == [];
  }

  lemma DearCosts()
    ensures StageCosts(DEAR_CHOICE.candidates, 0) == [Some(2_000_000)]
    ensures Total([Some(2_000_000)]) == Some(2_000_000)
  {
    var cs, costs := DEAR_CHOICE.candidates, [Some(2_000_000)];
    assert cs[1..] == [] && CeilCosts(cs) == [Money(cs[0].cost)];
    assert WorstCase.Repeated(Money(Dearest(cs).cost), 0) == [];
    assert costs[1..] == [] && Values(costs) == [2_000_000];
    assert Values(costs)[1..] == [];
    assert Sum(Values(costs)) == 2_000_000;
  }

  lemma DearTotals()
    ensures AllCalls(DEAR.stages, DEAR.order) == 1 && Total(AllCosts(DEAR.stages, DEAR.order)) == Some(2_000_000)
  {
    hide Pinned, StageCosts, Total;
    DearPinned();
    DearCosts();
    assert DEAR.stages[1..] == [] && DEAR.order[1..] == [];
    assert AllCosts(DEAR.stages, DEAR.order) == [Some(2_000_000)] + AllCosts([], []);
    assert AllCosts(DEAR.stages, DEAR.order) == [Some(2_000_000)];
  }

  lemma DearRounds()
    ensures IdSet([DEAR_SPEC]) == {1} && Ids([DEAR_SPEC]) == [1]
    ensures Round([DEAR_SPEC], {}) == [DEAR_SPEC] && Round([DEAR_SPEC], {1}) == []
  {
    var specs := [DEAR_SPEC];
    assert specs[0] == DEAR_SPEC && specs[1..] == [] && IdSet(specs) == {specs[0].id};
    assert Free(DEAR_SPEC, {}) && !Free(DEAR_SPEC, {1});
  }

  lemma DearOrder()
    ensures InOrder([DEAR_SPEC]) == [DEAR_SPEC] && Waves([DEAR_SPEC], {}) == [[1]]
  {
    hide IdSet, Ids, Round;
    DearRounds();
    var specs := [DEAR_SPEC];
    assert {} + IdSet(specs) == {1};
    assert Waves(specs, {1}) == [] && Rounds(specs, {1}) == [];
    assert Waves(specs, {}) == [Ids(specs)] + Waves(specs, {1});
    assert Rounds(specs, {}) == [specs] + Rounds(specs, {1}) == [specs];
    assert [specs][1..] == [] && Flatten([specs]) == specs + [];
  }

  lemma DearPlan()
    ensures ValidPlan([DEAR_SPEC], map[1 := []])
  {
    hide IdSet, Rankable;
    DearRounds();
    DearRank();
  }

  lemma DearRank()
    ensures Rankable(map[1 := []])
  {
    assert IsRank(map[1 := []], map[1 := 0]);
  }

  /** A decision may be ready and yet have no valid policy: without a cost cap nothing keeps its worst
      case within what a budget may hold, and the draft built from it is refused. */
  lemma ReadyBeyondLimit(options: Options, planId: nat)
    requires !options.cheapFirst
    ensures ValidPlan([DEAR_SPEC], map[1 := []]) && ValidProfile(DEAR_PROFILE) && ChoiceFor(DEAR_PROFILE, DEAR_CHOICE)
    ensures IsPlan(DEAR, [DEAR_SPEC], map[1 := []], DEAR_PROFILE, options, (_: Spec) => DEAR_CHOICE)
    ensures DEAR.ready && DEAR.cost == Some(2 * MAX_COST)
    ensures Compilable(DEAR, DEAR_PROFILE) && !PolicyValid(Draft(DEAR, DEAR_PROFILE, planId))
  {
    hide Pinned, InOrder, Waves, ValidPlan, AllCosts, AllCalls, Total, Draft, PolicyValid, Amount, Decide;
    var choose: Selection := (_: Spec) => DEAR_CHOICE;
    DearTotals();
    DearPlan();
    DearOrder();
    assert HasConfig(DEAR_CHOICE.candidates, DEAR_CHOICE.candidates[0].config);
    assert DecidedBy(DEAR.stages, DEAR.order, choose, 1);
    SelectedIsChoice(DEAR_SPEC, DEAR_CHOICE, 1);
    CompiledIsExecutable([DEAR_SPEC], map[1 := []], DEAR_PROFILE, options, choose, DEAR, planId);
  }

  ghost predicate CostIsWorst(d: Decision, profile: Profile) {
    && |d.stages| == |d.order| && (forall i | 0 <= i < |d.stages| :: Pinned(d.stages[i]) != [])
    && d.cost == Some(WorstCosts(d.stages, d.order))
    && (profile.maxCost.Some? ==> d.cost.value <= profile.maxCost.value <= MAX_COST)
  }

  lemma DecisionIsSound(specs: seq<Spec>, g: Graph, profile: Profile, options: Options, choose: Selection, d: Decision)
    requires ValidPlan(specs, g) && ValidProfile(profile) && IsPlan(d, specs, g, profile, options, choose) && d.ready
    requires forall i | 0 <= i < |specs| :: ChoiceFor(profile, choose(specs[i]))
    ensures Sound(d, g, profile) && |d.order| == |specs| && CostIsWorst(d, profile)
    ensures d.ready && profile.inputTokens.Some? && profile.outputTokens.Some? && 1 <= profile.maxAttempts <= 3
  {
    hide ChoiceFor, Waves, InOrder, Pinned, InDependencyOrder, Decide, WorstCosts;
    ReadyStages(d, specs, g, profile, options, choose);
    OrderedPlan(specs, g);
    PlanIsInOrder(specs, g);
  }

  lemma IsReady(d: Decision, specs: seq<Spec>, g: Graph, profile: Profile, options: Options, choose: Selection)
    requires IsPlan(d, specs, g, profile, options, choose)
    ensures |d.stages| == |d.order| && d.order == InOrder(specs)
  {
  }

  lemma AmountsKnown(d: Decision, g: Graph, profile: Profile)
    requires Sound(d, g, profile)
    ensures |d.stages| == |d.order| && forall i | 0 <= i < |d.stages| ::
        Amount(d.stages[i], d.order[i].maxRepairs).Some?
  {
    forall i | 0 <= i < |d.stages|
      ensures Amount(d.stages[i], d.order[i].maxRepairs).Some?
    {
      AmountReady(d.stages[i], d.order[i], profile);
    }
  }
}

/**
 Running an executable policy frontier by frontier.

 What a stage's model, tool or operation answers is an oracle on its identifier and its bound inputs;
 whether the run is told to stop before a frontier is another one. Values carry no more than what the
 typed bindings look at. The 64 KiB bound on the inputs of a stage counts as a stage that fails.
 */
module Runner {
  import opened Basics
  import opened DependencyGraph
  import opened Planner
  import opened PolicyCompiler
  import opened RoutingPlan
  import opened Sorting
  import opened ValueTypes

  datatype Value = TextValue(text: nat) | NumberValue(number: real) | BooleanValue(flag: bool) | OtherValue(json: nat)

  type Record = map<Id, Value>

  predicate HasType(v: Value, t: ValueType) {
    match t
    case Text => v.TextValue?
    case Number => v.NumberValue?
    case Boolean => v.BooleanValue?
    case Json => true
  }

  predicate Typed(types: map<Id, ValueType>, values: Record) {
    types.Keys == values.Keys && forall x | x in types :: HasType(values[x], types[x])
  }

  // None when the stage fails.
  type Answers = (Id, Record) -> Option<Record>

  // ----- one stage -----

  function NodeOf(nodes: seq<Node>, id: Id): (k: nat)
    ensures k <= |nodes| && (k < |nodes| ==> nodes[k].id == id) && forall i | 0 <= i < k :: nodes[i].id != id
  {
    if nodes == [] then 0 else if nodes[0].id == id then 0 else 1 + NodeOf(nodes[1..], id)
  }

  function StageOf(stages: seq<Stage>, id: Id): (k: nat)
    ensures k <= |stages| && (k < |stages| ==> stages[k].node == id) && forall i | 0 <= i < k :: stages[i].node != id
  {
    if stages == [] then 0 else if stages[0].node == id then 0 else 1 + StageOf(stages[1..], id)
  }

  predicate Produced(b: Binding, inputs: Record, outputs: map<Id, Record>) {
    if b.fromInput then b.source in inputs else b.source in outputs && b.output in outputs[b.source]
  }

  function Read(b: Binding, inputs: Record, outputs: map<Id, Record>): Value
    requires Produced(b, inputs, outputs)
  {
    if b.fromInput then inputs[b.source] else outputs[b.source][b.output]
  }

  // None where the source would read something that is not there.
  function Bound(n: Node, inputs: Record, outputs: map<Id, Record>): Option<Record> {
    if forall x | x in n.inputs :: Produced(n.inputs[x], inputs, outputs) then
      Some(map x | x in n.inputs :: Read(n.inputs[x], inputs, outputs))
    else None
  }

  datatype Dispatch = Dispatch(node: Id, bound: Option<Record>)

  function Dispatched(p: Policy, id: Id, inputs: Record, outputs: map<Id, Record>): Dispatch {
    var k := NodeOf(p.workflow.nodes, id);
    Dispatch(id, if k < |p.workflow.nodes| then Bound(p.workflow.nodes[k], inputs, outputs) else None)
  }

  // The output of a stage; None when it fails, its bindings or its output included.
  function Output(p: Policy, id: Id, inputs: Record, outputs: map<Id, Record>, answers: Answers): Option<Record> {
    var bound, k := Dispatched(p, id, inputs, outputs).bound, StageOf(p.stages, id);
    if bound.None? || k == |p.stages| || !Typed(p.stages[k].inputTypes, bound.value) then None
    else
      match answers(id, bound.value)
      case None => None
      case Some(output) => if Typed(p.stages[k].outputTypes, output) then Some(output) else None
  }

  // ----- one frontier -----

  predicate AtMost(a: Id, b: Id) { a <= b }

  predicate CanRun(n: Node, done: set<Id>) {
    n.id !in done && forall d | d in n.deps :: d in done
  }

  // The nodes that can run, by identifier.
  function Frontier(nodes: seq<Node>, done: set<Id>): seq<Id> {
    if nodes == [] then []
    else
      var rest := Frontier(nodes[1..], done);
      if CanRun(nodes[0], done) then Sorting.Insert(nodes[0].id, rest, AtMost) else rest
  }

  predicate NeedsApproval(nodes: seq<Node>, done: set<Id>) {
    exists i | 0 <= i < |nodes| :: CanRun(nodes[i], done) && nodes[i].kind == HumanApproval
  }

  // The outputs after all stages of a frontier have settled. They are independent: each one sees the
  // outputs from before the frontier.
  function Settled(p: Policy, frontier: seq<Id>, inputs: Record, outputs: map<Id, Record>, answers: Answers)
    : map<Id, Record>
  {
    outputs + map id | id in frontier && Output(p, id, inputs, outputs, answers).Some? ::
      Output(p, id, inputs, outputs, answers).value
  }

  predicate AnyFailed(p: Policy, frontier: seq<Id>, inputs: Record, outputs: map<Id, Record>, answers: Answers) {
    exists i | 0 <= i < |frontier| :: Output(p, frontier[i], inputs, outputs, answers).None?
  }

  function Dispatches(p: Policy, frontier: seq<Id>, inputs: Record, outputs: map<Id, Record>): (ds: seq<Dispatch>)
    ensures |ds| == |frontier| && forall i | 0 <= i < |ds| :: ds[i] == Dispatched(p, frontier[i], inputs, outputs)
  {
    seq(|frontier|, i requires 0 <= i < |frontier| => Dispatched(p, frontier[i], inputs, outputs))
  }

  // ----- a run -----

  datatype End = Succeeded | AwaitingApproval | Stopped | Failed | NoFrontier

  datatype Trace = Trace(frontiers: seq<seq<Dispatch>>, end: End)

  // The rest of a run; the k-th frontier may be preceded by a request to stop.
  function Rest(p: Policy, inputs: Record, outputs: map<Id, Record>, answers: Answers, stops: nat -> bool,
      k: nat): Trace
    decreases |IdsOf(p.workflow.nodes) - outputs.Keys|
  {
    var nodes := p.workflow.nodes;
    var frontier := Frontier(nodes, outputs.Keys);
    if |outputs| >= |p.stages| then Trace([], Succeeded)
    else if stops(k) then Trace([], Stopped)
    else if NeedsApproval(nodes, outputs.Keys) then Trace([], AwaitingApproval)
    else if frontier == [] then Trace([], NoFrontier)
    else
      var dispatches := Dispatches(p, frontier, inputs, outputs);
      if AnyFailed(p, frontier, inputs, outputs, answers) then Trace([dispatches], Failed)
      else
        FrontierAdvances(p, inputs, outputs, answers);
        var rest := Rest(p, inputs, Settled(p, frontier, inputs, outputs, answers), answers, stops, k + 1);
        Trace([dispatches] + rest.frontiers, rest.end)
  }

  function IdsOf(nodes: seq<Node>): set<Id> {
    set i | 0 <= i < |nodes| :: nodes[i].id
  }

  lemma {:induction false} FrontierMeans(nodes: seq<Node>, done: set<Id>)
    ensures forall x :: x in Frontier(nodes, done) <==> exists i ::
      0 <= i < |nodes| && nodes[i].id == x && CanRun(nodes[i], done)
    ensures Ordered(Frontier(nodes, done), AtMost)
    decreases |nodes|
  {
    if nodes != [] {
      hide CanRun;
      FrontierMeans(nodes[1..], done);
      var rest := Frontier(nodes[1..], done);
      Sorting.InsertMeans(nodes[0].id, rest, AtMost);
      Sorting.InsertKeepsOrder(nodes[0].id, rest, AtMost);
      forall x
        ensures x in Frontier(nodes, done) <==> exists i ::
          0 <= i < |nodes| && nodes[i].id == x && CanRun(nodes[i], done)
      {
        if i :| 0 <= i < |nodes[1..]| && nodes[1..][i].id == x && CanRun(nodes[1..][i], done) {
          assert nodes[i + 1] == nodes[1..][i];
        }
        if i :| 0 <= i < |nodes| && nodes[i].id == x && CanRun(nodes[i], done) {
          assert i > 0 ==> nodes[1..][i - 1] == nodes[i];
        }
      }
    }
  }

  lemma FrontierAdvances(p: Policy, inputs: Record, outputs: map<Id, Record>, answers: Answers)
    requires
      var frontier := Frontier(p.workflow.nodes, outputs.Keys);
      frontier != [] && !AnyFailed(p, frontier, inputs, outputs, answers)
    ensures
      var nodes, frontier := p.workflow.nodes, Frontier(p.workflow.nodes, outputs.Keys);
      && Settled(p, frontier, inputs, outputs, answers).Keys == outputs.Keys + ToSet(frontier)
      && |IdsOf(nodes) - Settled(p, frontier, inputs, outputs, answers).Keys| < |IdsOf(nodes) - outputs.Keys|
  {
    hide Settled, AnyFailed, Frontier, IdsOf, ToSet;
    var nodes, frontier := p.workflow.nodes, Frontier(p.workflow.nodes, outputs.Keys);
    SettledKeys(p, frontier, inputs, outputs, answers);
    FrontierIsNew(nodes, outputs.Keys);
    var x :| x in ToSet(frontier) && x in IdsOf(nodes) && x !in outputs.Keys;
    Smaller(IdsOf(nodes) - (outputs.Keys + ToSet(frontier)), IdsOf(nodes) - outputs.Keys);
  }

  lemma SettledKeys(p: Policy, frontier: seq<Id>, inputs: Record, outputs: map<Id, Record>, answers: Answers)
    requires !AnyFailed(p, frontier, inputs, outputs, answers)
    ensures Settled(p, frontier, inputs, outputs, answers).Keys == outputs.Keys + ToSet(frontier)
  {
    hide Output;
    forall x | x in ToSet(frontier)
      ensures x in Settled(p, frontier, inputs, outputs, answers)
    {
      var i :| 0 <= i < |frontier| && frontier[i] == x;
      assert Output(p, frontier[i], inputs, outputs, answers).Some?;
    }
  }

  lemma FrontierIsNew(nodes: seq<Node>, done: set<Id>)
    ensures Frontier(nodes, done) != [] ==> exists x ::
      x in ToSet(Frontier(nodes, done)) && x in IdsOf(nodes) && x !in done
  {
    var frontier := Frontier(nodes, done);
    FrontierMeans(nodes, done);
    if frontier != [] {
      assert frontier[0] in frontier && frontier[0] in ToSet(frontier);
      var k :| 0 <= k < |nodes| && nodes[k].id == frontier[0] && CanRun(nodes[k], done);
      assert frontier[0] in IdsOf(nodes);
    }
  }

  function Prefixed(frontiers: seq<seq<Dispatch>>, t: Trace): Trace {
    Trace(frontiers + t.frontiers, t.end)
  }

  lemma PrefixedNothing(t: Trace)
    ensures Prefixed([], t) == t
  {
    assert [] + t.frontiers == t.frontiers;
  }

  lemma PrefixedEnd(frontiers: seq<seq<Dispatch>>)
    ensures forall end :: Prefixed(frontiers, Trace([], end)) == Trace(frontiers, end)
  {
    assert frontiers + [] == frontiers;
  }

  lemma PrefixedTwice(frontiers: seq<seq<Dispatch>>, last: seq<Dispatch>, t: Trace)
    ensures Prefixed(frontiers, Prefixed([last], t)) == Prefixed(frontiers + [last], t)
    ensures forall end :: Prefixed(frontiers, Trace([last], end)) == Trace(frontiers + [last], end)
  {
    Regroup(frontiers, [last], t.frontiers);
  }

  // One turn of the loop.
  lemma RestStep(p: Policy, inputs: Record, outputs: map<Id, Record>, answers: Answers, stops: nat -> bool, k: nat)
    ensures
      var nodes, rest := p.workflow.nodes, Rest(p, inputs, outputs, answers, stops, k);
      var frontier := Frontier(nodes, outputs.Keys);
      if |outputs| >= |p.stages| then rest == Trace([], Succeeded)
      else if stops(k) then rest == Trace([], Stopped)
      else if NeedsApproval(nodes, outputs.Keys) then rest == Trace([], AwaitingApproval)
      else if frontier == [] then rest == Trace([], NoFrontier)
      else if AnyFailed(p, frontier, inputs, outputs, answers) then rest ==
          Trace([Dispatches(p, frontier, inputs, outputs)], Failed)
      else
        && var settled := Settled(p, frontier, inputs, outputs, answers);
        && rest == Prefixed([Dispatches(p, frontier, inputs, outputs)], Rest(p, inputs, settled, answers, stops, k + 1))
        && settled.Keys == outputs.Keys + ToSet(frontier)
        && |IdsOf(nodes) - settled.Keys| < |IdsOf(nodes) - outputs.Keys|
  {
    hide Output, Frontier, NeedsApproval, IdsOf, Settled, AnyFailed, ToSet;
    var frontier := Frontier(p.workflow.nodes, outputs.Keys);
    if frontier != [] && !AnyFailed(p, frontier, inputs, outputs, answers) {
      FrontierAdvances(p, inputs, outputs, answers);
    }
  }

  method Submit(p: Policy, inputs: Record, answers: Answers, stops: nat -> bool) returns (trace: Trace)
    ensures trace == Rest(p, inputs, map[], answers, stops, 0)
  {
    hide *;
    var outputs: map<Id, Record> := map[];
    var frontiers: seq<seq<Dispatch>> := [];
    var k := 0;
    PrefixedNothing(Rest(p, inputs, outputs, answers, stops, k));
    while |outputs| < |p.stages|
      invariant Rest(p, inputs, map[], answers, stops, 0) ==
          Prefixed(frontiers, Rest(p, inputs, outputs, answers, stops, k))
      decreases |IdsOf(p.workflow.nodes) - outputs.Keys|
    {
      RestStep(p, inputs, outputs, answers, stops, k);
      PrefixedEnd(frontiers);
      if stops(k) {
        return Trace(frontiers, Stopped);
      }
      var ready := Frontier(p.workflow.nodes, outputs.Keys);
      if NeedsApproval(p.workflow.nodes, outputs.Keys) {
        return Trace(frontiers, AwaitingApproval);
      }
      if ready == [] {
        return Trace(frontiers, NoFrontier);
      }
      var settled, failed := Gather(p, ready, inputs, outputs, answers);
      var dispatches := Dispatches(p, ready, inputs, outputs);
      PrefixedTwice(frontiers, dispatches, Rest(p, inputs, settled, answers, stops, k + 1));
      frontiers := frontiers + [dispatches];
      if failed {
        return Trace(frontiers, Failed);
      }
      outputs := settled;
      k := k + 1;
    }
    RestStep(p, inputs, outputs, answers, stops, k);
    PrefixedEnd(frontiers);
    trace := Trace(frontiers, Succeeded);
  }

  // All stages of the frontier settle before the run goes on or stops.
  method Gather(p: Policy, ready: seq<Id>, inputs: Record, before: map<Id, Record>, answers: Answers)
    returns (outputs: map<Id, Record>, failed: bool)
    ensures outputs == Settled(p, ready, inputs, before, answers)
    ensures failed <==> AnyFailed(p, ready, inputs, before, answers)
  {
    hide Output, Settled, AnyFailed;
    outputs, failed := before, false;
    NothingSettled(p, inputs, before, answers);
    for i := 0 to |ready|
      invariant outputs == Settled(p, ready[..i], inputs, before, answers)
      invariant failed <==> AnyFailed(p, ready[..i], inputs, before, answers)
    {
      var result := Output(p, ready[i], inputs, before, answers);
      SettleOne(p, ready, i, inputs, before, answers);
      match result {
        case Some(output) => outputs := outputs[ready[i] := output];
        case None => failed := true;
      }
    }
    assert ready[..|ready|] == ready;
  }

  lemma NothingSettled(p: Policy, inputs: Record, before: map<Id, Record>, answers: Answers)
    ensures Settled(p, [], inputs, before, answers) == before && !AnyFailed(p, [], inputs, before, answers)
  {
    hide Output;
  }

  lemma SettleOne(p: Policy, ready: seq<Id>, i: nat, inputs: Record, before: map<Id, Record>, answers: Answers)
    requires i < |ready|
    ensures
      var result, settled := Output(p, ready[i], inputs, before, answers),
          Settled(p, ready[..i], inputs, before, answers);
      && Settled(p, ready[..i + 1], inputs, before, answers) ==
          (if result.Some? then settled[ready[i] := result.value] else settled)
      && (AnyFailed(p, ready[..i + 1], inputs, before, answers) <==>
          AnyFailed(p, ready[..i], inputs, before, answers) || result.None?)
  {
    hide Output, Settled, AnyFailed;
    assert ready[..i + 1] == ready[..i] + [ready[i]];
    SettleSnoc(p, ready[..i], ready[i], inputs, before, answers);
    FailSnoc(p, ready[..i], ready[i], inputs, before, answers);
  }

  lemma SettleSnoc(p: Policy, ids: seq<Id>, id: Id, inputs: Record, before: map<Id, Record>, answers: Answers)
    ensures
      var result, settled := Output(p, id, inputs, before, answers), Settled(p, ids, inputs, before, answers);
      Settled(p, ids + [id], inputs, before, answers) == if result.Some? then settled[id := result.value] else settled
  {
    hide Output, Settled;
    var all := ids + [id];
    var result, settled := Output(p, id, inputs, before, answers), Settled(p, ids, inputs, before, answers);
    var after := Settled(p, all, inputs, before, answers);
    var expected := if result.Some? then settled[id := result.value] else settled;
    forall x
      ensures x in after <==> x in expected
      ensures x in after ==> after[x] == expected[x]
    {
      SettledAt(p, all, inputs, before, answers, x);
      SettledAt(p, ids, inputs, before, answers, x);
      assert x in all <==> x in ids || x == id;
    }
  }

  lemma SettledAt(p: Policy, ids: seq<Id>, inputs: Record, before: map<Id, Record>, answers: Answers, x: Id)
    ensures
      var result, settled := Output(p, x, inputs, before, answers), Settled(p, ids, inputs, before, answers);
      && (x in settled <==> x in before || (x in ids && result.Some?))
      && (x in settled ==> settled[x] == if x in ids && result.Some? then result.value else before[x])
  {
    hide Output;
  }

  lemma FailSnoc(p: Policy, ids: seq<Id>, id: Id, inputs: Record, before: map<Id, Record>, answers: Answers)
    ensures AnyFailed(p, ids + [id], inputs, before, answers)
       <==> AnyFailed(p, ids, inputs, before, answers) || Output(p, id, inputs, before, answers).None?
  {
    hide Output;
    var all := ids + [id];
    if AnyFailed(p, ids, inputs, before, answers) {
      var j :| 0 <= j < |ids| && Output(p, ids[j], inputs, before, answers).None?;
      assert all[j] == ids[j];
    }
    if Output(p, id, inputs, before, answers).None? {
      assert all[|ids|] == id;
    }
  }

  // ----- what a run keeps -----

  ghost predicate Runnable(p: Policy, g: Graph) {
    WorkflowValid(p.workflow) && ExecutableBindings(p) && IsGraphOfNodes(g, p.workflow.nodes) && Closed(g)
        && Rankable(g)
  }

  // Outputs belong to stages, have their types, and come with those of all dependencies.
  ghost predicate OutputsValid(p: Policy, g: Graph, outputs: map<Id, Record>) {
    && outputs.Keys <= g.Keys
    && (forall id, d | id in outputs && d in g[id] :: d in outputs)
    && forall i | 0 <= i < |p.stages| && p.stages[i].node in outputs ::
        Typed(p.stages[i].outputTypes, outputs[p.stages[i].node])
  }

  lemma FrontierIsReady(p: Policy, g: Graph, done: set<Id>)
    requires IsGraphOfNodes(g, p.workflow.nodes)
    ensures ToSet(Frontier(p.workflow.nodes, done)) == Ready(g, done)
  {
    var nodes, frontier := p.workflow.nodes, Frontier(p.workflow.nodes, done);
    FrontierMeans(nodes, done);
    forall x
      ensures x in ToSet(frontier) <==> x in frontier
    {
      if x in frontier {
        var i :| 0 <= i < |frontier| && frontier[i] == x;
      }
    }
    hide Frontier;
    forall x | x in Ready(g, done)
      ensures x in frontier
    {
      var i :| 0 <= i < |nodes| && nodes[i].id == x;
      assert CanRun(nodes[i], done);
    }
  }

  lemma BindingIsTyped(p: Policy, g: Graph, inputs: Record, outputs: map<Id, Record>, n: Node, x: Id, t: ValueType)
    requires Runnable(p, g) && Typed(p.inputTypes, inputs) && OutputsValid(p, g, outputs)
    requires n in p.workflow.nodes && x in n.inputs && NodeValid(p.workflow, n) && Delivers(p, n.inputs[x], t)
    requires forall d | d in n.deps :: d in outputs
    ensures Produced(n.inputs[x], inputs, outputs) && HasType(Read(n.inputs[x], inputs, outputs), t)
  {
    var b := n.inputs[x];
    assert BindingDeclared(p.workflow, n, b);
    if !b.fromInput {
      var i :| 0 <= i < |p.stages| && p.stages[i].node == b.source && b.output in p.stages[i].outputTypes
          && p.stages[i].outputTypes[b.output] == t;
      assert Typed(p.stages[i].outputTypes, outputs[p.stages[i].node]);
    }
  }

  // A node of a frontier finds everything it reads, with the types its stage declares.
  lemma DispatchIsBound(p: Policy, g: Graph, inputs: Record, outputs: map<Id, Record>, id: Id)
    requires Runnable(p, g) && Typed(p.inputTypes, inputs) && OutputsValid(p, g, outputs)
        && id in Ready(g, outputs.Keys)
    ensures
      var d, i := Dispatched(p, id, inputs, outputs), StageOf(p.stages, id);
      i < |p.stages| && d.bound.Some? && Typed(p.stages[i].inputTypes, d.bound.value)
  {
    hide Runnable, Ready, OutputsValid, StageOf, NodeOf, Typed, Bound, Delivers, NodeValid;
    ReadyNode(p, g, outputs, id);
    var n, i := p.workflow.nodes[NodeOf(p.workflow.nodes, id)], StageOf(p.stages, id);
    forall x | x in n.inputs
      ensures Produced(n.inputs[x], inputs, outputs)
          && HasType(Read(n.inputs[x], inputs, outputs), p.stages[i].inputTypes[x])
    {
      BindingIsTyped(p, g, inputs, outputs, n, x, p.stages[i].inputTypes[x]);
    }
    TypedBound(n, p.stages[i].inputTypes, inputs, outputs);
  }

  // What is known of a node that can run, and of its stage.
  lemma ReadyNode(p: Policy, g: Graph, outputs: map<Id, Record>, id: Id)
    requires Runnable(p, g) && id in Ready(g, outputs.Keys)
    ensures
      var nodes, k, i := p.workflow.nodes, NodeOf(p.workflow.nodes, id), StageOf(p.stages, id);
      && k < |nodes| && i < |p.stages|
      && nodes[k] in nodes && NodeValid(p.workflow, nodes[k])
      && (forall d | d in nodes[k].deps :: d in outputs)
      && TypesFit(p, nodes[k], p.stages[i])
  {
    hide NodeValid, TypesFit, RecoveryFits, KindFits, PromptFits, WithinPolicy, PromptsBound, InBudget, InputsTyped,
        Closed, Rankable;
    var nodes := p.workflow.nodes;
    var m :| 0 <= m < |nodes| && nodes[m].id == id;
    var k := NodeOf(nodes, id);
    assert g[nodes[k].id] == nodes[k].deps;
    assert HasStage(p.stages, nodes[k].id);
    var i := StageOf(p.stages, id);
    assert StageFits(p, nodes[k], p.stages[i]);
  }

  lemma TypedBound(n: Node, types: map<Id, ValueType>, inputs: Record, outputs: map<Id, Record>)
    requires types.Keys == n.inputs.Keys
    requires forall x | x in n.inputs ::
      Produced(n.inputs[x], inputs, outputs) && HasType(Read(n.inputs[x], inputs, outputs), types[x])
    ensures Bound(n, inputs, outputs).Some? && Typed(types, Bound(n, inputs, outputs).value)
  {
  }

  lemma SettledIsValid(p: Policy, g: Graph, inputs: Record, outputs: map<Id, Record>, answers: Answers)
    requires Runnable(p, g) && OutputsValid(p, g, outputs)
    requires
      var frontier := Frontier(p.workflow.nodes, outputs.Keys);
      frontier != [] && !AnyFailed(p, frontier, inputs, outputs, answers)
    ensures OutputsValid(p, g, Settled(p, Frontier(p.workflow.nodes, outputs.Keys), inputs, outputs, answers))
  {
    hide *;
    var frontier := Frontier(p.workflow.nodes, outputs.Keys);
    var after := Settled(p, frontier, inputs, outputs, answers);
    SettledKeys(p, frontier, inputs, outputs, answers);
    RunnableGraph(p, g);
    FrontierIsReady(p, g, outputs.Keys);
    forall i | 0 <= i < |p.stages| && p.stages[i].node in after
      ensures Typed(p.stages[i].outputTypes, after[p.stages[i].node])
    {
      SettledIsTyped(p, g, frontier, inputs, outputs, answers, i);
    }
    MoreOutputs(p, g, outputs, after);
  }

  lemma RunnableGraph(p: Policy, g: Graph)
    requires Runnable(p, g)
    ensures IsGraphOfNodes(g, p.workflow.nodes) && OneStagePerNode(p)
  {
  }

  lemma MoreOutputs(p: Policy, g: Graph, outputs: map<Id, Record>, after: map<Id, Record>)
    requires OutputsValid(p, g, outputs) && after.Keys == outputs.Keys + Ready(g, outputs.Keys)
    requires forall i | 0 <= i < |p.stages| && p.stages[i].node in after ::
        Typed(p.stages[i].outputTypes, after[p.stages[i].node])
    ensures OutputsValid(p, g, after)
  {
    hide Typed;
  }

  lemma SettledIsTyped(p: Policy, g: Graph, frontier: seq<Id>, inputs: Record, outputs: map<Id, Record>,
      answers: Answers, i: nat)
    requires Runnable(p, g) && OutputsValid(p, g, outputs) && i < |p.stages|
    requires p.stages[i].node in Settled(p, frontier, inputs, outputs, answers)
    ensures Typed(p.stages[i].outputTypes, Settled(p, frontier, inputs, outputs, answers)[p.stages[i].node])
  {
    hide Runnable, Typed, StageOf, Dispatched, Output;
    var id := p.stages[i].node;
    RunnableGraph(p, g);
    SameStage(p, i);
    OutputTyped(p, id, inputs, outputs, answers);
  }

  lemma OutputTyped(p: Policy, id: Id, inputs: Record, outputs: map<Id, Record>, answers: Answers)
    ensures
      var output, k := Output(p, id, inputs, outputs, answers), StageOf(p.stages, id);
      output.Some? ==> k < |p.stages| && Typed(p.stages[k].outputTypes, output.value)
  {
    hide Typed, Dispatched;
  }

  lemma SameStage(p: Policy, i: nat)
    requires OneStagePerNode(p) && i < |p.stages|
    ensures StageOf(p.stages, p.stages[i].node) == i
  {
  }

  // All outputs are there exactly when as many as stages are.
  lemma DoneIsAll(p: Policy, g: Graph, outputs: map<Id, Record>)
    requires Runnable(p, g) && OutputsValid(p, g, outputs)
    ensures |outputs| >= |p.stages| <==> g.Keys <= outputs.Keys
  {
    hide *;
    StageCount(p, g);
    OutputsAreNodes(p, g, outputs);
    assert |outputs| == |outputs.Keys|;
    if g.Keys <= outputs.Keys {
      assert outputs.Keys == g.Keys;
    } else {
      Smaller(outputs.Keys, g.Keys);
    }
  }

  lemma OutputsAreNodes(p: Policy, g: Graph, outputs: map<Id, Record>)
    requires OutputsValid(p, g, outputs)
    ensures outputs.Keys <= g.Keys
  {
  }

  lemma StageCount(p: Policy, g: Graph)
    requires Runnable(p, g)
    ensures |g.Keys| == |p.stages|
  {
    hide NodeIds, ToSet, WorkflowValid, PromptsBound, AllFit, InBudget, InputsTyped, Closed, Rankable;
    SameIdSets(p);
    ToSetSize(StageIds(p.stages));
    NodeIdsAre(p.workflow.nodes, g);
  }

  lemma NodeIdsAre(nodes: seq<Node>, g: Graph)
    requires IsGraphOfNodes(g, nodes)
    ensures ToSet(NodeIds(nodes)) == g.Keys
  {
    var ids := NodeIds(nodes);
    forall x | x in g.Keys
      ensures x in ToSet(ids)
    {
      var i :| 0 <= i < |nodes| && nodes[i].id == x;
      assert ids[i] == x;
    }
  }

  function NodesIn(ds: seq<Dispatch>): set<Id> {
    set i | 0 <= i < |ds| :: ds[i].node
  }

  // Each node once, in the order of the identifiers, and each finds all it reads.
  ghost predicate ProperFrontier(p: Policy, ds: seq<Dispatch>) {
    && (forall i, j | 0 <= i < j < |ds| :: ds[i].node < ds[j].node)
    && (forall i | 0 <= i < |ds| ::
         var k := StageOf(p.stages, ds[i].node);
         k < |p.stages| && ds[i].bound.Some? && Typed(p.stages[k].inputTypes, ds[i].bound.value))
  }

  lemma {:induction false} FrontierUnique(nodes: seq<Node>, done: set<Id>)
    requires DistinctBy(nodes, (n: Node) => n.id)
    ensures Distinct(Frontier(nodes, done))
    decreases |nodes|
  {
    if nodes != [] {
      FrontierUnique(nodes[1..], done);
      var rest := Frontier(nodes[1..], done);
      FrontierMeans(nodes[1..], done);
      assert nodes[0].id !in rest by {
        assert forall i | 0 <= i < |nodes[1..]| :: nodes[1..][i] == nodes[i + 1];
      }
      InsertKeepsDistinct(nodes[0].id, rest, AtMost);
    }
  }

  lemma FrontierIsProper(p: Policy, g: Graph, inputs: Record, outputs: map<Id, Record>)
    requires Runnable(p, g) && Typed(p.inputTypes, inputs) && OutputsValid(p, g, outputs)
    ensures
      var frontier := Frontier(p.workflow.nodes, outputs.Keys);
      var ds := Dispatches(p, frontier, inputs, outputs);
      ProperFrontier(p, ds) && NodesIn(ds) == Ready(g, outputs.Keys)
  {
    hide Runnable, Frontier, Ready, OutputsValid, StageOf, Typed, Dispatched, NodesIn, ToSet;
    RunnableGraph(p, g);
    var frontier := Frontier(p.workflow.nodes, outputs.Keys);
    var ds := Dispatches(p, frontier, inputs, outputs);
    FrontierIsReady(p, g, outputs.Keys);
    NodesAreUnique(p, g);
    FrontierUnique(p.workflow.nodes, outputs.Keys);
    FrontierMeans(p.workflow.nodes, outputs.Keys);
    forall i | 0 <= i < |ds|
      ensures
        var k := StageOf(p.stages, ds[i].node);
        k < |p.stages| && ds[i].bound.Some? && Typed(p.stages[k].inputTypes, ds[i].bound.value)
    {
      InToSet(frontier, i);
      DispatchIsBound(p, g, inputs, outputs, frontier[i]);
      DispatchedNode(p, frontier[i], inputs, outputs);
    }
    forall i | 0 <= i < |ds|
      ensures ds[i].node == frontier[i]
    {
      DispatchedNode(p, frontier[i], inputs, outputs);
    }
    SameNodes(ds, frontier);
  }

  lemma InToSet(ids: seq<Id>, i: nat)
    requires i < |ids|
    ensures ids[i] in ToSet(ids)
  {
  }

  lemma SameNodes(ds: seq<Dispatch>, ids: seq<Id>)
    requires |ds| == |ids| && forall i | 0 <= i < |ds| :: ds[i].node == ids[i]
    ensures NodesIn(ds) == ToSet(ids)
  {
  }

  lemma DispatchedNode(p: Policy, id: Id, inputs: Record, outputs: map<Id, Record>)
    ensures Dispatched(p, id, inputs, outputs).node == id
  {
  }

  lemma NodesAreUnique(p: Policy, g: Graph)
    requires Runnable(p, g)
    ensures UniqueNodes(p.workflow)
  {
  }

  // Nobody stops the run, no stage needs approval, and no stage fails on inputs of its types.
  ghost predicate Undisturbed(p: Policy, answers: Answers, stops: nat -> bool) {
    && (forall k :: !stops(k))
    && (forall i | 0 <= i < |p.workflow.nodes| :: p.workflow.nodes[i].kind != HumanApproval)
    && (forall i, bound | 0 <= i < |p.stages| && Typed(p.stages[i].inputTypes, bound) ::
         answers(p.stages[i].node, bound).Some?
             && Typed(p.stages[i].outputTypes, answers(p.stages[i].node, bound).value))
  }

  lemma NoneFails(p: Policy, g: Graph, inputs: Record, outputs: map<Id, Record>, answers: Answers, stops: nat -> bool)
    requires Runnable(p, g) && Typed(p.inputTypes, inputs) && OutputsValid(p, g, outputs)
        && Undisturbed(p, answers, stops)
    ensures !AnyFailed(p, Frontier(p.workflow.nodes, outputs.Keys), inputs, outputs, answers)
    ensures !NeedsApproval(p.workflow.nodes, outputs.Keys)
  {
    hide Runnable, Frontier, Ready, OutputsValid, Typed, Dispatched, Output, Undisturbed, ToSet;
    RunnableGraph(p, g);
    var frontier := Frontier(p.workflow.nodes, outputs.Keys);
    FrontierIsReady(p, g, outputs.Keys);
    NoApproval(p, answers, stops, outputs.Keys);
    forall i | 0 <= i < |frontier|
      ensures Output(p, frontier[i], inputs, outputs, answers).Some?
    {
      InToSet(frontier, i);
      DispatchIsBound(p, g, inputs, outputs, frontier[i]);
      Answered(p, frontier[i], inputs, outputs, answers, stops);
    }
  }

  lemma NoApproval(p: Policy, answers: Answers, stops: nat -> bool, done: set<Id>)
    requires Undisturbed(p, answers, stops)
    ensures !NeedsApproval(p.workflow.nodes, done)
  {
  }

  lemma Answered(p: Policy, id: Id, inputs: Record, outputs: map<Id, Record>, answers: Answers, stops: nat -> bool)
    requires Undisturbed(p, answers, stops)
    requires
      var d, i := Dispatched(p, id, inputs, outputs), StageOf(p.stages, id);
      i < |p.stages| && d.bound.Some? && Typed(p.stages[i].inputTypes, d.bound.value)
    ensures Output(p, id, inputs, outputs, answers).Some?
  {
    hide Typed, Dispatched;
  }

  // The frontiers of a trace are the first of these layers, all of them if the run succeeds.
  ghost predicate Follows(p: Policy, t: Trace, layers: seq<set<Id>>) {
    && t.end != NoFrontier
    && |t.frontiers| <= |layers|
    && (forall k | 0 <= k < |t.frontiers| :: ProperFrontier(p, t.frontiers[k]) && NodesIn(t.frontiers[k]) == layers[k])
    && (t.end == Succeeded ==> |t.frontiers| == |layers|)
  }

  lemma FollowsStep(p: Policy, ds: seq<Dispatch>, t: Trace, layers: seq<set<Id>>)
    requires ProperFrontier(p, ds) && layers != [] && NodesIn(ds) == layers[0]
    ensures Follows(p, t, layers[1..]) ==> Follows(p, Prefixed([ds], t), layers)
    ensures Follows(p, Trace([ds], Failed), layers)
  {
    hide ProperFrontier, NodesIn;
    var all := Prefixed([ds], t).frontiers;
    if Follows(p, t, layers[1..]) {
      forall k | 0 <= k < |all|
        ensures ProperFrontier(p, all[k]) && NodesIn(all[k]) == layers[k]
      {
        if k > 0 {
          assert all[k] == t.frontiers[k - 1] && layers[k] == layers[1..][k - 1];
        }
      }
    }
  }

  lemma NothingDispatched(p: Policy, layers: seq<set<Id>>)
    ensures Follows(p, Trace([], Stopped), layers) && Follows(p, Trace([], AwaitingApproval), layers)
    ensures layers == [] ==> Follows(p, Trace([], Succeeded), layers)
  {
  }

  lemma NoMoreLayers(g: Graph, done: set<Id>)
    ensures g.Keys <= done ==> Layers(g, done) == []
  {
  }

  lemma {:induction false} RestFollows(p: Policy, g: Graph, inputs: Record, outputs: map<Id, Record>,
      answers: Answers, stops: nat -> bool, k: nat)
    requires Runnable(p, g) && Typed(p.inputTypes, inputs) && OutputsValid(p, g, outputs)
    ensures
      var t := Rest(p, inputs, outputs, answers, stops, k);
      Follows(p, t, Layers(g, outputs.Keys)) && (Undisturbed(p, answers, stops) ==> t.end == Succeeded)
    decreases |IdsOf(p.workflow.nodes) - outputs.Keys|
  {
    hide *;
    GraphIsAcyclic(p, g);
    DoneIsAll(p, g, outputs);
    NotStuck(p, g, outputs.Keys);
    FrontierIsProper(p, g, inputs, outputs);
    if Undisturbed(p, answers, stops) {
      NoneFails(p, g, inputs, outputs, answers, stops);
      NotStopped(p, answers, stops, k);
    }
    RestStep(p, inputs, outputs, answers, stops, k);
    LayersStep(g, outputs.Keys);
    NothingDispatched(p, Layers(g, outputs.Keys));
    NoMoreLayers(g, outputs.Keys);
    RunnableGraph(p, g);
    FrontierIsReady(p, g, outputs.Keys);
    var nodes, layers := p.workflow.nodes, Layers(g, outputs.Keys);
    var frontier := Frontier(nodes, outputs.Keys);
    var ds := Dispatches(p, frontier, inputs, outputs);
    if |outputs| < |p.stages| && !stops(k) && !NeedsApproval(nodes, outputs.Keys) {
      FollowsStep(p, ds, Trace([], Stopped), layers);
      if !AnyFailed(p, frontier, inputs, outputs, answers) {
        var settled := Settled(p, frontier, inputs, outputs, answers);
        SettledIsValid(p, g, inputs, outputs, answers);
        RestFollows(p, g, inputs, settled, answers, stops, k + 1);
        FollowsStep(p, ds, Rest(p, inputs, settled, answers, stops, k + 1), layers);
        assert layers[1..] == Layers(g, settled.Keys);
        PrefixedEnds(ds, Rest(p, inputs, settled, answers, stops, k + 1));
      }
    }
  }

  lemma NotStopped(p: Policy, answers: Answers, stops: nat -> bool, k: nat)
    requires Undisturbed(p, answers, stops)
    ensures !stops(k)
  {
  }

  lemma PrefixedEnds(ds: seq<Dispatch>, t: Trace)
    ensures Prefixed([ds], t).end == t.end
  {
  }

  lemma GraphIsAcyclic(p: Policy, g: Graph)
    requires Runnable(p, g)
    ensures Closed(g) && Rankable(g)
  {
  }

  lemma NotStuck(p: Policy, g: Graph, done: set<Id>)
    requires Runnable(p, g)
    ensures !(g.Keys <= done) ==> Frontier(p.workflow.nodes, done) != [] && Ready(g, done) != {}
  {
    if !(g.Keys <= done) {
      NeverStuck(g, done);
      FrontierIsReady(p, g, done);
      hide Frontier, Ready;
      var x :| x in Ready(g, done);
      assert x in ToSet(Frontier(p.workflow.nodes, done));
    }
  }

  /** Whatever the stages answer and whenever the run is stopped: the error of an empty frontier never
      comes up; the frontiers are the first layers of the workflow's graph, in order; within a frontier
      every stage is dispatched once and finds all it reads, with its declared types. An undisturbed
      run succeeds, and a run that succeeds has gone through all layers. */
  lemma RunFollowsLayers(p: Policy, g: Graph, inputs: Record, answers: Answers, stops: nat -> bool)
    requires Runnable(p, g) && Typed(p.inputTypes, inputs)
    ensures
      var t := Rest(p, inputs, map[], answers, stops, 0);
      Follows(p, t, Layers(g, {})) && (Undisturbed(p, answers, stops) ==> t.end == Succeeded)
  {
    NoOutputs(p, g);
    var none: map<Id, Record> := map[];
    RestFollows(p, g, inputs, none, answers, stops, 0);
    assert none.Keys == {};
  }

  lemma NoOutputs(p: Policy, g: Graph)
    ensures OutputsValid(p, g, map[])
  {
  }

  ghost predicate NoNodeTwice(fs: seq<seq<Dispatch>>) {
    forall k, i, l, j | 0 <= k < |fs| && 0 <= i < |fs[k]| && 0 <= l < |fs| && 0 <= j < |fs[l]|
        && fs[k][i].node == fs[l][j].node ::
      k == l && i == j
  }

  /** No stage is ever dispatched twice, and whatever a stage depends on was dispatched in an earlier
      frontier, all of which succeeded. */
  lemma StagesRunOnce(p: Policy, g: Graph, inputs: Record, answers: Answers, stops: nat -> bool)
    requires Runnable(p, g) && Typed(p.inputTypes, inputs)
    ensures
      var fs := Rest(p, inputs, map[], answers, stops, 0).frontiers;
      && NoNodeTwice(fs)
      && (forall k, i, d | 0 <= k < |fs| && 0 <= i < |fs[k]| && fs[k][i].node in g && d in g[fs[k][i].node] ::
           exists l :: 0 <= l < k && d in NodesIn(fs[l]))
  {
    hide Runnable, Typed, Rest, Layers, NoNodeTwice, NodesIn;
    RunFollowsLayers(p, g, inputs, answers, stops);
    LayersAreApart(g, {});
    var fs: seq<seq<Dispatch>> := Rest(p, inputs, map[], answers, stops, 0).frontiers;
    NoneTwice(p, fs, Layers(g, {}));
    forall k, i, d | 0 <= k < |fs| && 0 <= i < |fs[k]| && fs[k][i].node in g && d in g[fs[k][i].node]
      ensures exists l :: 0 <= l < k && d in NodesIn(fs[l])
    {
      DispatchedIn(fs[k], i);
      assert InEarlier(Layers(g, {}), k, d);
      var l :| 0 <= l < k && l < |Layers(g, {})| && d in Layers(g, {})[l];
      assert d in NodesIn(fs[l]);
    }
  }

  lemma DispatchedIn(ds: seq<Dispatch>, i: nat)
    requires i < |ds|
    ensures ds[i].node in NodesIn(ds)
  {
  }

  // Frontiers from disjoint layers, each in order.
  lemma NoneTwice(p: Policy, fs: seq<seq<Dispatch>>, layers: seq<set<Id>>)
    requires |fs| <= |layers|
    requires forall k | 0 <= k < |fs| :: ProperFrontier(p, fs[k]) && NodesIn(fs[k]) == layers[k]
    requires forall k, l | 0 <= k < l < |layers| :: layers[k] !! layers[l]
    ensures NoNodeTwice(fs)
  {
    hide NodesIn;
    forall k, i, l, j | 0 <= k < |fs| && 0 <= i < |fs[k]| && 0 <= l < |fs| && 0 <= j < |fs[l]|
        && fs[k][i].node == fs[l][j].node
      ensures k == l && i == j
    {
      DispatchedIn(fs[k], i);
      DispatchedIn(fs[l], j);
      assert fs[k][i].node in layers[k] && fs[l][j].node in layers[l];
      assert ProperFrontier(p, fs[k]);
    }
  }

  /** From plan to run: running the policy compiled from a ready decision, the k-th frontier holds exactly
      the stages of the decision's k-th parallel wave; an undisturbed run goes through all waves and
      succeeds. */
  lemma CompiledRunFollowsWaves(specs: seq<Spec>, g: Graph, profile: Profile, options: Options, choose: Selection,
      d: Decision, planId: nat,
                                inputs: Record, answers: Answers, stops: nat -> bool)
    requires ValidPlan(specs, g) && ValidProfile(profile) && IsPlan(d, specs, g, profile, options, choose) && d.ready
    requires forall i | 0 <= i < |specs| :: ChoiceFor(profile, choose(specs[i]))
    requires Typed(map[INPUT := Text], inputs)
    ensures |d.stages| == |d.order|
    ensures
      var t := Rest(Draft(d, profile, planId), inputs, map[], answers, stops, 0);
      && t.end != NoFrontier && |t.frontiers| <= |d.waves|
      && (forall k | 0 <= k < |t.frontiers| :: NodesIn(t.frontiers[k]) == ToSet(d.waves[k]))
      && (t.end == Succeeded ==> |t.frontiers| == |d.waves|)
      && (Undisturbed(Draft(d, profile, planId), answers, stops) ==> t.end == Succeeded)
  {
    hide *;
    PlanWaves(specs, g, profile, options, choose, d);
    DecisionIsSound(specs, g, profile, options, choose, d);
    CompiledIsExecutable(specs, g, profile, options, choose, d, planId);
    DraftGraph(d, g, profile, planId);
    var p := Draft(d, profile, planId);
    SoundGraph(d, g, profile);
    IsRunnable(p, g);
    DraftInputs(d, profile, planId);
    RunFollowsLayers(p, g, inputs, answers, stops);
    WavesFollowed(p, Rest(p, inputs, map[], answers, stops, 0), Layers(g, {}), d.waves);
  }

  lemma PlanWaves(specs: seq<Spec>, g: Graph, profile: Profile, options: Options, choose: Selection, d: Decision)
    requires ValidPlan(specs, g) && IsPlan(d, specs, g, profile, options, choose)
    ensures |d.stages| == |d.order| && |d.waves| == |Layers(g, {})|
    ensures forall k | 0 <= k < |d.waves| :: ToSet(d.waves[k]) == Layers(g, {})[k]
  {
    hide Layers, Waves, InOrder, ToSet, NoBlocker;
    OrderAndWaves(specs, g);
  }

  lemma IsRunnable(p: Policy, g: Graph)
    requires WorkflowValid(p.workflow) && ExecutableBindings(p) && IsGraphOfNodes(g, p.workflow.nodes) && Closed(g)
        && Rankable(g)
    ensures Runnable(p, g)
  {
    hide WorkflowValid, ExecutableBindings, IsGraphOfNodes, Closed, Rankable;
  }

  lemma DraftInputs(d: Decision, profile: Profile, planId: nat)
    requires |d.stages| == |d.order|
    ensures Draft(d, profile, planId).inputTypes == map[INPUT := Text]
  {
  }

  lemma WavesFollowed(p: Policy, t: Trace, layers: seq<set<Id>>, waves: seq<seq<Id>>)
    requires Follows(p, t, layers) && |waves| == |layers| && forall k | 0 <= k < |waves| :: ToSet(waves[k]) == layers[k]
    ensures t.end != NoFrontier && |t.frontiers| <= |waves|
    ensures forall k | 0 <= k < |t.frontiers| :: NodesIn(t.frontiers[k]) == ToSet(waves[k])
    ensures t.end == Succeeded ==> |t.frontiers| == |waves|
  {
    hide ProperFrontier, NodesIn, ToSet;
  }
}

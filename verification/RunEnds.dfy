/**
 How a run ends, read off the record of its frontiers: it fails with the first frontier in which a stage
 does not complete, and otherwise stops, waits or succeeds by what has been dispatched.
 */
module RunEnds {
  import opened Basics
  import opened DependencyGraph
  import opened Planner
  import opened ValueTypes
  import opened PolicyCompiler
  import opened Runner

  // The stage got its inputs and answered, all of the declared types.
  ghost predicate Completes(p: Policy, d: Dispatch, answers: Answers) {
    && d.bound.Some? && answers(d.node, d.bound.value).Some?
    && exists i :: 0 <= i < |p.stages| && CompletesAs(p.stages[i], d, answers)
  }

  ghost predicate CompletesAs(s: Stage, d: Dispatch, answers: Answers)
    requires d.bound.Some? && answers(d.node, d.bound.value).Some?
  {
    && s.node == d.node && OfTypes(s.inputTypes, d.bound.value)
    && OfTypes(s.outputTypes, answers(d.node, d.bound.value).value)
  }

  // The declared names, with values of the declared types; anything is JSON.
  predicate OfTypes(types: map<Id, ValueType>, values: Record) {
    && types.Keys == values.Keys
    && forall x | x in types ::
         && (types[x] == Text ==> values[x].TextValue?) && (types[x] == Number ==> values[x].NumberValue?)
         && (types[x] == Boolean ==> values[x].BooleanValue?)
  }

  lemma TypedExactly(types: map<Id, ValueType>, values: Record)
    ensures Typed(types, values) <==> OfTypes(types, values)
  {
  }

  ghost predicate AllComplete(p: Policy, ds: seq<Dispatch>, answers: Answers) {
    forall i | 0 <= i < |ds| :: Completes(p, ds[i], answers)
  }

  ghost predicate WasDispatched(fs: seq<seq<Dispatch>>, id: Id) {
    exists f :: 0 <= f < |fs| && id in NodesIn(fs[f])
  }

  ghost predicate AllDispatched(g: Graph, fs: seq<seq<Dispatch>>) {
    forall id | id in g :: WasDispatched(fs, id)
  }

  // A stage for a human is next.
  ghost predicate ApprovalIsNext(p: Policy, fs: seq<seq<Dispatch>>) {
    exists k :: 0 <= k < |p.workflow.nodes| && IsApproval(p.workflow.nodes[k], fs)
  }

  ghost predicate IsApproval(n: Node, fs: seq<seq<Dispatch>>) {
    n.kind == HumanApproval && !WasDispatched(fs, n.id) && forall d | d in n.deps :: WasDispatched(fs, d)
  }

  // The end of a run after these frontiers, of which the first ones are past.
  ghost predicate EndsBy(p: Policy, g: Graph, fs: seq<seq<Dispatch>>, past: nat, end: End, answers: Answers,
      stops: nat -> bool)
  {
    && past <= |fs|
    && (forall f | past <= f < |fs| :: !stops(f))
    && (forall f | past <= f < |fs| - 1 :: AllComplete(p, fs[f], answers))
    && (end == Failed <==> past < |fs| && !AllComplete(p, fs[|fs| - 1], answers))
    && (end != Failed ==>
          && (end == Succeeded <==> AllDispatched(g, fs))
          && (end == Stopped <==> !AllDispatched(g, fs) && stops(|fs|))
          && (end == AwaitingApproval <==> !AllDispatched(g, fs) && !stops(|fs|) && ApprovalIsNext(p, fs)))
  }

  ghost predicate DoneBy(fs: seq<seq<Dispatch>>, done: set<Id>) {
    forall id :: id in done <==> WasDispatched(fs, id)
  }

  lemma CompletesIsOutput(p: Policy, id: Id, inputs: Record, outputs: map<Id, Record>, answers: Answers)
    requires OneStagePerNode(p)
    ensures Completes(p, Dispatched(p, id, inputs, outputs), answers) <==>
            Output(p, id, inputs, outputs, answers).Some?
  {
    hide Typed, OfTypes, Bound, HasNode, HasStage;
    var d := Dispatched(p, id, inputs, outputs);
    forall types, values
      ensures Typed(types, values) <==> OfTypes(types, values)
    {
      TypedExactly(types, values);
    }
    if Completes(p, d, answers) {
      var i :| 0 <= i < |p.stages| && CompletesAs(p.stages[i], d, answers);
      SameStage(p, i);
    }
    if Output(p, id, inputs, outputs, answers).Some? {
      assert CompletesAs(p.stages[StageOf(p.stages, id)], d, answers);
    }
  }

  lemma CompleteIsNoneFailed(p: Policy, frontier: seq<Id>, inputs: Record, outputs: map<Id, Record>, answers: Answers)
    requires OneStagePerNode(p)
    ensures AllComplete(p, Dispatches(p, frontier, inputs, outputs), answers) <==>
            !AnyFailed(p, frontier, inputs, outputs, answers)
  {
    hide Completes, Output, Dispatched, OneStagePerNode;
    var ds := Dispatches(p, frontier, inputs, outputs);
    forall i | 0 <= i < |frontier|
      ensures Completes(p, ds[i], answers) <==> Output(p, frontier[i], inputs, outputs, answers).Some?
    {
      CompletesIsOutput(p, frontier[i], inputs, outputs, answers);
    }
  }

  lemma DoneNext(fs: seq<seq<Dispatch>>, done: set<Id>, ds: seq<Dispatch>)
    requires DoneBy(fs, done)
    ensures DoneBy(fs + [ds], done + NodesIn(ds))
  {
    hide NodesIn;
    var all := fs + [ds];
    forall id
      ensures id in done + NodesIn(ds) <==> WasDispatched(all, id)
    {
      if WasDispatched(fs, id) {
        var f :| 0 <= f < |fs| && id in NodesIn(fs[f]);
        assert all[f] == fs[f];
      }
      if id in NodesIn(ds) {
        assert all[|fs|] == ds;
      }
      if WasDispatched(all, id) {
        var f :| 0 <= f < |all| && id in NodesIn(all[f]);
        if f < |fs| {
          assert all[f] == fs[f];
        }
      }
    }
  }

  lemma ApprovalIsNeeded(p: Policy, fs: seq<seq<Dispatch>>, done: set<Id>)
    requires DoneBy(fs, done)
    ensures ApprovalIsNext(p, fs) <==> NeedsApproval(p.workflow.nodes, done)
  {
    hide WasDispatched;
    if ApprovalIsNext(p, fs) {
      var k :| 0 <= k < |p.workflow.nodes| && IsApproval(p.workflow.nodes[k], fs);
      assert CanRun(p.workflow.nodes[k], done);
    }
    if NeedsApproval(p.workflow.nodes, done) {
      var k :| 0 <= k < |p.workflow.nodes| && CanRun(p.workflow.nodes[k], done)
        && p.workflow.nodes[k].kind == HumanApproval;
      assert IsApproval(p.workflow.nodes[k], fs);
    }
  }

  lemma AllIsDone(g: Graph, fs: seq<seq<Dispatch>>, done: set<Id>)
    requires DoneBy(fs, done)
    ensures AllDispatched(g, fs) <==> g.Keys <= done
  {
    hide WasDispatched;
  }

  // Nothing more is dispatched.
  lemma EndsHere(p: Policy, g: Graph, fs: seq<seq<Dispatch>>, t: Trace, answers: Answers, stops: nat -> bool,
      done: set<Id>)
    requires DoneBy(fs, done) && t.frontiers == [] && t.end != Failed
    requires t.end == Succeeded <==> g.Keys <= done
    requires t.end == Stopped <==> !(g.Keys <= done) && stops(|fs|)
    requires t.end == AwaitingApproval <==> !(g.Keys <= done) && !stops(|fs|) && NeedsApproval(p.workflow.nodes, done)
    ensures EndsBy(p, g, fs + t.frontiers, |fs|, t.end, answers, stops)
  {
    hide DoneBy, AllDispatched, ApprovalIsNext, NeedsApproval, AllComplete;
    AllIsDone(g, fs, done);
    ApprovalIsNeeded(p, fs, done);
    assert fs + t.frontiers == fs;
  }

  lemma EndsFailing(p: Policy, g: Graph, fs: seq<seq<Dispatch>>, ds: seq<Dispatch>, t: Trace, answers: Answers,
      stops: nat -> bool)
    requires !stops(|fs|) && !AllComplete(p, ds, answers) && t == Trace([ds], Failed)
    ensures EndsBy(p, g, fs + t.frontiers, |fs|, t.end, answers, stops)
  {
    hide AllComplete;
    assert (fs + [ds])[|fs|] == ds;
  }

  lemma EndsLater(p: Policy, g: Graph, fs: seq<seq<Dispatch>>, ds: seq<Dispatch>, rest: Trace, t: Trace,
      answers: Answers, stops: nat -> bool)
    requires !stops(|fs|) && AllComplete(p, ds, answers) && t == Prefixed([ds], rest)
    requires EndsBy(p, g, fs + [ds] + rest.frontiers, |fs| + 1, rest.end, answers, stops)
    ensures EndsBy(p, g, fs + t.frontiers, |fs|, t.end, answers, stops)
  {
    hide AllComplete, AllDispatched, ApprovalIsNext;
    Regroup(fs, [ds], rest.frontiers);
    var all := fs + [ds] + rest.frontiers;
    assert all[|fs|] == ds;
  }

  // What one turn comes to.
  lemma Turn(p: Policy, g: Graph, inputs: Record, outputs: map<Id, Record>, answers: Answers, stops: nat -> bool,
      k: nat)
    requires Runnable(p, g) && Typed(p.inputTypes, inputs) && OutputsValid(p, g, outputs)
    ensures
      var nodes, t := p.workflow.nodes, Rest(p, inputs, outputs, answers, stops, k);
      var frontier := Frontier(nodes, outputs.Keys);
      var ds := Dispatches(p, frontier, inputs, outputs);
      if g.Keys <= outputs.Keys then t == Trace([], Succeeded)
      else if stops(k) then t == Trace([], Stopped)
      else if NeedsApproval(nodes, outputs.Keys) then t == Trace([], AwaitingApproval)
      else if !AllComplete(p, ds, answers) then t == Trace([ds], Failed)
      else
        var settled := Runner.Settled(p, frontier, inputs, outputs, answers);
        && OutputsValid(p, g, settled) && settled.Keys == outputs.Keys + NodesIn(ds)
        && t == Prefixed([ds], Rest(p, inputs, settled, answers, stops, k + 1))
        && |IdsOf(nodes) - settled.Keys| < |IdsOf(nodes) - outputs.Keys|
  {
    hide *;
    DoneIsAll(p, g, outputs);
    NotStuck(p, g, outputs.Keys);
    RestStep(p, inputs, outputs, answers, stops, k);
    RunnableGraph(p, g);
    var frontier := Frontier(p.workflow.nodes, outputs.Keys);
    CompleteIsNoneFailed(p, frontier, inputs, outputs, answers);
    FrontierIsReady(p, g, outputs.Keys);
    FrontierIsProper(p, g, inputs, outputs);
    if frontier != [] && !AnyFailed(p, frontier, inputs, outputs, answers) {
      SettledIsValid(p, g, inputs, outputs, answers);
    }
  }

  lemma {:induction false} RestEnds(p: Policy, g: Graph, inputs: Record, outputs: map<Id, Record>, answers: Answers,
      stops: nat -> bool, fs: seq<seq<Dispatch>>)
    requires Runnable(p, g) && Typed(p.inputTypes, inputs) && OutputsValid(p, g, outputs)
    requires DoneBy(fs, outputs.Keys)
    ensures
      var t := Rest(p, inputs, outputs, answers, stops, |fs|);
      EndsBy(p, g, fs + t.frontiers, |fs|, t.end, answers, stops)
    decreases |IdsOf(p.workflow.nodes) - outputs.Keys|
  {
    hide *;
    var t, nodes := Rest(p, inputs, outputs, answers, stops, |fs|), p.workflow.nodes;
    Turn(p, g, inputs, outputs, answers, stops, |fs|);
    if g.Keys <= outputs.Keys || stops(|fs|) || NeedsApproval(nodes, outputs.Keys) {
      EndsHere(p, g, fs, t, answers, stops, outputs.Keys);
    } else {
      var frontier := Frontier(nodes, outputs.Keys);
      var ds := Dispatches(p, frontier, inputs, outputs);
      if !AllComplete(p, ds, answers) {
        EndsFailing(p, g, fs, ds, t, answers, stops);
      } else {
        var settled := Runner.Settled(p, frontier, inputs, outputs, answers);
        DoneNext(fs, outputs.Keys, ds);
        assert |fs + [ds]| == |fs| + 1;
        RestEnds(p, g, inputs, settled, answers, stops, fs + [ds]);
        EndsLater(p, g, fs, ds, Rest(p, inputs, settled, answers, stops, |fs| + 1), t, answers, stops);
      }
    }
  }

  /** How a run ends: it fails exactly if a stage of its last frontier does not complete, and stages of
      earlier frontiers all do; otherwise it succeeds exactly if every stage was dispatched, is stopped
      exactly if it was asked to before the next frontier, and waits exactly if a stage for a human is
      next. No frontier is dispatched after a request to stop. */
  lemma RunEndsExactly(p: Policy, g: Graph, inputs: Record, answers: Answers, stops: nat -> bool)
    requires Runnable(p, g) && Typed(p.inputTypes, inputs)
    ensures
      var t := Rest(p, inputs, map[], answers, stops, 0);
      EndsBy(p, g, t.frontiers, 0, t.end, answers, stops)
  {
    hide Runnable, Typed, OutputsValid, Rest, EndsBy, IdsOf;
    NoOutputs(p, g);
    var t := Rest(p, inputs, map[], answers, stops, 0);
    var none: map<Id, Record> := map[];
    assert none.Keys == {} && DoneBy([], {});
    RestEnds(p, g, inputs, none, answers, stops, []);
    assert [] + t.frontiers == t.frontiers;
  }
}

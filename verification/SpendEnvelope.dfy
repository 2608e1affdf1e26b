/**
 Spending nests: attempts within their stage, stages within their policy, and all child runs of a
 comparison within the budget of its request, whatever happens to the queue in between. It nests in
 the same way for all that a budget limits: money, model calls and tool calls.
 */
module SpendEnvelope {
  import opened Basics
  import opened DependencyGraph
  import opened Planner
  import opened PolicyCompiler
  import Engine = AttemptEngine
  import Run = Runner
  import Queue = RuntimeQueue

  // ----- one run of a policy -----

  // What the inference of a stage meets.
  datatype Situation = Situation(
    candidates: seq<Engine.Candidate>, call: Engine.Call, retained: bool, world: Engine.World)

  // What a whole run meets.
  datatype Execution = Execution(inputs: Run.Record, answers: Run.Answers, stops: nat -> bool,
      situations: Id -> Situation)

  ghost predicate ValidSituation(s: Situation) {
    s.candidates != [] && Engine.ValidCandidates(s.candidates)
  }

  ghost predicate ValidExecution(p: Policy, e: Execution) {
    Run.Typed(p.inputTypes, e.inputs) && forall id :: ValidSituation(e.situations(id))
  }

  function EngineStage(s: Stage): Engine.Stage {
    Engine.Stage(s.budget.maxCost, s.budget.maxInput, s.budget.maxOutput, s.budget.maxAttempts, s.maxRepairs,
        s.fallbackOn)
  }

  // What a budget limits.
  datatype Resource = Money | Calls | Tools

  function Limit(b: Budget, what: Resource): int {
    match what
    case Money => b.maxCost
    case Calls => b.maxCalls
    case Tools => b.maxTools
  }

  // Everything a stage uses when it is dispatched: a model stage reserves for its attempts and makes
  // them, a tool stage calls its tool once.
  function StageUse(s: Stage, situation: Situation, what: Resource): int {
    if what.Tools? then |s.tools|
    else if s.configuration.None? || situation.candidates == [] then 0
    else
      var trace := Engine.Trace(EngineStage(s), situation.candidates, situation.call,
                                situation.retained, situation.world);
      if what.Money? then Engine.Reserved(trace) else |trace|
  }

  function NodeUse(p: Policy, e: Execution, id: Id, what: Resource): int {
    var k := Run.StageOf(p.stages, id);
    if k < |p.stages| then StageUse(p.stages[k], e.situations(id), what) else 0
  }

  function NodesUse(p: Policy, e: Execution, ids: seq<Id>, what: Resource): int {
    if ids == [] then 0 else NodeUse(p, e, ids[0], what) + NodesUse(p, e, ids[1..], what)
  }

  function NodesOf(ds: seq<Run.Dispatch>): (ids: seq<Id>)
    ensures |ids| == |ds| && forall i | 0 <= i < |ds| :: ids[i] == ds[i].node
  {
    seq(|ds|, i requires 0 <= i < |ds| => ds[i].node)
  }

  function AllNodes(frontiers: seq<seq<Run.Dispatch>>): seq<Id> {
    if frontiers == [] then [] else NodesOf(frontiers[0]) + AllNodes(frontiers[1..])
  }

  // What all stages of one run use together.
  function RunUse(p: Policy, e: Execution, what: Resource): int {
    NodesUse(p, e, AllNodes(Run.Rest(p, e.inputs, map[], e.answers, e.stops, 0).frontiers), what)
  }

  ghost predicate CapsNonnegative(p: Policy) {
    forall i | 0 <= i < |p.stages| :: p.stages[i].budget.maxCost >= 0
  }

  lemma StageWithinCap(p: Policy, i: nat, situation: Situation, what: Resource)
    requires OneStagePerNode(p) && AllFit(p) && CapsNonnegative(p) && ValidSituation(situation) && i < |p.stages|
    ensures 0 <= StageUse(p.stages[i], situation, what) <= Limit(p.stages[i].budget, what)
  {
    hide Engine.Trace, Engine.ValidCandidates, Engine.Orderly, Engine.Advancing, TypesFit, PromptFits,
        WithinPolicy, RecoveryFits;
    var s := p.stages[i];
    assert HasNode(p.workflow, s.node);
    var k :| 0 <= k < |p.workflow.nodes| && p.workflow.nodes[k].id == s.node;
    assert StageFits(p, p.workflow.nodes[k], s);
    var stage := EngineStage(s);
    Engine.StageSpendBounded(stage, situation.candidates, situation.call, situation.retained, situation.world);
    Engine.StageAttemptsBounded(stage, situation.candidates, situation.call, situation.retained, situation.world);
  }

  // The caps of the stages with these nodes.
  function CapsIn(stages: seq<Stage>, ids: set<Id>, what: Resource): int {
    if stages == [] then 0
    else (if stages[0].node in ids then Limit(stages[0].budget, what) else 0) + CapsIn(stages[1..], ids, what)
  }

  function Caps(stages: seq<Stage>, what: Resource): seq<int> {
    match what
    case Money => CostsOf(stages)
    case Calls => CallsOf(stages)
    case Tools => ToolsOf(stages)
  }

  lemma CapsCons(stages: seq<Stage>, what: Resource)
    requires stages != []
    ensures Sum(Caps(stages, what)) == Limit(stages[0].budget, what) + Sum(Caps(stages[1..], what))
  {
    hide CostsOf, CallsOf, ToolsOf, Sum;
    SumCons(stages);
  }

  lemma {:induction false} CapsInAll(stages: seq<Stage>, ids: set<Id>, what: Resource)
    requires forall i | 0 <= i < |stages| :: stages[i].budget.maxCost >= 0
    ensures 0 <= CapsIn(stages, ids, what) <= Sum(Caps(stages, what))
    decreases |stages|
  {
    if stages != [] {
      CapsInAll(stages[1..], ids, what);
      CapsCons(stages, what);
    }
  }

  lemma {:induction false} CapsInNone(stages: seq<Stage>, ids: set<Id>, id: Id, what: Resource)
    requires forall i | 0 <= i < |stages| :: stages[i].node != id
    ensures CapsIn(stages, ids + {id}, what) == CapsIn(stages, ids, what)
    decreases |stages|
  {
    if stages != [] {
      CapsInNone(stages[1..], ids, id, what);
    }
  }

  lemma {:induction false} CapsInOne(stages: seq<Stage>, ids: set<Id>, k: nat, what: Resource)
    requires k < |stages| && stages[k].node !in ids && UniqueStages(stages)
    ensures CapsIn(stages, ids + {stages[k].node}, what) == CapsIn(stages, ids, what) + Limit(stages[k].budget, what)
    decreases |stages|
  {
    hide Limit;
    if k == 0 {
      CapsInNone(stages[1..], ids, stages[0].node, what);
    } else {
      CapsInOne(stages[1..], ids, k - 1, what);
    }
  }

  // Distinct stages use at most their own caps.
  lemma {:induction false} DistinctUse(p: Policy, e: Execution, ids: seq<Id>, what: Resource)
    requires OneStagePerNode(p) && AllFit(p) && CapsNonnegative(p) && forall id :: ValidSituation(e.situations(id))
    requires Distinct(ids)
    ensures 0 <= NodesUse(p, e, ids, what) <= CapsIn(p.stages, ToSet(ids), what)
    decreases |ids|
  {
    hide AllFit, StageUse, Limit, ValidSituation, CapsIn, Caps;
    if ids == [] {
      CapsInAll(p.stages, {}, what);
      assert ToSet(ids) == {};
    } else {
      var id, rest := ids[0], ids[1..];
      assert ids == [id] + rest;
      DistinctCons(id, rest);
      DistinctUse(p, e, rest, what);
      HeadSet(id, rest);
      var k := Run.StageOf(p.stages, id);
      if k < |p.stages| {
        StageWithinCap(p, k, e.situations(id), what);
        CapsInOne(p.stages, ToSet(rest), k, what);
      } else {
        CapsInNone(p.stages, ToSet(rest), id, what);
      }
    }
  }

  lemma HeadSet(id: Id, rest: seq<Id>)
    requires id !in rest
    ensures ToSet([id] + rest) == ToSet(rest) + {id} && id !in ToSet(rest)
  {
    var all := [id] + rest;
    assert all[0] == id && forall i | 0 <= i < |rest| :: all[i + 1] == rest[i];
  }

  lemma {:induction false} AllNodesFrom(fs: seq<seq<Run.Dispatch>>, id: Id)
    requires id in AllNodes(fs)
    ensures exists k, i :: 0 <= k < |fs| && 0 <= i < |fs[k]| && fs[k][i].node == id
    decreases |fs|
  {
    if id in NodesOf(fs[0]) {
      var i :| 0 <= i < |NodesOf(fs[0])| && NodesOf(fs[0])[i] == id;
      assert fs[0][i].node == id;
    } else {
      AllNodesFrom(fs[1..], id);
      var k, i :| 0 <= k < |fs[1..]| && 0 <= i < |fs[1..][k]| && fs[1..][k][i].node == id;
      assert fs[k + 1][i].node == id;
    }
  }

  lemma {:induction false} AllNodesDistinct(fs: seq<seq<Run.Dispatch>>)
    requires Run.NoNodeTwice(fs)
    ensures Distinct(AllNodes(fs))
    decreases |fs|
  {
    if fs != [] {
      var head, rest := NodesOf(fs[0]), fs[1..];
      TailOnce(fs);
      AllNodesDistinct(rest);
      forall i, j | 0 <= i < j < |head|
        ensures head[i] != head[j]
      {
        assert fs[0][i].node == head[i] && fs[0][j].node == head[j];
      }
      forall i | 0 <= i < |head|
        ensures head[i] !in AllNodes(rest)
      {
        HeadIsNew(fs, i);
      }
      DistinctAppend(head, AllNodes(rest));
    }
  }

  lemma TailOnce(fs: seq<seq<Run.Dispatch>>)
    requires fs != [] && Run.NoNodeTwice(fs)
    ensures Run.NoNodeTwice(fs[1..])
  {
    var rest: seq<seq<Run.Dispatch>> := fs[1..];
    forall k, i, l, j | 0 <= k < |rest| && 0 <= i < |rest[k]| && 0 <= l < |rest| && 0 <= j < |rest[l]|
        && rest[k][i].node == rest[l][j].node
      ensures k == l && i == j
    {
      assert fs[k + 1][i].node == fs[l + 1][j].node;
    }
  }

  lemma HeadIsNew(fs: seq<seq<Run.Dispatch>>, i: nat)
    requires fs != [] && Run.NoNodeTwice(fs) && i < |fs[0]|
    ensures fs[0][i].node !in AllNodes(fs[1..])
  {
    var rest: seq<seq<Run.Dispatch>> := fs[1..];
    forall id | id in AllNodes(rest)
      ensures id != fs[0][i].node
    {
      AllNodesFrom(rest, id);
      var k, j :| 0 <= k < |rest| && 0 <= j < |rest[k]| && rest[k][j].node == id;
      assert fs[k + 1][j].node == fs[0][i].node ==> k + 1 == 0;
    }
  }

  /** One run of an executable policy, however it ends, reserves no more money, makes no more model
      calls and no more tool calls than the policy's budget allows. */
  lemma RunSpendBounded(p: Policy, g: Graph, e: Execution, what: Resource)
    requires Run.Runnable(p, g) && CapsNonnegative(p) && ValidExecution(p, e)
    ensures 0 <= RunUse(p, e, what) <= Limit(p.budget, what)
  {
    hide Run.Rest, Run.Typed, WorkflowValid, PromptsBound, AllFit, InputsTyped, ValidSituation, Closed, Rankable,
        OneStagePerNode, NodesUse, CapsIn, CostsOf, CallsOf, ToolsOf;
    var fs := Run.Rest(p, e.inputs, map[], e.answers, e.stops, 0).frontiers;
    Run.StagesRunOnce(p, g, e.inputs, e.answers, e.stops);
    AllNodesDistinct(fs);
    DistinctUse(p, e, AllNodes(fs), what);
    CapsInAll(p.stages, ToSet(AllNodes(fs)), what);
  }

  // ----- submitting a comparison -----

  datatype Request = Request(policies: seq<Policy>, samples: seq<nat>, budget: Budget)

  function PolicyCaps(policies: seq<Policy>, what: Resource): int {
    if policies == [] then 0 else Limit(policies[0].budget, what) + PolicyCaps(policies[1..], what)
  }

  predicate Covers(r: Request, what: Resource) {
    PolicyCaps(r.policies, what) * |r.samples| <= Limit(r.budget, what)
  }

  // Every policy on every sample fits the approved envelope.
  predicate Approved(r: Request) {
    Covers(r, Money) && Covers(r, Calls) && Covers(r, Tools)
  }

  // The identifier of a child run, derived from the comparison's, the policy's and the sample's.
  type ChildIds = (nat, nat, nat) -> nat

  // One policy on one sample.
  datatype Cell = Cell(policy: nat, sample: nat)

  // What the children of one comparison have in common, and what each of them meets: an admission
  // that may refuse it, and the clock.
  datatype Children = Children(owner: nat, id: nat, child: ChildIds, hash: ChildIds, deadline: int,
      denied: Cell -> bool, clock: Cell -> int)

  function ChildId(c: Children, cell: Cell): nat { c.child(c.id, cell.policy, cell.sample) }

  function ChildHash(c: Children, cell: Cell): nat { c.hash(c.id, cell.policy, cell.sample) }

  function ChildKey(c: Children, cell: Cell): Queue.RequestKey { Queue.RequestKey(c.owner, ChildId(c, cell)) }

  function ChildRun(c: Children, cell: Cell): Queue.RunId { Queue.RunId(c.owner, ChildId(c, cell)) }

  // Why the submission of a comparison stops at a child.
  datatype Halt = Denied | Conflict(registered: Queue.Registered)

  datatype Answer = Exceeds | Answered(registered: Queue.Registered) | Stopped(halt: Halt)

  // The cells from the j-th sample of the i-th policy on.
  function CellsFrom(r: Request, i: nat, j: nat): seq<Cell>
    requires i <= |r.policies| && j <= |r.samples|
    decreases |r.policies| - i, |r.samples| - j
  {
    if i == |r.policies| then []
    else if j == |r.samples| then CellsFrom(r, i + 1, 0)
    else [Cell(i, r.samples[j])] + CellsFrom(r, i, j + 1)
  }

  function CellsOf(r: Request): seq<Cell> { CellsFrom(r, 0, 0) }

  lemma CellsStep(r: Request, i: nat, j: nat)
    requires i <= |r.policies| && j <= |r.samples|
    ensures
      var cells := CellsFrom(r, i, j);
      if i == |r.policies| then cells == []
      else if j == |r.samples| then cells == CellsFrom(r, i + 1, 0)
      else
        && cells == [Cell(i, r.samples[j])] + CellsFrom(r, i, j + 1)
        && cells[0] == Cell(i, r.samples[j]) && cells[1..] == CellsFrom(r, i, j + 1)
  {
  }

  // Queueing child after child stops at the first that is refused or whose key or identifier is
  // taken by something else; an equal child found in its place is not queued again.
  ghost function QueueCells(t: Queue.Tables, cells: seq<Cell>, c: Children): (Queue.Tables, Option<Halt>)
    decreases |cells|
  {
    if cells == [] then (t, None)
    else
      var cell := cells[0];
      var registered := Queue.Registration(t, ChildKey(c, cell), ChildId(c, cell), ChildHash(c, cell));
      if c.denied(cell) then (t, Some(Denied))
      else if registered.KeyConflict? || registered.IdConflict? then (t, Some(Conflict(registered)))
      else QueueCells(AfterChild(t, cell, c), cells[1..], c)
  }

  ghost function AfterChild(t: Queue.Tables, cell: Cell, c: Children): Queue.Tables {
    Queue.AfterEnqueue(t, ChildKey(c, cell), ChildId(c, cell), ChildHash(c, cell), c.deadline, c.clock(cell))
  }

  // Nothing is queued unless the envelope is approved and the key is new.
  ghost function Submitted(t: Queue.Tables, r: Request, key: nat, fingerprint: nat,
      c: Children): (Queue.Tables, Answer) {
    var own := Queue.RequestKey(c.owner, key);
    var registered := Queue.Registration(t, own, c.id, fingerprint);
    if !Approved(r) then (t, Exceeds)
    else if !registered.Created? then (t, Answered(registered))
    else
      var (u, halt) := QueueCells(Queue.AfterRegister(t, own, c.id, fingerprint), CellsOf(r), c);
      (u, if halt.Some? then Stopped(halt.value) else Answered(registered))
  }

  // The cells are fixed before the first child is queued.
  method SubmitComparison(store: Queue.RuntimeStorage, r: Request, key: nat, fingerprint: nat, c: Children)
    returns (answer: Answer, cells: seq<Cell>)
    modifies store
    ensures (store.View(), answer) == Submitted(old(store.View()), r, key, fingerprint, c)
    ensures cells == if answer.Stopped? || answer == Answered(Queue.Created) then CellsOf(r) else []
  {
    hide Queue.AfterEnqueue, Queue.AfterRegister, Queue.Registration, ChildId, ChildKey, ChildHash, CellsFrom, Covers;
    cells := [];
    if !Approved(r) {
      return Exceeds, cells;
    }
    var registered := store.RegisterRequest(Queue.RequestKey(c.owner, key), c.id, fingerprint);
    if !registered.Created? {
      RefusedChangesNothing(old(store.View()), Queue.RequestKey(c.owner, key), c.id, fingerprint);
      return Answered(registered), cells;
    }
    cells := ListCells(r);
    ghost var all := QueueCells(store.View(), CellsOf(r), c);
    for i := 0 to |r.policies|
      invariant QueueCells(store.View(), CellsFrom(r, i, 0), c) == all
    {
      for j := 0 to |r.samples|
        invariant QueueCells(store.View(), CellsFrom(r, i, j), c) == all
      {
        var cell := Cell(i, r.samples[j]);
        CellsStep(r, i, j);
        if c.denied(cell) {
          return Stopped(Denied), cells;
        }
        ghost var before := store.View();
        var child := store.EnqueueRuntime(ChildKey(c, cell), ChildId(c, cell), ChildHash(c, cell), c.deadline,
            c.clock(cell));
        if child.KeyConflict? || child.IdConflict? {
          RefusedQueuesNothing(before, cell, c);
          return Stopped(Conflict(child)), cells;
        }
      }
      CellsStep(r, i, |r.samples|);
    }
    CellsStep(r, |r.policies|, 0);
    answer := Answered(registered);
  }

  method ListCells(r: Request) returns (cells: seq<Cell>)
    ensures cells == CellsOf(r)
  {
    hide CellsFrom;
    cells := [];
    for i := 0 to |r.policies|
      invariant cells + CellsFrom(r, i, 0) == CellsOf(r)
    {
      for j := 0 to |r.samples|
        invariant cells + CellsFrom(r, i, j) == CellsOf(r)
      {
        CellsStep(r, i, j);
        Regroup(cells, [Cell(i, r.samples[j])], CellsFrom(r, i, j + 1));
        cells := cells + [Cell(i, r.samples[j])];
      }
      CellsStep(r, i, |r.samples|);
    }
    CellsStep(r, |r.policies|, 0);
    assert cells + [] == cells;
  }

  lemma RefusedChangesNothing(t: Queue.Tables, key: Queue.RequestKey, id: nat, hash: nat)
    requires !Queue.Registration(t, key, id, hash).Created?
    ensures Queue.AfterRegister(t, key, id, hash) == t
  {
  }

  lemma RefusedQueuesNothing(t: Queue.Tables, cell: Cell, c: Children)
    requires !Queue.Registration(t, ChildKey(c, cell), ChildId(c, cell), ChildHash(c, cell)).Created?
    ensures AfterChild(t, cell, c) == t
  {
  }

  // ----- every child once -----

  lemma {:induction false} CellsAre(r: Request, i: nat, j: nat)
    requires i <= |r.policies| && j <= |r.samples| && Distinct(r.samples)
    ensures Distinct(CellsFrom(r, i, j))
    ensures forall k, l | 0 <= k < |r.policies| && 0 <= l < |r.samples| ::
              Cell(k, r.samples[l]) in CellsFrom(r, i, j) <==> k > i || (k == i && l >= j)
    ensures forall cell | cell in CellsFrom(r, i, j) :: i <= cell.policy < |r.policies| && cell.sample in r.samples
    decreases |r.policies| - i, |r.samples| - j
  {
    hide CellsFrom;
    CellsStep(r, i, j);
    if i < |r.policies| {
      if j == |r.samples| {
        CellsAre(r, i + 1, 0);
      } else {
        CellsAre(r, i, j + 1);
        CellFirst(r, i, j, CellsFrom(r, i, j + 1));
      }
    }
  }

  // A cell in front of those that come after it.
  lemma CellFirst(r: Request, i: nat, j: nat, rest: seq<Cell>)
    requires i < |r.policies| && j < |r.samples| && Distinct(r.samples) && Distinct(rest)
    requires forall k, l | 0 <= k < |r.policies| && 0 <= l < |r.samples| ::
              Cell(k, r.samples[l]) in rest <==> k > i || (k == i && l >= j + 1)
    ensures Distinct([Cell(i, r.samples[j])] + rest)
    ensures forall k, l | 0 <= k < |r.policies| && 0 <= l < |r.samples| ::
              Cell(k, r.samples[l]) in [Cell(i, r.samples[j])] + rest <==> k > i || (k == i && l >= j)
  {
    DistinctCons(Cell(i, r.samples[j]), rest);
  }

  // Identifiers tell the cells apart.
  ghost predicate Injective(cells: seq<Cell>, c: Children) {
    forall m, n | 0 <= m < n < |cells| :: ChildId(c, cells[m]) != ChildId(c, cells[n])
  }

  ghost predicate Unused(t: Queue.Tables, cell: Cell, c: Children) {
    ChildKey(c, cell) !in t.requests && !Queue.IdTaken(t, c.owner, ChildId(c, cell))
  }

  ghost predicate AllUnused(t: Queue.Tables, cells: seq<Cell>, c: Children) {
    forall n | 0 <= n < |cells| :: Unused(t, cells[n], c)
  }

  // The cells before the first that is denied.
  function Reached(cells: seq<Cell>, c: Children): (n: nat)
    ensures n <= |cells| && (forall m | 0 <= m < n :: !c.denied(cells[m])) && (n < |cells| ==> c.denied(cells[n]))
  {
    if cells == [] || c.denied(cells[0]) then 0 else 1 + Reached(cells[1..], c)
  }

  ghost predicate HasChild(u: Queue.Tables, cell: Cell, c: Children) {
    && ChildRun(c, cell) in u.queue
    && u.queue[ChildRun(c, cell)] == Queue.Row(ChildKey(c, cell), c.deadline, Queue.Waiting, None)
    && ChildKey(c, cell) in u.requests
    && u.requests[ChildKey(c, cell)] == Queue.Request(ChildId(c, cell), ChildHash(c, cell), Queue.Queued)
  }

  ghost predicate HasChildren(u: Queue.Tables, cells: seq<Cell>, c: Children) {
    forall n | 0 <= n < |cells| :: HasChild(u, cells[n], c)
  }

  ghost predicate IsChild(run: Queue.RunId, cells: seq<Cell>, c: Children) {
    exists n :: 0 <= n < |cells| && run == ChildRun(c, cells[n])
  }

  // Rows and requests that belong to none of the cells are as before.
  ghost predicate OthersKept(t: Queue.Tables, u: Queue.Tables, cells: seq<Cell>, c: Children) {
    && (forall run | !IsChild(run, cells, c) ::
         (run in u.queue <==> run in t.queue) && (run in t.queue ==> u.queue[run] == t.queue[run]))
    && (forall k: Queue.RequestKey | !IsChild(Queue.RunId(k.owner, k.key), cells, c) ::
         (k in u.requests <==> k in t.requests) && (k in t.requests ==> u.requests[k] == t.requests[k]))
  }

  lemma ChildQueued(t: Queue.Tables, cell: Cell, c: Children)
    requires Unused(t, cell, c)
    ensures Queue.Registration(t, ChildKey(c, cell), ChildId(c, cell), ChildHash(c, cell)).Created?
    ensures HasChild(AfterChild(t, cell, c), cell, c) && OthersKept(t, AfterChild(t, cell, c), [cell], c)
    ensures forall other | Unused(t, other, c) && ChildId(c, other) != ChildId(c, cell) ::
              Unused(AfterChild(t, cell, c), other, c)
  {
    var cells, u := [cell], AfterChild(t, cell, c);
    assert cells[0] == cell && IsChild(ChildRun(c, cell), cells, c);
  }

  lemma KeptAcross(t: Queue.Tables, u: Queue.Tables, v: Queue.Tables, cells: seq<Cell>, c: Children)
    requires cells != [] && OthersKept(t, u, [cells[0]], c) && OthersKept(u, v, cells[1..], c)
    ensures OthersKept(t, v, cells, c)
  {
    forall run | !IsChild(run, cells, c)
      ensures !IsChild(run, [cells[0]], c) && !IsChild(run, cells[1..], c)
    {
      assert run != ChildRun(c, cells[0]);
      forall n | 0 <= n < |cells[1..]|
        ensures run != ChildRun(c, cells[1..][n])
      {
        assert cells[1..][n] == cells[n + 1];
      }
    }
  }

  lemma FirstKept(u: Queue.Tables, v: Queue.Tables, cells: seq<Cell>, n: nat, c: Children)
    requires cells != [] && n < |cells| && Injective(cells, c) && HasChild(u, cells[0], c)
    requires OthersKept(u, v, cells[1..][..n], c)
    ensures HasChild(v, cells[0], c)
  {
    forall m | 0 <= m < |cells[1..][..n]|
      ensures ChildRun(c, cells[0]) != ChildRun(c, cells[1..][..n][m])
    {
      assert cells[1..][..n][m] == cells[m + 1];
    }
    assert !IsChild(ChildRun(c, cells[0]), cells[1..][..n], c);
  }

  lemma RestUnused(t: Queue.Tables, cells: seq<Cell>, c: Children)
    requires cells != [] && Injective(cells, c) && AllUnused(t, cells, c)
    ensures Unused(t, cells[0], c)
    ensures Injective(cells[1..], c) && AllUnused(AfterChild(t, cells[0], c), cells[1..], c)
  {
    hide Unused, AfterChild;
    ChildQueued(t, cells[0], c);
    forall n | 0 <= n < |cells[1..]|
      ensures Unused(AfterChild(t, cells[0], c), cells[1..][n], c)
    {
      assert cells[1..][n] == cells[n + 1] && Unused(t, cells[n + 1], c);
    }
  }

  lemma {:induction false} QueuedInOrder(t: Queue.Tables, cells: seq<Cell>, c: Children)
    requires Injective(cells, c) && AllUnused(t, cells, c)
    ensures
      var (u, halt) := QueueCells(t, cells, c);
      var reached := cells[..Reached(cells, c)];
      && halt == (if |reached| == |cells| then None else Some(Denied))
      && HasChildren(u, reached, c) && OthersKept(t, u, reached, c)
    decreases |cells|
  {
    hide Injective, AllUnused, HasChild, OthersKept, Queue.Registration, AfterChild, Unused;
    if cells == [] || c.denied(cells[0]) {
      NothingKept(t, c);
      assert cells[..0] == [];
    } else {
      RestUnused(t, cells, c);
      ChildQueued(t, cells[0], c);
      var next, n := AfterChild(t, cells[0], c), Reached(cells[1..], c);
      QueuedInOrder(next, cells[1..], c);
      var u := QueueCells(t, cells, c).0;
      var reached := cells[..n + 1];
      assert reached[0] == cells[0] && reached[1..] == cells[1..][..n];
      FirstKept(next, u, cells, n, c);
      KeptAcross(t, next, u, reached, c);
      forall m | 0 <= m < |reached|
        ensures HasChild(u, reached[m], c)
      {
        if m > 0 {
          assert reached[m] == cells[1..][..n][m - 1];
        }
      }
    }
  }

  lemma NothingKept(t: Queue.Tables, c: Children)
    ensures OthersKept(t, t, [], c)
  {
  }

  // Nothing in the tables uses the identifier of a child, and the comparison itself does not.
  ghost predicate FreshChildren(t: Queue.Tables, r: Request, key: nat, c: Children) {
    && Injective(CellsOf(r), c) && AllUnused(t, CellsOf(r), c)
    && forall n | 0 <= n < |CellsOf(r)| :: ChildId(c, CellsOf(r)[n]) != key && ChildId(c, CellsOf(r)[n]) != c.id
  }

  lemma UnusedByComparison(t: Queue.Tables, r: Request, key: nat, fingerprint: nat, c: Children)
    requires FreshChildren(t, r, key, c)
    ensures AllUnused(Queue.AfterRegister(t, Queue.RequestKey(c.owner, key), c.id, fingerprint), CellsOf(r), c)
  {
    hide CellsFrom;
    var own := Queue.RequestKey(c.owner, key);
    forall n | 0 <= n < |CellsOf(r)|
      ensures Unused(Queue.AfterRegister(t, own, c.id, fingerprint), CellsOf(r)[n], c)
    {
      assert Unused(t, CellsOf(r)[n], c);
    }
  }

  /** A new comparison queues its children policy by policy and sample by sample: each one has exactly
      one row, waiting and with its own request, up to the first that its admission refuses, and no
      other row is touched or added. So every policy runs on every sample if and only if none is
      refused. */
  lemma ChildrenQueuedOnce(t: Queue.Tables, r: Request, key: nat, fingerprint: nat, c: Children)
    requires Approved(r) && Distinct(r.samples) && FreshChildren(t, r, key, c)
    requires Queue.Valid(t) && Queue.Registration(t, Queue.RequestKey(c.owner, key), c.id, fingerprint).Created?
    ensures
      var (u, answer) := Submitted(t, r, key, fingerprint, c);
      var reached := CellsOf(r)[..Reached(CellsOf(r), c)];
      && HasChildren(u, reached, c) && OneRowEach(u, reached, c)
      && (forall run | run in u.queue :: IsChild(run, reached, c) || (run in t.queue && u.queue[run] == t.queue[run]))
      && (forall run | run in t.queue :: run in u.queue && u.queue[run] == t.queue[run])
      && answer == (if NoneDenied(r, c) then Answered(Queue.Created) else Stopped(Denied))
      && (NoneDenied(r, c) <==> forall i, j | 0 <= i < |r.policies| && 0 <= j < |r.samples| ::
           HasChild(u, Cell(i, r.samples[j]), c))
  {
    hide Queue.Registration, Queue.AfterRegister, QueueCells, OthersKept, HasChild, CellsFrom, Approved, Injective,
        AllUnused, Queue.Valid;
    var own := Queue.RequestKey(c.owner, key);
    var cells, begun := CellsOf(r), Queue.AfterRegister(t, own, c.id, fingerprint);
    var (u, halt) := QueueCells(begun, cells, c);
    var reached := cells[..Reached(cells, c)];
    UnusedByComparison(t, r, key, fingerprint, c);
    QueuedInOrder(begun, cells, c);
    SameQueue(t, own, c.id, fingerprint);
    RowsKept(t, begun, u, reached, cells, c);
    NoSecondRow(t, u, reached, cells, c);
    ReachesAll(t, r, c, u, reached);
  }

  ghost predicate NoneDenied(r: Request, c: Children) {
    forall i, j | 0 <= i < |r.policies| && 0 <= j < |r.samples| :: !c.denied(Cell(i, r.samples[j]))
  }

  lemma SameQueue(t: Queue.Tables, key: Queue.RequestKey, id: nat, hash: nat)
    ensures Queue.AfterRegister(t, key, id, hash).queue == t.queue
  {
  }

  // A child's row is new.
  lemma RowsKept(t: Queue.Tables, begun: Queue.Tables, u: Queue.Tables, reached: seq<Cell>, cells: seq<Cell>,
      c: Children)
    requires Queue.Valid(t) && AllUnused(t, cells, c) && begun.queue == t.queue && reached <= cells
    requires OthersKept(begun, u, reached, c)
    ensures forall run | run in u.queue :: IsChild(run, reached, c) || (run in t.queue && u.queue[run] == t.queue[run])
    ensures forall run | run in t.queue :: run in u.queue && u.queue[run] == t.queue[run]
  {
    forall run | run in t.queue
      ensures !IsChild(run, reached, c)
    {
      assert Queue.RowValid(t, run);
      forall n | 0 <= n < |reached|
        ensures run != ChildRun(c, reached[n])
      {
        assert reached[n] == cells[n] && Unused(t, cells[n], c);
      }
    }
  }

  // No other row carries a child's key.
  ghost predicate OneRowEach(u: Queue.Tables, cells: seq<Cell>, c: Children) {
    forall run, n | run in u.queue && 0 <= n < |cells| && u.queue[run].key == ChildKey(c, cells[n]) ::
      run == ChildRun(c, cells[n])
  }

  lemma NoSecondRow(t: Queue.Tables, u: Queue.Tables, reached: seq<Cell>, cells: seq<Cell>, c: Children)
    requires Queue.Valid(t) && AllUnused(t, cells, c) && reached <= cells && HasChildren(u, reached, c)
    requires forall run | run in u.queue :: IsChild(run, reached, c) || (run in t.queue && u.queue[run] == t.queue[run])
    ensures OneRowEach(u, reached, c)
  {
    forall run, n | run in u.queue && 0 <= n < |reached| && u.queue[run].key == ChildKey(c, reached[n])
      ensures run == ChildRun(c, reached[n])
    {
      assert reached[n] == cells[n] && Unused(t, cells[n], c);
      assert run in t.queue ==> Queue.RowValid(t, run);
      if IsChild(run, reached, c) {
        var m :| 0 <= m < |reached| && run == ChildRun(c, reached[m]);
        assert HasChild(u, reached[m], c);
      }
    }
  }

  lemma ReachesAll(t: Queue.Tables, r: Request, c: Children, u: Queue.Tables, reached: seq<Cell>)
    requires Distinct(r.samples) && AllUnused(t, CellsOf(r), c) && Injective(CellsOf(r), c) && Queue.Valid(t)
    requires reached == CellsOf(r)[..Reached(CellsOf(r), c)] && HasChildren(u, reached, c)
    requires forall run | run in u.queue :: IsChild(run, reached, c) || run in t.queue
    ensures NoneDenied(r, c) <==> |reached| == |CellsOf(r)|
    ensures NoneDenied(r, c) <==> forall i, j | 0 <= i < |r.policies| && 0 <= j < |r.samples| ::
        HasChild(u, Cell(i, r.samples[j]), c)
  {
    hide CellsFrom, Queue.Valid, Unused, Distinct, HasChild, IsChild, Injective, AllUnused, HasChildren;
    var cells := CellsOf(r);
    if |reached| == |cells| {
      assert reached == cells;
      AllReached(r, c, u);
    } else {
      var n := |reached|;
      NotReached(t, cells, n, c, u);
      var i, j := Position(r, n);
      assert c.denied(cells[n]) && !HasChild(u, Cell(i, r.samples[j]), c);
    }
  }

  lemma AllReached(r: Request, c: Children, u: Queue.Tables)
    requires Distinct(r.samples) && HasChildren(u, CellsOf(r), c)
    requires forall n | 0 <= n < |CellsOf(r)| :: !c.denied(CellsOf(r)[n])
    ensures forall i, j | 0 <= i < |r.policies| && 0 <= j < |r.samples| ::
              !c.denied(Cell(i, r.samples[j])) && HasChild(u, Cell(i, r.samples[j]), c)
  {
    hide CellsFrom, Distinct, HasChild;
    CellsAre(r, 0, 0);
    var cells := CellsOf(r);
    forall i, j | 0 <= i < |r.policies| && 0 <= j < |r.samples|
      ensures !c.denied(Cell(i, r.samples[j])) && HasChild(u, Cell(i, r.samples[j]), c)
    {
      assert Cell(i, r.samples[j]) in cells;
      var n :| 0 <= n < |cells| && cells[n] == Cell(i, r.samples[j]);
    }
  }

  lemma Position(r: Request, n: nat) returns (i: nat, j: nat)
    requires Distinct(r.samples) && n < |CellsOf(r)|
    ensures i < |r.policies| && j < |r.samples| && CellsOf(r)[n] == Cell(i, r.samples[j])
  {
    hide CellsFrom, Distinct;
    CellsAre(r, 0, 0);
    var cell := CellsOf(r)[n];
    assert cell in CellsOf(r) && cell.sample in r.samples;
    i := cell.policy;
    j :| 0 <= j < |r.samples| && r.samples[j] == cell.sample;
  }

  lemma NotReached(t: Queue.Tables, cells: seq<Cell>, n: nat, c: Children, u: Queue.Tables)
    requires AllUnused(t, cells, c) && Injective(cells, c) && Queue.Valid(t) && n < |cells|
    requires forall run | run in u.queue :: IsChild(run, cells[..n], c) || run in t.queue
    ensures ChildRun(c, cells[n]) !in u.queue && !HasChild(u, cells[n], c)
  {
    assert Unused(t, cells[n], c);
    forall run | run in t.queue
      ensures run != ChildRun(c, cells[n])
    {
      assert Queue.RowValid(t, run);
    }
    forall m | 0 <= m < n
      ensures ChildRun(c, cells[n]) != ChildRun(c, cells[..n][m])
    {
      assert cells[..n][m] == cells[m];
    }
  }

  // ----- what the children use -----

  // What the runs of one child use in the first n steps: a run starts when its request enters
  // `running`.
  ghost function ChildUse(p: Policy, key: Queue.RequestKey, trace: seq<Queue.Tables>, runs: nat -> Execution,
      n: nat, what: Resource): int {
    if n == 0 then 0
    else
      ChildUse(p, key, trace, runs, n - 1, what)
      + if Queue.Enters(trace, n - 1, key, Queue.Running) then RunUse(p, runs(n - 1), what) else 0
  }

  lemma {:induction false} NoStartNoUse(p: Policy, key: Queue.RequestKey, trace: seq<Queue.Tables>,
      runs: nat -> Execution, n: nat, what: Resource)
    requires forall i | 0 <= i < n :: !Queue.Enters(trace, i, key, Queue.Running)
    ensures ChildUse(p, key, trace, runs, n, what) == 0
    decreases n
  {
    if n > 0 {
      NoStartNoUse(p, key, trace, runs, n - 1, what);
    }
  }

  // Within any interleaving a child uses its policy's budget at most once.
  lemma {:induction false} ChildUseBounded(p: Policy, g: Graph, key: Queue.RequestKey, steps: seq<Queue.Step>,
      trace: seq<Queue.Tables>, runs: nat -> Execution, n: nat, what: Resource)
    requires Queue.IsRun(steps, trace) && Run.Runnable(p, g) && CapsNonnegative(p) && p.budget.maxCost >= 0
    requires forall i :: ValidExecution(p, runs(i))
    ensures 0 <= ChildUse(p, key, trace, runs, n, what) <= Limit(p.budget, what)
    decreases n
  {
    hide Queue.IsRun, Run.Runnable, ValidExecution, Queue.Enters, RunUse;
    if n > 0 {
      ChildUseBounded(p, g, key, steps, trace, runs, n - 1, what);
      if Queue.Enters(trace, n - 1, key, Queue.Running) {
        RunSpendBounded(p, g, runs(n - 1), what);
        forall i | 0 <= i < n - 1
          ensures !Queue.Enters(trace, i, key, Queue.Running)
        {
          if Queue.Enters(trace, i, key, Queue.Running) {
            Queue.EnteredAtMostOnce(steps, trace, i, n - 1, key, Queue.Running);
          }
        }
        NoStartNoUse(p, key, trace, runs, n - 1, what);
      }
    }
  }

  // What a cell's runs meet: by policy, position of the sample, and step.
  type Cells = (nat, nat, nat) -> Execution

  // What one policy uses on the samples from j on.
  ghost function PolicyUse(r: Request, i: nat, j: nat, c: Children, trace: seq<Queue.Tables>, cells: Cells, n: nat,
      what: Resource): int
    requires i < |r.policies| && j <= |r.samples|
    decreases |r.samples| - j
  {
    if j == |r.samples| then 0
    else
      ChildUse(r.policies[i], ChildKey(c, Cell(i, r.samples[j])), trace, (k: nat) => cells(i, j, k), n, what)
      + PolicyUse(r, i, j + 1, c, trace, cells, n, what)
  }

  // What all policies from i on use.
  ghost function ComparisonUse(r: Request, i: nat, c: Children, trace: seq<Queue.Tables>, cells: Cells, n: nat,
      what: Resource): int
    requires i <= |r.policies|
    decreases |r.policies| - i
  {
    if i == |r.policies| then 0
    else PolicyUse(r, i, 0, c, trace, cells, n, what) + ComparisonUse(r, i + 1, c, trace, cells, n, what)
  }

  // Admitted policies with their graphs, and executions that fit them.
  ghost predicate Admitted(r: Request, graphs: seq<Graph>, cells: Cells) {
    && |graphs| == |r.policies|
    && (forall i | 0 <= i < |r.policies| ::
         Run.Runnable(r.policies[i], graphs[i]) && CapsNonnegative(r.policies[i]) && r.policies[i].budget.maxCost >= 0)
    && (forall i, j, k | 0 <= i < |r.policies| :: ValidExecution(r.policies[i], cells(i, j, k)))
  }

  lemma {:induction false} PolicyUseBounded(r: Request, graphs: seq<Graph>, i: nat, j: nat, c: Children,
      steps: seq<Queue.Step>, trace: seq<Queue.Tables>, cells: Cells, n: nat, what: Resource)
    requires Queue.IsRun(steps, trace) && Admitted(r, graphs, cells) && i < |r.policies| && j <= |r.samples|
    ensures 0 <= PolicyUse(r, i, j, c, trace, cells, n, what)
              <= (|r.samples| - j) * Limit(r.policies[i].budget, what)
    decreases |r.samples| - j
  {
    hide Queue.IsRun, Run.Runnable, ValidExecution, CapsNonnegative, ChildUse, Limit;
    if j < |r.samples| {
      PolicyUseBounded(r, graphs, i, j + 1, c, steps, trace, cells, n, what);
      ChildUseBounded(r.policies[i], graphs[i], ChildKey(c, Cell(i, r.samples[j])), steps, trace,
          (k: nat) => cells(i, j, k), n, what);
      OneMore(|r.samples| - j, Limit(r.policies[i].budget, what));
    }
  }

  lemma OneMore(n: int, x: int)
    ensures n * x == (n - 1) * x + x
  {
  }

  lemma Spread(a: int, b: int, n: int)
    ensures (a + b) * n == n * a + b * n
  {
  }

  lemma {:induction false} AllUseBounded(r: Request, graphs: seq<Graph>, i: nat, c: Children,
      steps: seq<Queue.Step>, trace: seq<Queue.Tables>, cells: Cells, n: nat, what: Resource)
    requires Queue.IsRun(steps, trace) && Admitted(r, graphs, cells) && i <= |r.policies|
    ensures 0 <= ComparisonUse(r, i, c, trace, cells, n, what) <= PolicyCaps(r.policies[i..], what) * |r.samples|
    decreases |r.policies| - i
  {
    hide Queue.IsRun, Run.Runnable, ValidExecution, CapsNonnegative, Admitted, Limit;
    if i < |r.policies| {
      AllUseBounded(r, graphs, i + 1, c, steps, trace, cells, n, what);
      PolicyUseBounded(r, graphs, i, 0, c, steps, trace, cells, n, what);
      assert r.policies[i..][0] == r.policies[i] && r.policies[i..][1..] == r.policies[i + 1..];
      Spread(Limit(r.policies[i].budget, what), PolicyCaps(r.policies[i + 1..], what), |r.samples|);
    }
  }

  /** In every interleaving of enqueueing, claiming, expiry, cancelling and finishing, whatever providers
      answer: all the money that the child runs of an approved comparison ever reserve, all their model
      calls and all their tool calls are within the request's budget. */
  lemma ComparisonSpendBounded(r: Request, graphs: seq<Graph>, c: Children, steps: seq<Queue.Step>,
      trace: seq<Queue.Tables>, cells: Cells, what: Resource)
    requires Approved(r) && Queue.IsRun(steps, trace) && Admitted(r, graphs, cells)
    ensures 0 <= ComparisonUse(r, 0, c, trace, cells, |steps|, what) <= Limit(r.budget, what)
  {
    hide Queue.IsRun, Admitted, Limit, PolicyCaps, ComparisonUse;
    AllUseBounded(r, graphs, 0, c, steps, trace, cells, |steps|, what);
    assert r.policies[0..] == r.policies;
    assert Covers(r, what);
  }

  lemma {:induction false} CellAt(r: Request, i: nat, j: nat, k: nat, l: nat)
    requires i <= k < |r.policies| && l < |r.samples| && j <= |r.samples| && (k == i ==> j <= l)
    ensures
      var n := (k - i) * |r.samples| + l - j;
      0 <= n < |CellsFrom(r, i, j)| && CellsFrom(r, i, j)[n] == Cell(k, r.samples[l])
    decreases |r.policies| - i, |r.samples| - j
  {
    hide CellsFrom;
    var m := |r.samples|;
    CellsStep(r, i, j);
    if j == m {
      CellAt(r, i + 1, 0, k, l);
      assert (k - i) * m == (k - i - 1) * m + m;
    } else if !(k == i && l == j) {
      CellAt(r, i, j + 1, k, l);
      Rows(k - i, m, l, j);
    }
  }

  lemma Rows(k: nat, m: nat, l: nat, j: nat)
    requires l < m && j < m && (k == 0 ==> j < l)
    ensures k * m + l - j >= 1
  {
    if k > 0 {
      assert k * m >= m;
    }
  }

  /** The cells come policy by policy, and for each policy sample by sample. */
  lemma CellsInOrder(r: Request, i: nat, j: nat)
    requires i < |r.policies| && j < |r.samples|
    ensures
      var n := i * |r.samples| + j;
      n < |CellsOf(r)| && CellsOf(r)[n] == Cell(i, r.samples[j])
  {
    CellAt(r, 0, 0, i, j);
  }

  // ----- when a comparison is refused -----

  // What the budgets of all children allow together.
  function CellLimits(r: Request, cells: seq<Cell>, what: Resource): int {
    if cells == [] then 0
    else
      (if cells[0].policy < |r.policies| then Limit(r.policies[cells[0].policy].budget, what) else 0)
      + CellLimits(r, cells[1..], what)
  }

  lemma {:induction false} LimitsOfCells(r: Request, i: nat, j: nat, what: Resource)
    requires i <= |r.policies| && j <= |r.samples|
    ensures CellLimits(r, CellsFrom(r, i, j), what)
         == PolicyCaps(r.policies[i..], what) * |r.samples|
            - (if i < |r.policies| then Limit(r.policies[i].budget, what) * j else 0)
    decreases |r.policies| - i, |r.samples| - j
  {
    hide Limit, CellsFrom;
    CellsStep(r, i, j);
    if i < |r.policies| {
      var limit, n, later := Limit(r.policies[i].budget, what), |r.samples|, PolicyCaps(r.policies[i + 1..], what);
      assert r.policies[i..][0] == r.policies[i] && r.policies[i..][1..] == r.policies[i + 1..];
      assert (limit + later) * n == limit * n + later * n;
      if j == n {
        LimitsOfCells(r, i + 1, 0, what);
      } else {
        LimitsOfCells(r, i, j + 1, what);
        assert limit * (j + 1) == limit * j + limit;
      }
    }
  }

  /** A comparison is refused as too expensive exactly if the budgets of all its children, one for every
      policy on every sample, together exceed the budget of its request in money, in model calls or in tool
      calls; and then nothing is registered or queued. */
  lemma ExceedsExactly(t: Queue.Tables, r: Request, key: nat, fingerprint: nat, c: Children)
    ensures
      var (u, answer) := Submitted(t, r, key, fingerprint, c);
      && (answer == Exceeds <==>
            exists what: Resource :: CellLimits(r, CellsOf(r), what) > Limit(r.budget, what))
      && (answer == Exceeds ==> u == t)
  {
    hide Queue.Registration, Queue.AfterRegister, QueueCells, Limit, CellsFrom, CellLimits, PolicyCaps;
    assert r.policies[0..] == r.policies;
    forall what: Resource
      ensures CellLimits(r, CellsOf(r), what) == PolicyCaps(r.policies, what) * |r.samples|
    {
      LimitsOfCells(r, 0, 0, what);
    }
    forall what: Resource
      ensures CellLimits(r, CellsOf(r), what) > Limit(r.budget, what) <==> !Covers(r, what)
    {
    }
    if what: Resource :| CellLimits(r, CellsOf(r), what) > Limit(r.budget, what) {
      match what {
        case Money => assert !Covers(r, Money);
        case Calls => assert !Covers(r, Calls);
        case Tools => assert !Covers(r, Tools);
      }
    }
  }

  /** Once a comparison's key is registered, submitting it again at any later time queues nothing. */
  lemma ResubmissionQueuesNothing(steps: seq<Queue.Step>, trace: seq<Queue.Tables>, i: nat, j: nat, r: Request,
      key: nat, fingerprint: nat, c: Children)
    requires Queue.IsRun(steps, trace) && i <= j <= |steps|
    requires Queue.RequestKey(c.owner, key) in trace[i].requests
    ensures Submitted(trace[j], r, key, fingerprint, c).0 == trace[j]
  {
    hide Queue.IsRun, QueueCells;
    Queue.ResubmissionChangesNothing(steps, trace, i, j, Queue.RequestKey(c.owner, key), c.id, fingerprint);
  }
}

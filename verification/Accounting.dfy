/**
 The loop of fallbacks and repairs with the ledger in it: every attempt reserves on the budget of its
 admission before it is dispatched, and settles afterwards, while other requests use the same ledger.

 The reservation of an attempt is identified by its request, and the requests of one inference are
 derived from its number; the reservations of application keys are not part of this.
 */
module Accounting {
  import opened Basics
  import opened Failures
  import Engine = AttemptEngine
  import Books = BudgetLedger

  // Where the attempts of one inference are charged, and the requests they are made under, so many.
  datatype Charge = Charge(owner: nat, budget: nat, count: nat, requests: nat -> nat)

  function BudgetOf(c: Charge): Books.BudgetId { Books.BudgetId(c.owner, c.budget) }

  function IdOf(c: Charge, k: nat): Books.ReservationId { Books.ReservationId(c.owner, c.requests(k)) }

  // What the attempt with a given number meets: what others do on the ledger before it reserves and
  // before it settles, what the engine's world answers, and what the provider reports as spent.
  datatype Meeting = Meeting(before: seq<Books.Step>, reply: Engine.Reply, between: seq<Books.Step>,
      actual: Option<nat>)

  type Scene = nat -> Meeting

  function AfterAll(t: Books.Tables, steps: seq<Books.Step>): Books.Tables
    decreases |steps|
  {
    if steps == [] then t else AfterAll(Books.After(t, steps[0]), steps[1..])
  }

  // An exhausted budget reads as a rate limit, a taken identifier as a failure.
  function Refusal(answer: Books.Answer): FailureKind {
    if answer == Books.Exhausted then RateLimit else ProviderFailure
  }

  predicate Exceeds(actual: Option<nat>, reserved: int) { actual.Some? && actual.value > reserved }

  // A success that was charged more than reserved is a violation of the budget.
  function Settled(failure: Option<FailureKind>, exceeds: bool): Option<FailureKind> {
    if failure.None? && exceeds then Some(BudgetViolation) else failure
  }

  // The answer of the world, as the ledger changes it.
  function Charged(reply: Engine.Reply, refused: Option<FailureKind>, exceeds: bool): Engine.Reply {
    reply.(blocked := if reply.blocked.Some? then reply.blocked else refused,
           failure := Settled(reply.failure, exceeds))
  }

  // What the ledger makes of one attempt: the answer it amounts to, and the tables afterwards.
  function OnLedger(stage: Engine.Stage, cs: seq<Engine.Candidate>, maxTokens: nat, c: Charge, k: nat,
      at: Engine.Cursor, m: Meeting, t: Books.Tables): (Engine.Reply, Books.Tables)
    requires at.candidate < |cs|
  {
    var ready := AfterAll(t, m.before);
    var bound := Engine.Preflight(stage, cs[at.candidate], at.input, maxTokens);
    if m.reply.blocked.Some? || bound.None? then (m.reply, ready)
    else
      var (held, answer) := Books.Reserve(ready, BudgetOf(c), IdOf(c, k), c.requests(k), bound.value);
      if answer != Books.Ok then (Charged(m.reply, Some(Refusal(answer)), false), ready)
      else
        (Charged(m.reply, None, Exceeds(m.actual, bound.value)),
         Books.Reconcile(AfterAll(held, m.between), IdOf(c, k), Known(m.actual)).0)
  }

  function Known(actual: Option<nat>): Option<int> { if actual.Some? then Some(actual.value) else None }

  function PlayOn(stage: Engine.Stage, cs: seq<Engine.Candidate>, call: Engine.Call, c: Charge, at: Engine.Cursor,
      index: nat, limit: nat, scene: Scene, t: Books.Tables): (seq<Engine.Entry>, Books.Tables)
    requires at.candidate < |cs|
    decreases limit - index
  {
    if index >= limit then ([], t)
    else
      var (reply, u) := OnLedger(stage, cs, call.maxTokens, c, index, at, scene(index), t);
      var entry := Engine.Attempt(stage, cs, call.maxTokens, at, reply);
      if entry.failure.None? then ([entry], u)
      else
        match Engine.Next(stage, |cs|, call.input, at, entry.failure.value, reply)
        case None => ([entry], u)
        case Some(next) =>
          assert next.candidate < |cs|;
          var (rest, v) := PlayOn(stage, cs, call, c, next, index + 1, limit, scene, u);
          ([entry] + rest, v)
  }

  // The attempts of one inference and the ledger after it.
  function TraceOn(stage: Engine.Stage, cs: seq<Engine.Candidate>, call: Engine.Call, retained: bool, c: Charge,
      scene: Scene, t: Books.Tables): (seq<Engine.Entry>, Books.Tables)
    requires cs != []
  {
    if Engine.Refused(stage, cs, call, retained).Some? then ([], t)
    else
      PlayOn(stage, cs, call, c, Engine.Cursor(0, stage.maxRepairs, false, call.input), 0,
          Engine.Min(stage.maxAttempts, |cs| + stage.maxRepairs), scene, t)
  }

  // ----- the loop on the ledger's tables -----

  method Others(books: Books.Ledger, steps: seq<Books.Step>)
    modifies books
    ensures books.View() == AfterAll(old(books.View()), steps)
  {
    for i := 0 to |steps|
      invariant AfterAll(books.View(), steps[i..]) == AfterAll(old(books.View()), steps)
    {
      assert steps[i..][0] == steps[i] && steps[i..][1..] == steps[i + 1..];
      match steps[i] {
        case Provisioning(b, cap) => var _ := books.ProvisionBudget(b, cap);
        case Reserving(b, id, request, amount) => var _ := books.ReserveAmount(b, id, request, amount);
        case Reconciling(id, actual) => var _ := books.ReconcileUsage(id, actual);
      }
    }
  }

  // Reserve, dispatch and settle one attempt; what others do comes in between.
  method InferOnce(books: Books.Ledger, stage: Engine.Stage, cs: seq<Engine.Candidate>, maxTokens: nat, c: Charge,
      k: nat, at: Engine.Cursor, m: Meeting) returns (entry: Engine.Entry)
    requires at.candidate < |cs|
    modifies books
    ensures
      var (reply, u) := OnLedger(stage, cs, maxTokens, c, k, at, m, old(books.View()));
      entry == Engine.Attempt(stage, cs, maxTokens, at, reply) && books.View() == u
  {
    hide Engine.Preflight, Books.Taken, Books.Reconcile, AfterAll;
    Others(books, m.before);
    if m.reply.blocked.Some? {
      return Engine.Entry(at.candidate, at.repairing, at.input, None, m.reply.blocked);
    }
    var bound := Engine.Preflight(stage, cs[at.candidate], at.input, maxTokens);
    if bound.None? {
      return Engine.Entry(at.candidate, at.repairing, at.input, None, Some(CapabilityMismatch));
    }
    var answer := books.ReserveAmount(BudgetOf(c), IdOf(c, k), c.requests(k), bound.value);
    if answer != Books.Ok {
      return Engine.Entry(at.candidate, at.repairing, at.input, None, Some(Refusal(answer)));
    }
    Others(books, m.between);
    var _ := books.ReconcileUsage(IdOf(c, k), Known(m.actual));
    entry := Engine.Entry(at.candidate, at.repairing, at.input, bound,
        Settled(m.reply.failure, Exceeds(m.actual, bound.value)));
  }

  // One turn of the loop.
  lemma PlayOnStep(stage: Engine.Stage, cs: seq<Engine.Candidate>, call: Engine.Call, c: Charge, at: Engine.Cursor,
      index: nat, limit: nat, scene: Scene, t: Books.Tables)
    requires at.candidate < |cs| && index < limit
    ensures
      var (reply, u) := OnLedger(stage, cs, call.maxTokens, c, index, at, scene(index), t);
      var entry := Engine.Attempt(stage, cs, call.maxTokens, at, reply);
      var play := PlayOn(stage, cs, call, c, at, index, limit, scene, t);
      if entry.failure.None? then play == ([entry], u)
      else
        var next := Engine.Next(stage, |cs|, call.input, at, entry.failure.value, reply);
        if next.None? then play == ([entry], u)
        else
          next.value.candidate < |cs|
          && var (rest, v) := PlayOn(stage, cs, call, c, next.value, index + 1, limit, scene, u);
             play == ([entry] + rest, v)
  {
    hide OnLedger, Engine.Attempt;
  }

  method Infer(books: Books.Ledger, stage: Engine.Stage, cs: seq<Engine.Candidate>, call: Engine.Call, retained: bool,
      c: Charge, scene: Scene) returns (trace: seq<Engine.Entry>)
    requires cs != []
    modifies books
    ensures (trace, books.View()) == TraceOn(stage, cs, call, retained, c, scene, old(books.View()))
  {
    hide OnLedger, Engine.Attempt, Engine.Refused, PlayOn;
    trace := [];
    if Engine.Refused(stage, cs, call, retained).Some? {
      return;
    }
    var candidate, repairs, repairing, input := 0, stage.maxRepairs, false, call.input;
    var limit := Engine.Min(stage.maxAttempts, |cs| + repairs);
    ghost var all := TraceOn(stage, cs, call, retained, c, scene, books.View());
    ghost var left := PlayOn(stage, cs, call, c, Engine.Cursor(candidate, repairs, repairing, input), 0, limit, scene,
                             books.View());
    assert trace + left.0 == left.0;
    for index := 0 to limit
      invariant candidate < |cs|
      invariant left == PlayOn(stage, cs, call, c, Engine.Cursor(candidate, repairs, repairing, input), index, limit,
                               scene, books.View())
      invariant all == (trace + left.0, left.1)
    {
      var at := Engine.Cursor(candidate, repairs, repairing, input);
      PlayOnStep(stage, cs, call, c, at, index, limit, scene, books.View());
      ghost var answer := OnLedger(stage, cs, call.maxTokens, c, index, at, scene(index), books.View()).0;
      LedgerKeepsRest(stage, cs, call.maxTokens, c, index, at, scene(index), books.View());
      var entry := InferOnce(books, stage, cs, call.maxTokens, c, index, at, scene(index));
      var reply := scene(index).reply;
      ghost var before := trace;
      trace := trace + [entry];
      if entry.failure.None? || reply.cancelled {
        return;
      }
      var last := entry.failure.value;
      if (last == QualityValidation || last == InvalidOutput) && repairs > 0 {
        if reply.repairInput.None? {
          return;
        }
        input := reply.repairInput.value;
        repairs := repairs - 1;
        repairing := true;
      } else {
        if stage.fallbackOn != {} && last !in stage.fallbackOn {
          return;
        }
        candidate := candidate + 1;
        if candidate >= |cs| {
          return;
        }
        input := call.input;
        repairing := false;
      }
      ghost var next := Engine.Cursor(candidate, repairs, repairing, input);
      assert Engine.Next(stage, |cs|, call.input, at, last, answer) == Some(next);
      left := PlayOn(stage, cs, call, c, next, index + 1, limit, scene, books.View());
      Regroup(before, [entry], left.0);
    }
    NothingLeft(stage, cs, call, c, Engine.Cursor(candidate, repairs, repairing, input), limit, scene, books.View());
    assert trace + [] == trace;
  }

  lemma NothingLeft(stage: Engine.Stage, cs: seq<Engine.Candidate>, call: Engine.Call, c: Charge, at: Engine.Cursor,
      limit: nat, scene: Scene, t: Books.Tables)
    requires at.candidate < |cs|
    ensures PlayOn(stage, cs, call, c, at, limit, limit, scene, t) == ([], t)
  {
  }

  lemma LedgerKeepsRest(stage: Engine.Stage, cs: seq<Engine.Candidate>, maxTokens: nat, c: Charge, k: nat,
      at: Engine.Cursor, m: Meeting, t: Books.Tables)
    requires at.candidate < |cs|
    ensures
      var reply := OnLedger(stage, cs, maxTokens, c, k, at, m, t).0;
      reply.cancelled == m.reply.cancelled && reply.repairInput == m.reply.repairInput
  {
  }

  // ----- an inference on the ledger is one of the engine's -----

  // The loop looks at the world from its own attempt on, and no further than its limit.
  lemma {:induction false} PlayDependsOn(stage: Engine.Stage, cs: seq<Engine.Candidate>, call: Engine.Call,
      at: Engine.Cursor, index: nat, limit: nat, one: Engine.World, two: Engine.World)
    requires at.candidate < |cs| && forall k | index <= k < limit :: one(k) == two(k)
    ensures Engine.Play(stage, cs, call, at, index, limit, one) == Engine.Play(stage, cs, call, at, index, limit, two)
    decreases limit - index
  {
    hide Engine.Attempt;
    if index < limit {
      var entry := Engine.Attempt(stage, cs, call.maxTokens, at, one(index));
      if entry.failure.Some? {
        var next := Engine.Next(stage, |cs|, call.input, at, entry.failure.value, one(index));
        if next.Some? {
          PlayDependsOn(stage, cs, call, next.value, index + 1, limit, one, two);
        }
      }
    }
  }

  lemma {:induction false} PlayOnIsPlay(stage: Engine.Stage, cs: seq<Engine.Candidate>, call: Engine.Call, c: Charge,
      at: Engine.Cursor, index: nat, limit: nat, scene: Scene, t: Books.Tables) returns (world: Engine.World)
    requires at.candidate < |cs|
    ensures PlayOn(stage, cs, call, c, at, index, limit, scene, t).0
         == Engine.Play(stage, cs, call, at, index, limit, world)
    decreases limit - index
  {
    hide OnLedger, Engine.Attempt, PlayOn, Engine.Play;
    world := (k: nat) => scene(k).reply;
    if index >= limit {
      NothingPlayed(stage, cs, call, c, at, index, limit, scene, t, world);
    } else {
      var (reply, u) := OnLedger(stage, cs, call.maxTokens, c, index, at, scene(index), t);
      var entry := Engine.Attempt(stage, cs, call.maxTokens, at, reply);
      PlayOnStep(stage, cs, call, c, at, index, limit, scene, t);
      if entry.failure.Some? {
        var next := Engine.Next(stage, |cs|, call.input, at, entry.failure.value, reply);
        if next.Some? {
          var rest := PlayOnIsPlay(stage, cs, call, c, next.value, index + 1, limit, scene, u);
          world := (k: nat) => if k == index then reply else rest(k);
          PlayDependsOn(stage, cs, call, next.value, index + 1, limit, world, rest);
          Engine.PlayStep(stage, cs, call, at, index, limit, world);
          return;
        }
      }
      world := (k: nat) => if k == index then reply else scene(k).reply;
      Engine.PlayStep(stage, cs, call, at, index, limit, world);
    }
  }

  lemma NothingPlayed(stage: Engine.Stage, cs: seq<Engine.Candidate>, call: Engine.Call, c: Charge, at: Engine.Cursor,
      index: nat, limit: nat, scene: Scene, t: Books.Tables, world: Engine.World)
    requires at.candidate < |cs| && index >= limit
    ensures PlayOn(stage, cs, call, c, at, index, limit, scene, t) == ([], t)
    ensures Engine.Play(stage, cs, call, at, index, limit, world) == []
  {
  }

  /** Whatever the ledger answers and others do to it, the attempts are those of the engine for some
      world: so they are bounded in number and order, and reserve at most the stage's cap. */
  lemma OnLedgerIsTrace(stage: Engine.Stage, cs: seq<Engine.Candidate>, call: Engine.Call, retained: bool, c: Charge,
      scene: Scene, t: Books.Tables) returns (world: Engine.World)
    requires cs != []
    ensures TraceOn(stage, cs, call, retained, c, scene, t).0 == Engine.Trace(stage, cs, call, retained, world)
  {
    hide PlayOn, Engine.Play, Engine.Refused;
    world := PlayOnIsPlay(stage, cs, call, c, Engine.Cursor(0, stage.maxRepairs, false, call.input), 0,
        Engine.Min(stage.maxAttempts, |cs| + stage.maxRepairs), scene, t);
  }

  // ----- what the ledger holds afterwards -----

  // A row of one of the inference's own requests.
  ghost predicate Own(c: Charge, id: Books.ReservationId) {
    exists k: nat :: k < c.count && id == IdOf(c, k)
  }

  // What others do never touches the identifiers of this inference.
  ghost predicate Foreign(c: Charge, step: Books.Step) {
    match step
    case Provisioning(_, _) => true
    case Reserving(_, id, _, _) => !Own(c, id)
    case Reconciling(id, _) => !Own(c, id)
  }

  ghost predicate AllForeign(c: Charge, steps: seq<Books.Step>) {
    forall i | 0 <= i < |steps| :: Foreign(c, steps[i])
  }

  ghost predicate ForeignScene(c: Charge, scene: Scene) {
    forall k: nat :: AllForeign(c, scene(k).before) && AllForeign(c, scene(k).between)
  }

  // What rows of this inference hold on its budget, and what the others hold there.
  ghost function OwnHeld(rows: seq<Books.Row>, c: Charge): int {
    if rows == [] then 0
    else
      (if rows[0].budget == BudgetOf(c) && Own(c, rows[0].id) then rows[0].reserved else 0) + OwnHeld(rows[1..], c)
  }

  ghost function OthersHeld(rows: seq<Books.Row>, c: Charge): int {
    if rows == [] then 0
    else
      (if rows[0].budget == BudgetOf(c) && !Own(c, rows[0].id) then rows[0].reserved else 0) + OthersHeld(rows[1..], c)
  }

  lemma {:induction false} HeldSplits(rows: seq<Books.Row>, c: Charge)
    ensures OwnHeld(rows, c) + OthersHeld(rows, c) == Books.ReservedOn(rows, BudgetOf(c))
    decreases |rows|
  {
    hide Own;
    if rows != [] {
      HeldSplits(rows[1..], c);
    }
  }

  lemma {:induction false} OwnAppend(rows: seq<Books.Row>, row: Books.Row, c: Charge)
    ensures OwnHeld(rows + [row], c)
         == OwnHeld(rows, c) + (if row.budget == BudgetOf(c) && Own(c, row.id) then row.reserved else 0)
    decreases |rows|
  {
    hide Own;
    if rows == [] {
      assert ([] + [row])[1..] == [];
    } else {
      OwnAppend(rows[1..], row, c);
      assert (rows + [row])[1..] == rows[1..] + [row];
    }
  }

  lemma {:induction false} OwnUpdate(rows: seq<Books.Row>, k: nat, row: Books.Row, c: Charge)
    requires k < |rows| && row.budget == rows[k].budget && row.reserved == rows[k].reserved && row.id == rows[k].id
    ensures OwnHeld(rows[k := row], c) == OwnHeld(rows, c)
    decreases |rows|
  {
    hide Own;
    if k == 0 {
      assert rows[k := row][1..] == rows[1..];
    } else {
      assert rows[k := row][1..] == rows[1..][k - 1 := row];
      OwnUpdate(rows[1..], k - 1, row, c);
    }
  }

  lemma ReconcileKeepsOwn(t: Books.Tables, id: Books.ReservationId, actual: Option<int>, c: Charge)
    ensures OwnHeld(Books.Reconcile(t, id, actual).0.rows, c) == OwnHeld(t.rows, c)
  {
    hide Own, OwnHeld;
    var k := Books.Find(t.rows, id);
    var u := Books.Reconcile(t, id, actual).0;
    if k < |t.rows| && u.rows != t.rows {
      OwnUpdate(t.rows, k, u.rows[k], c);
    }
  }

  lemma ReserveAddsOwn(t: Books.Tables, b: Books.BudgetId, id: Books.ReservationId, request: nat, amount: int,
      c: Charge)
    ensures
      var (u, answer) := Books.Reserve(t, b, id, request, amount);
      OwnHeld(u.rows, c) == OwnHeld(t.rows, c)
        + (if answer == Books.Ok && b == BudgetOf(c) && Own(c, id) then amount else 0)
  {
    hide Own, OwnHeld, Books.Taken;
    OwnAppend(t.rows, Books.Row(id, b, request, amount, None, Books.Reserved), c);
  }

  lemma {:induction false} ForeignKeepsOwn(t: Books.Tables, steps: seq<Books.Step>, c: Charge)
    requires AllForeign(c, steps)
    ensures OwnHeld(AfterAll(t, steps).rows, c) == OwnHeld(t.rows, c)
    decreases |steps|
  {
    hide Own, OwnHeld, Books.Reserve, Books.Reconcile;
    if steps != [] {
      assert Foreign(c, steps[0]);
      match steps[0] {
        case Provisioning(_, _) =>
        case Reserving(b, id, request, amount) => ReserveAddsOwn(t, b, id, request, amount, c);
        case Reconciling(id, actual) => ReconcileKeepsOwn(t, id, actual, c);
      }
      forall i | 0 <= i < |steps[1..]|
        ensures Foreign(c, steps[1..][i])
      {
        assert Foreign(c, steps[i + 1]);
      }
      ForeignKeepsOwn(Books.After(t, steps[0]), steps[1..], c);
    }
  }

  // An attempt adds to the ledger what its entry says it reserved.
  lemma AttemptHolds(stage: Engine.Stage, cs: seq<Engine.Candidate>, maxTokens: nat, c: Charge, k: nat,
      at: Engine.Cursor, m: Meeting, t: Books.Tables)
    requires at.candidate < |cs| && k < c.count && AllForeign(c, m.before) && AllForeign(c, m.between)
    ensures
      var (reply, u) := OnLedger(stage, cs, maxTokens, c, k, at, m, t);
      OwnHeld(u.rows, c) == OwnHeld(t.rows, c) + Engine.CostOf(Engine.Attempt(stage, cs, maxTokens, at, reply))
  {
    hide Own, OwnHeld, Books.Reserve, Books.Reconcile, Engine.Preflight, AllForeign, AfterAll, IdOf;
    OwnId(c, k);
    ForeignKeepsOwn(t, m.before, c);
    var bound := Engine.Preflight(stage, cs[at.candidate], at.input, maxTokens);
    if m.reply.blocked.None? && bound.Some? {
      var ready := AfterAll(t, m.before);
      ReserveAddsOwn(ready, BudgetOf(c), IdOf(c, k), c.requests(k), bound.value, c);
      var held := Books.Reserve(ready, BudgetOf(c), IdOf(c, k), c.requests(k), bound.value).0;
      ForeignKeepsOwn(held, m.between, c);
      ReconcileKeepsOwn(AfterAll(held, m.between), IdOf(c, k), Known(m.actual), c);
    }
  }

  lemma OwnId(c: Charge, k: nat)
    requires k < c.count
    ensures Own(c, IdOf(c, k))
  {
  }

  lemma {:induction false} PlayHolds(stage: Engine.Stage, cs: seq<Engine.Candidate>, call: Engine.Call, c: Charge,
      at: Engine.Cursor, index: nat, limit: nat, scene: Scene, t: Books.Tables)
    requires at.candidate < |cs| && limit <= c.count && ForeignScene(c, scene)
    ensures
      var (trace, u) := PlayOn(stage, cs, call, c, at, index, limit, scene, t);
      OwnHeld(u.rows, c) == OwnHeld(t.rows, c) + Engine.Reserved(trace)
    decreases limit - index
  {
    hide OnLedger, Engine.Attempt, AllForeign, OwnHeld, PlayOn;
    if index >= limit {
      NothingPlayed(stage, cs, call, c, at, index, limit, scene, t, (k: nat) => scene(k).reply);
    } else {
      var (reply, u) := OnLedger(stage, cs, call.maxTokens, c, index, at, scene(index), t);
      var entry := Engine.Attempt(stage, cs, call.maxTokens, at, reply);
      PlayOnStep(stage, cs, call, c, at, index, limit, scene, t);
      AttemptHolds(stage, cs, call.maxTokens, c, index, at, scene(index), t);
      assert Engine.Reserved([entry]) == Engine.CostOf(entry) by {
        assert [entry][1..] == [];
      }
      if entry.failure.Some? {
        var next := Engine.Next(stage, |cs|, call.input, at, entry.failure.value, reply);
        if next.Some? {
          PlayHolds(stage, cs, call, c, next.value, index + 1, limit, scene, u);
          var rest := PlayOn(stage, cs, call, c, next.value, index + 1, limit, scene, u).0;
          assert ([entry] + rest)[1..] == rest;
        }
      }
    }
  }

  // ----- the ledger stays within its caps -----

  lemma {:induction false} StepsFollow(t: Books.Tables, steps: seq<Books.Step>)
    requires Books.Valid(t)
    ensures Books.Valid(AfterAll(t, steps)) && Grows(t, AfterAll(t, steps))
    decreases |steps|
  {
    hide Books.Valid, Books.After;
    if steps != [] {
      OneStepFollows(t, steps[0]);
      StepsFollow(Books.After(t, steps[0]), steps[1..]);
    }
  }

  // Budgets stay, with their caps, and hold no less.
  ghost predicate Grows(t: Books.Tables, u: Books.Tables) {
    forall b | b in t.budgets ::
      b in u.budgets && u.budgets[b].cap == t.budgets[b].cap && t.budgets[b].held <= u.budgets[b].held
  }

  lemma OneStepFollows(t: Books.Tables, step: Books.Step)
    requires Books.Valid(t)
    ensures Books.Valid(Books.After(t, step)) && Grows(t, Books.After(t, step))
  {
    hide Books.Valid, Books.After;
    Books.StepKeeps(t, step);
    Books.StepFollows(t, step);
  }

  lemma AttemptFollows(stage: Engine.Stage, cs: seq<Engine.Candidate>, maxTokens: nat, c: Charge, k: nat,
      at: Engine.Cursor, m: Meeting, t: Books.Tables)
    requires at.candidate < |cs| && Books.Valid(t)
    ensures
      var u := OnLedger(stage, cs, maxTokens, c, k, at, m, t).1;
      Books.Valid(u) && Grows(t, u)
  {
    hide Books.Valid, AfterAll, Books.Reserve, Books.Reconcile, Engine.Preflight;
    StepsFollow(t, m.before);
    var ready := AfterAll(t, m.before);
    var bound := Engine.Preflight(stage, cs[at.candidate], at.input, maxTokens);
    if bound.Some? {
      var reserving := Books.Reserving(BudgetOf(c), IdOf(c, k), c.requests(k), bound.value);
      OneStepFollows(ready, reserving);
      var held := Books.After(ready, reserving);
      StepsFollow(held, m.between);
      OneStepFollows(AfterAll(held, m.between), Books.Reconciling(IdOf(c, k), Known(m.actual)));
    }
  }

  lemma {:induction false} PlayFollows(stage: Engine.Stage, cs: seq<Engine.Candidate>, call: Engine.Call, c: Charge,
      at: Engine.Cursor, index: nat, limit: nat, scene: Scene, t: Books.Tables)
    requires at.candidate < |cs| && Books.Valid(t)
    ensures
      var u := PlayOn(stage, cs, call, c, at, index, limit, scene, t).1;
      Books.Valid(u) && Grows(t, u)
    decreases limit - index
  {
    hide OnLedger, Engine.Attempt, Books.Valid, PlayOn;
    if index >= limit {
      NothingPlayed(stage, cs, call, c, at, index, limit, scene, t, (k: nat) => scene(k).reply);
    } else {
      var (reply, u) := OnLedger(stage, cs, call.maxTokens, c, index, at, scene(index), t);
      var entry := Engine.Attempt(stage, cs, call.maxTokens, at, reply);
      PlayOnStep(stage, cs, call, c, at, index, limit, scene, t);
      AttemptFollows(stage, cs, call.maxTokens, c, index, at, scene(index), t);
      if entry.failure.Some? {
        var next := Engine.Next(stage, |cs|, call.input, at, entry.failure.value, reply);
        if next.Some? {
          PlayFollows(stage, cs, call, c, next.value, index + 1, limit, scene, u);
        }
      }
    }
  }

  /** After an inference its rows on the ledger hold exactly what its attempts reserved, whatever others
      do meanwhile; and with what the others hold on the budget that is within the budget's cap. */
  lemma InferenceIsAccounted(stage: Engine.Stage, cs: seq<Engine.Candidate>, call: Engine.Call, retained: bool,
      c: Charge, scene: Scene, t: Books.Tables)
    requires cs != [] && stage.maxAttempts <= c.count && ForeignScene(c, scene) && Books.Valid(t)
    ensures
      var (trace, u) := TraceOn(stage, cs, call, retained, c, scene, t);
      && Books.Valid(u)
      && OwnHeld(u.rows, c) == OwnHeld(t.rows, c) + Engine.Reserved(trace)
      && (BudgetOf(c) in t.budgets ==>
        && BudgetOf(c) in u.budgets && u.budgets[BudgetOf(c)].cap == t.budgets[BudgetOf(c)].cap
        && OwnHeld(u.rows, c) + OthersHeld(u.rows, c) <= u.budgets[BudgetOf(c)].held <= u.budgets[BudgetOf(c)].cap)
  {
    hide PlayOn, Engine.Refused, Books.Valid, OwnHeld, OthersHeld, ForeignScene, Engine.Reserved;
    var at := Engine.Cursor(0, stage.maxRepairs, false, call.input);
    var limit := Engine.Min(stage.maxAttempts, |cs| + stage.maxRepairs);
    PlayHolds(stage, cs, call, c, at, 0, limit, scene, t);
    PlayFollows(stage, cs, call, c, at, 0, limit, scene, t);
    NothingReserved();
    var u := TraceOn(stage, cs, call, retained, c, scene, t).1;
    HeldSplits(u.rows, c);
    if BudgetOf(c) in t.budgets && BudgetOf(c) in u.budgets {
      Books.HeldCovers(u, BudgetOf(c));
    }
  }

  lemma NothingReserved()
    ensures Engine.Reserved([]) == 0
  {
  }

  // ----- after an overage -----

  predicate Frozen(t: Books.Tables, b: Books.BudgetId) { b in t.budgets && t.budgets[b].held == t.budgets[b].cap }

  lemma FrozenStays(t: Books.Tables, u: Books.Tables, b: Books.BudgetId)
    requires Frozen(t, b) && Grows(t, u) && Books.Valid(u)
    ensures Frozen(u, b)
  {
    Books.HeldCovers(u, b);
  }

  lemma {:induction false} ForeignKeepsRow(t: Books.Tables, steps: seq<Books.Step>, c: Charge, i: nat)
    requires AllForeign(c, steps) && i < |t.rows| && Own(c, t.rows[i].id)
    ensures
      var u := AfterAll(t, steps);
      i < |u.rows| && u.rows[i] == t.rows[i]
    decreases |steps|
  {
    hide Own, Books.Taken;
    if steps != [] {
      assert Foreign(c, steps[0]);
      forall j | 0 <= j < |steps[1..]|
        ensures Foreign(c, steps[1..][j])
      {
        assert Foreign(c, steps[j + 1]);
      }
      ForeignKeepsRow(Books.After(t, steps[0]), steps[1..], c, i);
    }
  }

  lemma SettlingFreezes(t: Books.Tables, i: nat, actual: Option<int>)
    requires Books.Valid(t) && i < |t.rows| && t.rows[i].state != Books.Reconciled
    requires actual.Some? && actual.value > t.rows[i].reserved && actual.value >= 0
    ensures Frozen(Books.Reconcile(t, t.rows[i].id, actual).0, t.rows[i].budget)
  {
    hide Books.ReservedOn;
    assert Books.Find(t.rows, t.rows[i].id) == i;
  }

  lemma OverageFreezes(stage: Engine.Stage, cs: seq<Engine.Candidate>, maxTokens: nat, c: Charge, k: nat,
      at: Engine.Cursor, m: Meeting, t: Books.Tables)
    requires at.candidate < |cs| && k < c.count && Books.Valid(t) && AllForeign(c, m.between)
    requires
      var entry := Engine.Attempt(stage, cs, maxTokens, at, OnLedger(stage, cs, maxTokens, c, k, at, m, t).0);
      entry.reserved.Some? && Exceeds(m.actual, entry.reserved.value)
    ensures Frozen(OnLedger(stage, cs, maxTokens, c, k, at, m, t).1, BudgetOf(c))
  {
    hide Books.Valid, AfterAll, Books.Reconcile, Engine.Preflight, AllForeign, Own, Books.Taken;
    OwnId(c, k);
    StepsFollow(t, m.before);
    var ready := AfterAll(t, m.before);
    var bound := Engine.Preflight(stage, cs[at.candidate], at.input, maxTokens);
    var reserving := Books.Reserving(BudgetOf(c), IdOf(c, k), c.requests(k), bound.value);
    var held := Books.After(ready, reserving);
    var i := |ready.rows|;
    OneStepFollows(ready, reserving);
    StepsFollow(held, m.between);
    ForeignKeepsRow(held, m.between, c, i);
    SettlingFreezes(AfterAll(held, m.between), i, Known(m.actual));
  }

  ghost predicate Spendless(trace: seq<Engine.Entry>) {
    forall i | 0 <= i < |trace| && trace[i].reserved.Some? :: trace[i].reserved.value <= 0
  }

  // On a frozen budget nothing that costs anything is reserved.
  lemma FrozenAttempt(stage: Engine.Stage, cs: seq<Engine.Candidate>, maxTokens: nat, c: Charge, k: nat,
      at: Engine.Cursor, m: Meeting, t: Books.Tables)
    requires at.candidate < |cs| && Books.Valid(t) && Frozen(t, BudgetOf(c))
    ensures
      var (reply, u) := OnLedger(stage, cs, maxTokens, c, k, at, m, t);
      Frozen(u, BudgetOf(c)) && Spendless([Engine.Attempt(stage, cs, maxTokens, at, reply)])
  {
    hide Books.Valid, AfterAll, Books.Reconcile, Engine.Preflight, Books.Taken;
    StepsFollow(t, m.before);
    FrozenStays(t, AfterAll(t, m.before), BudgetOf(c));
    AttemptFollows(stage, cs, maxTokens, c, k, at, m, t);
    FrozenStays(t, OnLedger(stage, cs, maxTokens, c, k, at, m, t).1, BudgetOf(c));
  }

  lemma SpendlessCons(entry: Engine.Entry, rest: seq<Engine.Entry>)
    requires Spendless([entry]) && Spendless(rest)
    ensures Spendless([entry] + rest)
  {
    assert [entry][0] == entry;
  }

  lemma {:induction false} FrozenPlay(stage: Engine.Stage, cs: seq<Engine.Candidate>, call: Engine.Call, c: Charge,
      at: Engine.Cursor, index: nat, limit: nat, scene: Scene, t: Books.Tables)
    requires at.candidate < |cs| && Books.Valid(t) && Frozen(t, BudgetOf(c))
    ensures Spendless(PlayOn(stage, cs, call, c, at, index, limit, scene, t).0)
    decreases limit - index
  {
    hide OnLedger, Engine.Attempt, Books.Valid, PlayOn, Spendless, Frozen;
    if index >= limit {
      NothingPlayed(stage, cs, call, c, at, index, limit, scene, t, (k: nat) => scene(k).reply);
      NothingSpent();
    } else {
      var (reply, u) := OnLedger(stage, cs, call.maxTokens, c, index, at, scene(index), t);
      var entry := Engine.Attempt(stage, cs, call.maxTokens, at, reply);
      PlayOnStep(stage, cs, call, c, at, index, limit, scene, t);
      AttemptFollows(stage, cs, call.maxTokens, c, index, at, scene(index), t);
      FrozenAttempt(stage, cs, call.maxTokens, c, index, at, scene(index), t);
      if entry.failure.Some? {
        var next := Engine.Next(stage, |cs|, call.input, at, entry.failure.value, reply);
        if next.Some? {
          FrozenPlay(stage, cs, call, c, next.value, index + 1, limit, scene, u);
          SpendlessCons(entry, PlayOn(stage, cs, call, c, next.value, index + 1, limit, scene, u).0);
        }
      }
    }
  }

  lemma NothingSpent()
    ensures Spendless([])
  {
  }

  lemma {:induction false} OveragePlay(stage: Engine.Stage, cs: seq<Engine.Candidate>, call: Engine.Call, c: Charge,
      at: Engine.Cursor, index: nat, limit: nat, scene: Scene, t: Books.Tables, i: nat)
    requires at.candidate < |cs| && limit <= c.count && Books.Valid(t) && ForeignScene(c, scene)
    requires
      var trace := PlayOn(stage, cs, call, c, at, index, limit, scene, t).0;
      i < |trace| && trace[i].reserved.Some? && Exceeds(scene(index + i).actual, trace[i].reserved.value)
    ensures Spendless(PlayOn(stage, cs, call, c, at, index, limit, scene, t).0[i + 1..])
    decreases limit - index
  {
    hide OnLedger, Engine.Attempt, Books.Valid, PlayOn, Spendless, Frozen, AllForeign, Exceeds;
    var trace := PlayOn(stage, cs, call, c, at, index, limit, scene, t).0;
    NothingSpent();
    if index >= limit {
      NothingPlayed(stage, cs, call, c, at, index, limit, scene, t, (k: nat) => scene(k).reply);
    } else {
      var (reply, u) := OnLedger(stage, cs, call.maxTokens, c, index, at, scene(index), t);
      var entry := Engine.Attempt(stage, cs, call.maxTokens, at, reply);
      PlayOnStep(stage, cs, call, c, at, index, limit, scene, t);
      AttemptFollows(stage, cs, call.maxTokens, c, index, at, scene(index), t);
      if |trace| == 1 {
        assert trace[i + 1..] == [];
      } else {
        var next := Engine.Next(stage, |cs|, call.input, at, entry.failure.value, reply).value;
        var rest := PlayOn(stage, cs, call, c, next, index + 1, limit, scene, u).0;
        assert trace == [entry] + rest;
        if i == 0 {
          OverageFreezes(stage, cs, call.maxTokens, c, index, at, scene(index), t);
          FrozenPlay(stage, cs, call, c, next, index + 1, limit, scene, u);
          assert trace[1..] == rest;
        } else {
          assert trace[i] == rest[i - 1];
          OveragePlay(stage, cs, call, c, next, index + 1, limit, scene, u, i - 1);
          assert trace[i + 1..] == rest[i..];
        }
      }
    }
  }

  /** Once a provider reports more than an attempt reserved, no later attempt of the inference reserves
      anything on the budget, fallback and repair included, whatever others do to the ledger. */
  lemma OverageStopsSpending(stage: Engine.Stage, cs: seq<Engine.Candidate>, call: Engine.Call, retained: bool,
      c: Charge, scene: Scene, t: Books.Tables, i: nat)
    requires cs != [] && stage.maxAttempts <= c.count && Books.Valid(t) && ForeignScene(c, scene)
    requires
      var trace := TraceOn(stage, cs, call, retained, c, scene, t).0;
      i < |trace| && trace[i].reserved.Some? && Exceeds(scene(i).actual, trace[i].reserved.value)
    ensures Spendless(TraceOn(stage, cs, call, retained, c, scene, t).0[i + 1..])
  {
    hide PlayOn, Engine.Refused, Books.Valid, Spendless, ForeignScene, Exceeds;
    OveragePlay(stage, cs, call, c, Engine.Cursor(0, stage.maxRepairs, false, call.input), 0,
        Engine.Min(stage.maxAttempts, |cs| + stage.maxRepairs), scene, t, i);
  }

  // ----- when the ledger refuses nothing -----

  // Others work on other budgets: they settle none of the rows in `ids`, and use none of the requests.
  ghost predicate Elsewhere(c: Charge, ids: set<Books.ReservationId>, step: Books.Step) {
    && Foreign(c, step)
    && (step.Reconciling? ==> step.id !in ids)
    && (step.Reserving? ==> step.b != BudgetOf(c))
    && (step.Reserving? && step.id.owner == c.owner ==> forall k: nat | k < c.count :: step.request != c.requests(k))
  }

  ghost predicate AllElsewhere(c: Charge, ids: set<Books.ReservationId>, steps: seq<Books.Step>) {
    forall i | 0 <= i < |steps| :: Elsewhere(c, ids, steps[i])
  }

  ghost predicate QuietScene(c: Charge, ids: set<Books.ReservationId>, scene: Scene) {
    forall k: nat :: AllElsewhere(c, ids, scene(k).before) && AllElsewhere(c, ids, scene(k).between)
  }

  // All rows on the budget are in `ids` or the inference's own, and its requests from the k-th on are
  // unused.
  ghost predicate Ready(t: Books.Tables, c: Charge, ids: set<Books.ReservationId>, k: nat) {
    && BudgetOf(c) in t.budgets
    && (forall i | 0 <= i < |t.rows| && t.rows[i].budget == BudgetOf(c) :: Own(c, t.rows[i].id) || t.rows[i].id in ids)
    && (forall n: nat | k <= n < c.count :: !Books.Taken(t.rows, IdOf(c, n), c.requests(n)))
  }

  ghost predicate DistinctRequests(c: Charge) {
    forall j: nat, k: nat | j < k < c.count :: c.requests(j) != c.requests(k)
  }

  lemma NotTaken(rows: seq<Books.Row>, id: Books.ReservationId, request: nat, i: nat)
    requires !Books.Taken(rows, id, request) && i < |rows|
    ensures rows[i].id != id && (rows[i].id.owner == id.owner ==> rows[i].request != request)
  {
  }

  lemma TakenAppend(rows: seq<Books.Row>, row: Books.Row, id: Books.ReservationId, request: nat)
    requires !Books.Taken(rows, id, request)
    requires row.id != id && (row.id.owner == id.owner ==> row.request != request)
    ensures !Books.Taken(rows + [row], id, request)
  {
  }

  lemma ElsewhereKeepsReady(t: Books.Tables, step: Books.Step, c: Charge, ids: set<Books.ReservationId>, k: nat)
    requires Ready(t, c, ids, k) && Elsewhere(c, ids, step)
    ensures
      var u := Books.After(t, step);
      Ready(u, c, ids, k) && u.budgets[BudgetOf(c)] == t.budgets[BudgetOf(c)]
  {
    hide Own, Books.Taken;
    var u := Books.After(t, step);
    match step {
      case Provisioning(_, _) =>
      case Reserving(b, id, request, amount) =>
        forall n: nat | k <= n < c.count
          ensures !Books.Taken(u.rows, IdOf(c, n), c.requests(n))
        {
          if u.rows != t.rows {
            OwnId(c, n);
            assert id.owner == c.owner ==> request != c.requests(n);
            TakenAppend(t.rows, Books.Row(id, b, request, amount, None, Books.Reserved), IdOf(c, n), c.requests(n));
          }
        }
      case Reconciling(id, actual) =>
        SettlingKeepsTaken(t, id, actual);
        var i := Books.Find(t.rows, id);
        if i < |t.rows| {
          assert t.rows[i].budget != BudgetOf(c);
        }
    }
  }

  lemma SettlingKeepsTaken(t: Books.Tables, id: Books.ReservationId, actual: Option<int>)
    ensures
      var u := Books.Reconcile(t, id, actual).0;
      && |u.rows| == |t.rows|
      && (forall i | 0 <= i < |t.rows| :: u.rows[i].id == t.rows[i].id && u.rows[i].budget == t.rows[i].budget)
      && forall other, request :: Books.Taken(u.rows, other, request) == Books.Taken(t.rows, other, request)
  {
    var u := Books.Reconcile(t, id, actual).0;
    forall other, request
      ensures Books.Taken(u.rows, other, request) == Books.Taken(t.rows, other, request)
    {
      assert forall i | 0 <= i < |t.rows| :: u.rows[i].id == t.rows[i].id && u.rows[i].request == t.rows[i].request;
    }
  }

  lemma {:induction false} AllElsewhereKeeps(t: Books.Tables, steps: seq<Books.Step>, c: Charge,
      ids: set<Books.ReservationId>, k: nat)
    requires Ready(t, c, ids, k) && AllElsewhere(c, ids, steps)
    ensures
      var u := AfterAll(t, steps);
      Ready(u, c, ids, k) && u.budgets[BudgetOf(c)] == t.budgets[BudgetOf(c)]
    decreases |steps|
  {
    hide Own, Books.After, Elsewhere;
    if steps != [] {
      assert Elsewhere(c, ids, steps[0]);
      ElsewhereKeepsReady(t, steps[0], c, ids, k);
      forall j | 0 <= j < |steps[1..]|
        ensures Elsewhere(c, ids, steps[1..][j])
      {
        assert Elsewhere(c, ids, steps[j + 1]);
      }
      AllElsewhereKeeps(Books.After(t, steps[0]), steps[1..], c, ids, k);
    }
  }

  // The inference's own reservation goes through when there is room for it.
  lemma ReservesOwn(t: Books.Tables, c: Charge, ids: set<Books.ReservationId>, k: nat, amount: int)
    requires Ready(t, c, ids, k) && k < c.count && DistinctRequests(c) && 0 <= amount <= Books.LIMIT
    requires t.budgets[BudgetOf(c)].held + amount <= t.budgets[BudgetOf(c)].cap
    ensures
      var b := BudgetOf(c);
      var (u, answer) := Books.Reserve(t, b, IdOf(c, k), c.requests(k), amount);
      && answer == Books.Ok && Ready(u, c, ids, k + 1)
      && u.budgets[b] == Books.Budget(t.budgets[b].cap, t.budgets[b].held + amount)
      && u.rows == t.rows + [Books.Row(IdOf(c, k), b, c.requests(k), amount, None, Books.Reserved)]
  {
    hide Own, Books.Taken;
    OwnId(c, k);
    var row := Books.Row(IdOf(c, k), BudgetOf(c), c.requests(k), amount, None, Books.Reserved);
    assert !Books.Taken(t.rows, IdOf(c, k), c.requests(k));
    forall n: nat | k + 1 <= n < c.count
      ensures !Books.Taken(t.rows + [row], IdOf(c, n), c.requests(n))
    {
      assert c.requests(n) != c.requests(k);
      TakenAppend(t.rows, row, IdOf(c, n), c.requests(n));
    }
  }

  // And settling within the reservation changes no budget.
  lemma SettlesOwn(t: Books.Tables, c: Charge, ids: set<Books.ReservationId>, k: nat, i: nat, actual: Option<nat>)
    requires Ready(t, c, ids, k) && i < |t.rows| && Books.Find(t.rows, t.rows[i].id) == i
    requires !Exceeds(actual, t.rows[i].reserved)
    ensures
      var u := Books.Reconcile(t, t.rows[i].id, Known(actual)).0;
      Ready(u, c, ids, k) && u.budgets == t.budgets
  {
    hide Own, Books.Taken;
    SettlingKeepsTaken(t, t.rows[i].id, Known(actual));
  }

  lemma {:induction false} FindsFirst(rows: seq<Books.Row>, i: nat)
    requires i < |rows| && forall j | 0 <= j < i :: rows[j].id != rows[i].id
    ensures Books.Find(rows, rows[i].id) == i
  {
  }

  // Others leave the identifiers before a row of this inference as they are.
  lemma {:induction false} IdsStay(t: Books.Tables, steps: seq<Books.Step>)
    ensures |t.rows| <= |AfterAll(t, steps).rows|
    ensures forall i | 0 <= i < |t.rows| :: AfterAll(t, steps).rows[i].id == t.rows[i].id
    decreases |steps|
  {
    hide Books.Taken;
    if steps != [] {
      IdsStay(Books.After(t, steps[0]), steps[1..]);
    }
  }

  lemma NewRowIsFirst(rows: seq<Books.Row>, id: Books.ReservationId, request: nat)
    requires !Books.Taken(rows, id, request)
    ensures forall j | 0 <= j < |rows| :: rows[j].id != id
  {
  }

  lemma ForeignOf(c: Charge, ids: set<Books.ReservationId>, steps: seq<Books.Step>)
    requires AllElsewhere(c, ids, steps)
    ensures AllForeign(c, steps)
  {
    hide Foreign;
    forall i | 0 <= i < |steps|
      ensures Foreign(c, steps[i])
    {
      assert Elsewhere(c, ids, steps[i]);
    }
  }

  // Reserving and settling one attempt in peace.
  lemma ChargeInPeace(t: Books.Tables, c: Charge, ids: set<Books.ReservationId>, k: nat, amount: int,
      between: seq<Books.Step>, actual: Option<nat>)
    requires Ready(t, c, ids, k) && k < c.count && DistinctRequests(c)
    requires 0 <= amount <= Books.LIMIT && AllElsewhere(c, ids, between)
    requires t.budgets[BudgetOf(c)].held + amount <= t.budgets[BudgetOf(c)].cap && !Exceeds(actual, amount)
    ensures
      var (held, answer) := Books.Reserve(t, BudgetOf(c), IdOf(c, k), c.requests(k), amount);
      var u := Books.Reconcile(AfterAll(held, between), IdOf(c, k), Known(actual)).0;
      && answer == Books.Ok && Ready(u, c, ids, k + 1)
      && u.budgets[BudgetOf(c)] == Books.Budget(t.budgets[BudgetOf(c)].cap, t.budgets[BudgetOf(c)].held + amount)
  {
    hide Books.Taken, Books.Reserve, Books.Reconcile, AfterAll, Own, AllElsewhere, AllForeign;
    ReservesOwn(t, c, ids, k, amount);
    var held := Books.Reserve(t, BudgetOf(c), IdOf(c, k), c.requests(k), amount).0;
    var i := |t.rows|;
    assert !Books.Taken(t.rows, IdOf(c, k), c.requests(k));
    NewRowIsFirst(t.rows, IdOf(c, k), c.requests(k));
    AllElsewhereKeeps(held, between, c, ids, k + 1);
    ForeignOf(c, ids, between);
    OwnId(c, k);
    ForeignKeepsRow(held, between, c, i);
    IdsStay(held, between);
    var settled := AfterAll(held, between);
    forall j | 0 <= j < i
      ensures settled.rows[j].id != settled.rows[i].id
    {
      assert held.rows[j] == t.rows[j];
    }
    FindsFirst(settled.rows, i);
    SettlesOwn(settled, c, ids, k + 1, i, actual);
  }

  lemma ReadyLater(t: Books.Tables, c: Charge, ids: set<Books.ReservationId>, k: nat)
    requires Ready(t, c, ids, k)
    ensures Ready(t, c, ids, k + 1)
  {
    hide Own, Books.Taken;
  }

  lemma BoundInRange(stage: Engine.Stage, candidate: Engine.Candidate, input: nat, maxTokens: nat)
    requires Engine.ValidTarget(candidate.target)
    ensures
      var bound := Engine.Preflight(stage, candidate, input, maxTokens);
      bound.Some? ==> 0 <= bound.value <= stage.maxCost
  {
    Engine.CostBoundMonotone(candidate.target, input, input, maxTokens);
  }

  // One attempt, with room for it and nobody else on the budget: the ledger changes nothing about it.
  lemma AttemptInPeace(stage: Engine.Stage, cs: seq<Engine.Candidate>, maxTokens: nat, c: Charge,
      ids: set<Books.ReservationId>, k: nat, at: Engine.Cursor, m: Meeting, t: Books.Tables)
    requires at.candidate < |cs| && Engine.ValidCandidates(cs) && stage.maxCost <= Books.LIMIT
    requires Ready(t, c, ids, k) && k < c.count && DistinctRequests(c)
    requires AllElsewhere(c, ids, m.before) && AllElsewhere(c, ids, m.between)
    requires
      var entry := Engine.Attempt(stage, cs, maxTokens, at, m.reply);
      && t.budgets[BudgetOf(c)].held + Engine.CostOf(entry) <= t.budgets[BudgetOf(c)].cap
      && (entry.reserved.Some? ==> !Exceeds(m.actual, entry.reserved.value))
    ensures
      var (reply, u) := OnLedger(stage, cs, maxTokens, c, k, at, m, t);
      && reply == m.reply && Ready(u, c, ids, k + 1)
      && u.budgets[BudgetOf(c)]
         == Books.Budget(t.budgets[BudgetOf(c)].cap,
                         t.budgets[BudgetOf(c)].held + Engine.CostOf(Engine.Attempt(stage, cs, maxTokens, at, reply)))
  {
    hide Books.Taken, Books.Reserve, Books.Reconcile, AfterAll, Own, AllElsewhere, Ready, Engine.Preflight,
        Engine.ValidTarget;
    AllElsewhereKeeps(t, m.before, c, ids, k);
    ReadyHasBudget(t, c, ids, k);
    var ready := AfterAll(t, m.before);
    var bound := Engine.Preflight(stage, cs[at.candidate], at.input, maxTokens);
    ReadyLater(ready, c, ids, k);
    BoundInRange(stage, cs[at.candidate], at.input, maxTokens);
    if m.reply.blocked.None? && bound.Some? {
      ChargeInPeace(ready, c, ids, k, bound.value, m.between, m.actual);
    }
  }

  lemma ReadyHasBudget(t: Books.Tables, c: Charge, ids: set<Books.ReservationId>, k: nat)
    requires Ready(t, c, ids, k)
    ensures BudgetOf(c) in t.budgets
  {
  }

  function WorldOf(scene: Scene): Engine.World { (k: nat) => scene(k).reply }

  // No provider reports more than an attempt reserved; the trace begins with the attempt `index`.
  ghost predicate NoOverage(trace: seq<Engine.Entry>, scene: Scene, index: nat) {
    forall i | 0 <= i < |trace| && trace[i].reserved.Some? :: !Exceeds(scene(index + i).actual, trace[i].reserved.value)
  }

  lemma NoOverageParts(entry: Engine.Entry, rest: seq<Engine.Entry>, scene: Scene, index: nat)
    requires NoOverage([entry] + rest, scene, index)
    ensures entry.reserved.Some? ==> !Exceeds(scene(index).actual, entry.reserved.value)
    ensures NoOverage(rest, scene, index + 1)
  {
    var all := [entry] + rest;
    assert all[0] == entry;
    forall i | 0 <= i < |rest| && rest[i].reserved.Some?
      ensures !Exceeds(scene(index + 1 + i).actual, rest[i].reserved.value)
    {
      assert all[i + 1] == rest[i] && index + (i + 1) == index + 1 + i;
    }
  }

  lemma CostNonnegative(stage: Engine.Stage, cs: seq<Engine.Candidate>, maxTokens: nat, at: Engine.Cursor,
      reply: Engine.Reply)
    requires at.candidate < |cs| && Engine.ValidCandidates(cs)
    ensures Engine.CostOf(Engine.Attempt(stage, cs, maxTokens, at, reply)) >= 0
  {
    BoundInRange(stage, cs[at.candidate], at.input, maxTokens);
  }

  lemma {:induction false} PlayNonnegative(stage: Engine.Stage, cs: seq<Engine.Candidate>, call: Engine.Call,
      at: Engine.Cursor, index: nat, limit: nat, world: Engine.World)
    requires at.candidate < |cs| && Engine.ValidCandidates(cs)
    ensures Engine.Reserved(Engine.Play(stage, cs, call, at, index, limit, world)) >= 0
    decreases limit - index
  {
    hide Engine.Attempt, Engine.ValidCandidates;
    if index < limit {
      var entry := Engine.Attempt(stage, cs, call.maxTokens, at, world(index));
      CostNonnegative(stage, cs, call.maxTokens, at, world(index));
      if entry.failure.Some? {
        var next := Engine.Next(stage, |cs|, call.input, at, entry.failure.value, world(index));
        if next.Some? {
          PlayNonnegative(stage, cs, call, next.value, index + 1, limit, world);
        }
      }
    }
  }

  lemma ReservedCons(entry: Engine.Entry, rest: seq<Engine.Entry>)
    ensures Engine.Reserved([entry] + rest) == Engine.CostOf(entry) + Engine.Reserved(rest)
    ensures Engine.Reserved([entry]) == Engine.CostOf(entry)
  {
    assert ([entry] + rest)[1..] == rest && [entry][1..] == [];
  }

  lemma {:induction false} PlayInPeace(stage: Engine.Stage, cs: seq<Engine.Candidate>, call: Engine.Call, c: Charge,
      ids: set<Books.ReservationId>, at: Engine.Cursor, index: nat, limit: nat, scene: Scene, t: Books.Tables)
    requires at.candidate < |cs| && Engine.ValidCandidates(cs) && stage.maxCost <= Books.LIMIT
    requires Ready(t, c, ids, index) && limit <= c.count && DistinctRequests(c) && QuietScene(c, ids, scene)
    requires
      var trace := Engine.Play(stage, cs, call, at, index, limit, WorldOf(scene));
      && t.budgets[BudgetOf(c)].held + Engine.Reserved(trace) <= t.budgets[BudgetOf(c)].cap
      && NoOverage(trace, scene, index)
    ensures
      var (trace, u) := PlayOn(stage, cs, call, c, at, index, limit, scene, t);
      && trace == Engine.Play(stage, cs, call, at, index, limit, WorldOf(scene))
      && BudgetOf(c) in u.budgets
      && u.budgets[BudgetOf(c)]
         == Books.Budget(t.budgets[BudgetOf(c)].cap, t.budgets[BudgetOf(c)].held + Engine.Reserved(trace))
    decreases limit - index
  {
    hide OnLedger, Engine.Attempt, PlayOn, Engine.Play, Engine.Reserved, Engine.CostOf, Ready, AllElsewhere, NoOverage,
        DistinctRequests, Engine.ValidCandidates, Exceeds;
    ReadyHasBudget(t, c, ids, index);
    NothingReserved();
    if index >= limit {
      NothingPlayed(stage, cs, call, c, at, index, limit, scene, t, WorldOf(scene));
    } else {
      var m, world := scene(index), WorldOf(scene);
      var entry := Engine.Attempt(stage, cs, call.maxTokens, at, m.reply);
      var u := OnLedger(stage, cs, call.maxTokens, c, index, at, m, t).1;
      Engine.PlayStep(stage, cs, call, at, index, limit, world);
      PlayOnStep(stage, cs, call, c, at, index, limit, scene, t);
      var next := if entry.failure.Some? then Engine.Next(stage, |cs|, call.input, at, entry.failure.value, m.reply)
                  else None;
      var rest := if next.Some? then Engine.Play(stage, cs, call, next.value, index + 1, limit, world) else [];
      assert [entry] + [] == [entry];
      assert Engine.Play(stage, cs, call, at, index, limit, world) == [entry] + rest;
      ReservedCons(entry, rest);
      NoOverageParts(entry, rest, scene, index);
      if next.Some? {
        PlayNonnegative(stage, cs, call, next.value, index + 1, limit, world);
      }
      AttemptInPeace(stage, cs, call.maxTokens, c, ids, index, at, m, t);
      ReadyHasBudget(u, c, ids, index + 1);
      if next.Some? {
        PlayInPeace(stage, cs, call, c, ids, next.value, index + 1, limit, scene, u);
      }
    }
  }

  /** When a budget has room for the stage's cap, others stay off it and no provider overruns, the
      ledger refuses nothing: the attempts are those the world determines, and afterwards the budget
      holds exactly their reservations on top of what it held, within its cap. */
  lemma LedgerRefusesNothing(stage: Engine.Stage, cs: seq<Engine.Candidate>, call: Engine.Call, retained: bool,
      c: Charge, ids: set<Books.ReservationId>, scene: Scene, t: Books.Tables)
    requires cs != [] && Engine.ValidCandidates(cs) && 0 <= stage.maxCost <= Books.LIMIT
    requires stage.maxAttempts <= c.count && Ready(t, c, ids, 0) && DistinctRequests(c) && QuietScene(c, ids, scene)
    requires t.budgets[BudgetOf(c)].held + stage.maxCost <= t.budgets[BudgetOf(c)].cap
    requires NoOverage(Engine.Trace(stage, cs, call, retained, WorldOf(scene)), scene, 0)
    ensures
      var (trace, u) := TraceOn(stage, cs, call, retained, c, scene, t);
      && trace == Engine.Trace(stage, cs, call, retained, WorldOf(scene))
      && BudgetOf(c) in u.budgets && u.budgets[BudgetOf(c)].cap == t.budgets[BudgetOf(c)].cap
      && u.budgets[BudgetOf(c)].held == t.budgets[BudgetOf(c)].held + Engine.Reserved(trace)
      && u.budgets[BudgetOf(c)].held <= u.budgets[BudgetOf(c)].cap
  {
    hide PlayOn, Engine.Refused, Engine.Play, Ready, QuietScene, DistinctRequests, NoOverage, Engine.Reserved,
        Engine.ValidCandidates;
    ReadyHasBudget(t, c, ids, 0);
    NothingReserved();
    Engine.StageSpendBounded(stage, cs, call, retained, WorldOf(scene));
    if Engine.Refused(stage, cs, call, retained).None? {
      PlayInPeace(stage, cs, call, c, ids, Engine.Cursor(0, stage.maxRepairs, false, call.input), 0,
          Engine.Min(stage.maxAttempts, |cs| + stage.maxRepairs), scene, t);
    }
  }
}

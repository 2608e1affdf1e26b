/**
 What each attempt of an inference on the ledger comes to: why it fails before the provider is asked, and
 otherwise the row that its reservation leaves behind.
 */
module AccountingRules {
  import opened Basics
  import opened Failures
  import opened Accounting
  import Engine = AttemptEngine
  import Books = BudgetLedger

  // The budget exists and has so much left.
  predicate HasRoom(t: Books.Tables, b: Books.BudgetId, amount: int) {
    b in t.budgets && t.budgets[b].held + amount <= t.budgets[b].cap
  }

  ghost predicate IsUsed(t: Books.Tables, id: Books.ReservationId, request: nat) {
    exists i :: 0 <= i < |t.rows| && SameRequest(t.rows[i], id, request)
  }

  predicate SameRequest(row: Books.Row, id: Books.ReservationId, request: nat) {
    row.id == id || (row.id.owner == id.owner && row.request == request)
  }

  // The attempt ends before anything is reserved, and the ledger stays as the others left it.
  predicate EndsUnreserved(entry: Engine.Entry, kind: FailureKind, ready: Books.Tables, u: Books.Tables) {
    entry.failure == Some(kind) && entry.reserved.None? && u == ready
  }

  // Reserved, and settled with what the provider reports: a known cost within the amount is booked, and
  // anything else is left uncertain; a success that cost more is a violation of the budget, which is
  // then held as a whole.
  ghost predicate EndsSettled(entry: Engine.Entry, amount: int, c: Charge, k: nat, m: Meeting, ready: Books.Tables,
      u: Books.Tables)
  {
    var n, over := |ready.rows|, m.actual.Some? && m.actual.value > amount;
    && entry.reserved == Some(amount)
    && (m.reply.failure.Some? ==> entry.failure == m.reply.failure)
    && (m.reply.failure.None? ==> entry.failure == if over then Some(BudgetViolation) else None)
    && n < |u.rows| && u.rows[n].id == IdOf(c, k) && u.rows[n].budget == BudgetOf(c)
    && u.rows[n].request == c.requests(k) && u.rows[n].reserved == amount
    && (if m.actual.Some? && !over then
          u.rows[n].state == Books.Reconciled && u.rows[n].actual == Some(m.actual.value)
        else u.rows[n].state == Books.Uncertain && u.rows[n].actual.None?)
    && (over ==> BudgetOf(c) in u.budgets && u.budgets[BudgetOf(c)].held == u.budgets[BudgetOf(c)].cap)
  }

  // One attempt, from the tables before it to those after it.
  ghost predicate AttemptOn(stage: Engine.Stage, cs: seq<Engine.Candidate>, maxTokens: nat, c: Charge, k: nat,
      m: Meeting, entry: Engine.Entry, t: Books.Tables, u: Books.Tables)
  {
    && entry.candidate < |cs|
    && var ready, bound := AfterAll(t, m.before),
           Engine.Preflight(stage, cs[entry.candidate], entry.input, maxTokens);
       if m.reply.blocked.Some? then EndsUnreserved(entry, m.reply.blocked.value, ready, u)
       else if bound.None? then EndsUnreserved(entry, CapabilityMismatch, ready, u)
       else if !(0 <= bound.value <= 1_000_000) then EndsUnreserved(entry, ProviderFailure, ready, u)
       else if !HasRoom(ready, BudgetOf(c), bound.value) then EndsUnreserved(entry, RateLimit, ready, u)
       else if IsUsed(ready, IdOf(c, k), c.requests(k)) then EndsUnreserved(entry, ProviderFailure, ready, u)
       else EndsSettled(entry, bound.value, c, k, m, ready, u)
  }

  lemma UsedIsTaken(t: Books.Tables, id: Books.ReservationId, request: nat)
    ensures IsUsed(t, id, request) <==> Books.Taken(t.rows, id, request)
  {
    if Books.Taken(t.rows, id, request) {
      var i :| 0 <= i < |t.rows|
        && (t.rows[i].id == id || (t.rows[i].id.owner == id.owner && t.rows[i].request == request));
      assert SameRequest(t.rows[i], id, request);
    }
    if IsUsed(t, id, request) {
      var i :| 0 <= i < |t.rows| && SameRequest(t.rows[i], id, request);
    }
  }

  lemma ReserveGrants(t: Books.Tables, b: Books.BudgetId, id: Books.ReservationId, request: nat, amount: int)
    ensures
      var (u, answer) := Books.Reserve(t, b, id, request, amount);
      if !(0 <= amount <= 1_000_000) then answer == Books.Invalid
      else if !HasRoom(t, b, amount) then answer == Books.Exhausted
      else if IsUsed(t, id, request) then answer == Books.Conflict
      else
        && answer == Books.Ok && u.rows == t.rows + [Books.Row(id, b, request, amount, None, Books.Reserved)]
        && u.budgets.Keys == t.budgets.Keys
  {
    UsedIsTaken(t, id, request);
    hide Books.Taken, IsUsed;
  }

  // The report settles the row it is about.
  lemma ReconcileSettles(t: Books.Tables, i: nat, actual: Option<nat>)
    requires i < |t.rows| && Books.Find(t.rows, t.rows[i].id) == i && t.rows[i].state == Books.Reserved
    requires t.rows[i].actual.None? && t.rows[i].budget in t.budgets
    ensures
      var row, u := t.rows[i], Books.Reconcile(t, t.rows[i].id, Known(actual)).0;
      var over := actual.Some? && actual.value > row.reserved;
      && |u.rows| == |t.rows|
      && u.rows[i].(state := row.state, actual := row.actual) == row
      && (if actual.Some? && !over then u.rows[i].state == Books.Reconciled && u.rows[i].actual == Some(actual.value)
          else u.rows[i].state == Books.Uncertain && u.rows[i].actual.None?)
      && (over ==> row.budget in u.budgets && u.budgets[row.budget].held == u.budgets[row.budget].cap)
  {
  }

  lemma {:induction false} BudgetsStay(t: Books.Tables, steps: seq<Books.Step>)
    ensures t.budgets.Keys <= AfterAll(t, steps).budgets.Keys
    decreases |steps|
  {
    hide Books.Taken;
    if steps != [] {
      BudgetsStay(Books.After(t, steps[0]), steps[1..]);
    }
  }

  // The new row of an attempt, after the others and the report.
  lemma RowSettles(t: Books.Tables, held: Books.Tables, c: Charge, k: nat, amount: int, m: Meeting)
    requires k < c.count && AllForeign(c, m.between) && BudgetOf(c) in held.budgets
    requires !Books.Taken(t.rows, IdOf(c, k), c.requests(k))
    requires held.rows == t.rows + [Books.Row(IdOf(c, k), BudgetOf(c), c.requests(k), amount, None, Books.Reserved)]
    ensures
      var n, u := |t.rows|, Books.Reconcile(AfterAll(held, m.between), IdOf(c, k), Known(m.actual)).0;
      var over := m.actual.Some? && m.actual.value > amount;
      && n < |u.rows| && u.rows[n].id == IdOf(c, k) && u.rows[n].budget == BudgetOf(c)
      && u.rows[n].request == c.requests(k) && u.rows[n].reserved == amount
      && (if m.actual.Some? && !over then
            u.rows[n].state == Books.Reconciled && u.rows[n].actual == Some(m.actual.value)
          else u.rows[n].state == Books.Uncertain && u.rows[n].actual.None?)
      && (over ==> BudgetOf(c) in u.budgets && u.budgets[BudgetOf(c)].held == u.budgets[BudgetOf(c)].cap)
  {
    hide Books.Taken, Books.Reconcile, AfterAll, Own, AllForeign, Known;
    var n, later := |t.rows|, AfterAll(held, m.between);
    NewRowIsFirst(t.rows, IdOf(c, k), c.requests(k));
    OwnId(c, k);
    ForeignKeepsRow(held, m.between, c, n);
    IdsStay(held, m.between);
    BudgetsStay(held, m.between);
    forall j | 0 <= j < n
      ensures later.rows[j].id != later.rows[n].id
    {
      assert held.rows[j] == t.rows[j];
    }
    FindsFirst(later.rows, n);
    ReconcileSettles(later, n, m.actual);
  }

  /** One attempt on the ledger, case by case: refused by the route, by its price, by the budget or by a
      request that was used before, it reserves nothing; otherwise its row says what the provider reported,
      and its failure is the provider's, or a violation of the budget. */
  lemma AttemptExactly(stage: Engine.Stage, cs: seq<Engine.Candidate>, maxTokens: nat, c: Charge, k: nat,
      at: Engine.Cursor, m: Meeting, t: Books.Tables)
    requires at.candidate < |cs| && k < c.count && AllForeign(c, m.between)
    ensures
      var (reply, u) := OnLedger(stage, cs, maxTokens, c, k, at, m, t);
      AttemptOn(stage, cs, maxTokens, c, k, m, Engine.Attempt(stage, cs, maxTokens, at, reply), t, u)
  {
    hide Engine.Preflight, Books.Reserve, Books.Reconcile, AfterAll, HasRoom, AllForeign, Books.Taken, IsUsed;
    var ready, bound := AfterAll(t, m.before), Engine.Preflight(stage, cs[at.candidate], at.input, maxTokens);
    if m.reply.blocked.None? && bound.Some? {
      var (held, answer) := Books.Reserve(ready, BudgetOf(c), IdOf(c, k), c.requests(k), bound.value);
      ReserveGrants(ready, BudgetOf(c), IdOf(c, k), c.requests(k), bound.value);
      UsedIsTaken(ready, IdOf(c, k), c.requests(k));
      if answer == Books.Ok {
        RoomHasBudget(ready, BudgetOf(c), bound.value);
        RowSettles(ready, held, c, k, bound.value, m);
      }
    }
  }

  lemma RoomHasBudget(t: Books.Tables, b: Books.BudgetId, amount: int)
    requires HasRoom(t, b, amount)
    ensures b in t.budgets
  {
  }

  // ----- all attempts of an inference -----

  // The attempts lead from the tables before the first to those after the last.
  ghost predicate Attempted(stage: Engine.Stage, cs: seq<Engine.Candidate>, maxTokens: nat, c: Charge,
      entries: seq<Engine.Entry>, index: nat, scene: Scene, t: Books.Tables, v: Books.Tables)
    decreases |entries|
  {
    if entries == [] then v == t
    else
      exists u :: AttemptOn(stage, cs, maxTokens, c, index, scene(index), entries[0], t, u)
        && Attempted(stage, cs, maxTokens, c, entries[1..], index + 1, scene, u, v)
  }

  lemma {:induction false} PlayAttempts(stage: Engine.Stage, cs: seq<Engine.Candidate>, call: Engine.Call, c: Charge,
      at: Engine.Cursor, index: nat, limit: nat, scene: Scene, t: Books.Tables)
    requires at.candidate < |cs| && limit <= c.count && ForeignScene(c, scene)
    ensures
      var (entries, v) := PlayOn(stage, cs, call, c, at, index, limit, scene, t);
      Attempted(stage, cs, call.maxTokens, c, entries, index, scene, t, v)
    decreases limit - index
  {
    hide OnLedger, Engine.Attempt, PlayOn, AttemptOn, AllForeign, Attempted;
    if index < limit {
      var (reply, u) := OnLedger(stage, cs, call.maxTokens, c, index, at, scene(index), t);
      var entry := Engine.Attempt(stage, cs, call.maxTokens, at, reply);
      PlayOnStep(stage, cs, call, c, at, index, limit, scene, t);
      AttemptExactly(stage, cs, call.maxTokens, c, index, at, scene(index), t);
      if entry.failure.Some? {
        var next := Engine.Next(stage, |cs|, call.input, at, entry.failure.value, reply);
        if next.Some? {
          PlayAttempts(stage, cs, call, c, next.value, index + 1, limit, scene, u);
          var (rest, v) := PlayOn(stage, cs, call, c, next.value, index + 1, limit, scene, u);
          AttemptedCons(stage, cs, call.maxTokens, c, entry, rest, index, scene, t, u, v);
          return;
        }
      }
      NoneAttempted(stage, cs, call.maxTokens, c, index + 1, scene, u);
      AttemptedCons(stage, cs, call.maxTokens, c, entry, [], index, scene, t, u, u);
      assert [entry] + [] == [entry];
    } else {
      PlayEnds(stage, cs, call, c, at, index, limit, scene, t);
      NoneAttempted(stage, cs, call.maxTokens, c, index, scene, t);
    }
  }

  lemma AttemptedCons(stage: Engine.Stage, cs: seq<Engine.Candidate>, maxTokens: nat, c: Charge, entry: Engine.Entry,
      rest: seq<Engine.Entry>, index: nat, scene: Scene, t: Books.Tables, u: Books.Tables, v: Books.Tables)
    requires AttemptOn(stage, cs, maxTokens, c, index, scene(index), entry, t, u)
    requires Attempted(stage, cs, maxTokens, c, rest, index + 1, scene, u, v)
    ensures Attempted(stage, cs, maxTokens, c, [entry] + rest, index, scene, t, v)
  {
    hide AttemptOn;
    assert ([entry] + rest)[0] == entry && ([entry] + rest)[1..] == rest;
  }

  lemma PlayEnds(stage: Engine.Stage, cs: seq<Engine.Candidate>, call: Engine.Call, c: Charge, at: Engine.Cursor,
      index: nat, limit: nat, scene: Scene, t: Books.Tables)
    requires at.candidate < |cs| && index >= limit
    ensures PlayOn(stage, cs, call, c, at, index, limit, scene, t) == ([], t)
  {
  }

  /** Every attempt of an inference is one of those: so the ledger after it tells of each attempt what it
      reserved and what was reported, and of nothing else of the inference. */
  lemma AttemptsExactly(stage: Engine.Stage, cs: seq<Engine.Candidate>, call: Engine.Call, retained: bool, c: Charge,
      scene: Scene, t: Books.Tables)
    requires cs != [] && stage.maxAttempts <= c.count && ForeignScene(c, scene)
    ensures
      var (entries, v) := TraceOn(stage, cs, call, retained, c, scene, t);
      Attempted(stage, cs, call.maxTokens, c, entries, 0, scene, t, v)
  {
    hide PlayOn, Attempted, Engine.Refused;
    if Engine.Refused(stage, cs, call, retained).None? {
      PlayAttempts(stage, cs, call, c, Engine.Cursor(0, stage.maxRepairs, false, call.input), 0,
          Engine.Min(stage.maxAttempts, |cs| + stage.maxRepairs), scene, t);
    } else {
      NoneAttempted(stage, cs, call.maxTokens, c, 0, scene, t);
    }
  }

  lemma NoneAttempted(stage: Engine.Stage, cs: seq<Engine.Candidate>, maxTokens: nat, c: Charge, index: nat,
      scene: Scene, t: Books.Tables)
    ensures Attempted(stage, cs, maxTokens, c, [], index, scene, t, t)
  {
  }
}

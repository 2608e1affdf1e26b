/**
 What the ledger decides, read off the run so far: which budgets there are, when a reservation is
 granted, and what becomes of it by the reports of its cost.
 */
module LedgerRules {
  import opened Basics
  import opened BudgetLedger

  lemma RunSnoc(steps: seq<Step>, step: Step)
    ensures Run(steps + [step]) == After(Run(steps), step)
  {
    var all := steps + [step];
    assert all[..|all| - 1] == steps;
  }

  // ----- budgets -----

  // The first admissible cap that was asked for.
  function FirstCap(steps: seq<Step>, b: BudgetId): Option<int> {
    if steps == [] then None
    else if steps[0].Provisioning? && steps[0].b == b && 0 <= steps[0].cap <= 1_000_000 then Some(steps[0].cap)
    else FirstCap(steps[1..], b)
  }

  lemma {:induction false} FirstCapSnoc(steps: seq<Step>, step: Step, b: BudgetId)
    ensures FirstCap(steps + [step], b)
         == if FirstCap(steps, b).Some? then FirstCap(steps, b) else FirstCap([step], b)
    decreases |steps|
  {
    var all := steps + [step];
    if steps == [] {
      assert all == [step];
    } else {
      assert all[0] == steps[0] && all[1..] == steps[1..] + [step];
      FirstCapSnoc(steps[1..], step, b);
    }
  }

  /** A budget exists exactly if it was provisioned with an admissible cap, and it keeps the first. */
  lemma {:induction false} BudgetExactly(steps: seq<Step>, b: BudgetId)
    ensures b in Run(steps).budgets <==> FirstCap(steps, b).Some?
    ensures b in Run(steps).budgets ==> Run(steps).budgets[b].cap == FirstCap(steps, b).value
    decreases |steps|
  {
    if steps != [] {
      var before, step := steps[..|steps| - 1], steps[|steps| - 1];
      assert steps == before + [step];
      BudgetExactly(before, b);
      FirstCapSnoc(before, step, b);
      assert [step][1..] == [];
      CapsStay(Run(before), step, b);
    }
  }

  lemma CapsStay(t: Tables, step: Step, b: BudgetId)
    ensures
      var u := After(t, step);
      && (b in u.budgets <==>
            b in t.budgets || (step.Provisioning? && step.b == b && 0 <= step.cap <= 1_000_000))
      && (b in u.budgets ==> u.budgets[b].cap == if b in t.budgets then t.budgets[b].cap else step.cap)
  {
    hide Taken, Find;
  }

  // ----- reservations -----

  // What is left of a budget: nothing after an overage.
  ghost function Left(steps: seq<Step>, b: BudgetId): int
    requires b in Run(steps).budgets
  {
    if Frozen(steps, b) then 0 else Run(steps).budgets[b].cap - ReservedOn(Run(steps).rows, b)
  }

  // Neither the identifier nor the request of this tenant has been used.
  ghost predicate Unused(rows: seq<Row>, id: ReservationId, request: nat) {
    forall i | 0 <= i < |rows| ::
      rows[i].id != id && !(rows[i].id.owner == id.owner && rows[i].request == request)
  }

  /** When a reservation is granted: exactly when its amount is admissible, its budget exists and has so
      much left, and neither its identifier nor its request has been used. Then it is added as it was
      asked for, and otherwise nothing changes. */
  lemma ReservationExactly(steps: seq<Step>, b: BudgetId, id: ReservationId, request: nat, amount: int)
    ensures
      var t, u, answer := Run(steps), Run(steps + [Reserving(b, id, request, amount)]),
          Reserve(Run(steps), b, id, request, amount).1;
      var admissible, room, unused :=
          0 <= amount <= 1_000_000, b in t.budgets && amount <= Left(steps, b), Unused(t.rows, id, request);
      && (answer == Ok <==> admissible && room && unused)
      && (answer == Invalid <==> !admissible)
      && (answer == Exhausted <==> admissible && !room)
      && (answer == Conflict <==> admissible && room && !unused)
      && u.rows == (if answer == Ok then t.rows + [Row(id, b, request, amount, None, Reserved)] else t.rows)
      && (answer != Ok ==> u == t)
      && (answer == Ok ==> u.budgets == t.budgets[b := t.budgets[b].(held := t.budgets[b].held + amount)])
  {
    hide Frozen, ReservedOn, Taken, Unused, Run, Valid, Reserve;
    RunSnoc(steps, Reserving(b, id, request, amount));
    LeftExactly(steps, b);
    UnusedExactly(Run(steps).rows, id, request);
    ReserveAnswers(Run(steps), b, id, request, amount);
  }

  lemma LeftExactly(steps: seq<Step>, b: BudgetId)
    ensures b in Run(steps).budgets ==> Left(steps, b) == Run(steps).budgets[b].cap - Run(steps).budgets[b].held
  {
    hide Frozen, ReservedOn, Run, Valid;
    LedgerConserves(steps);
    if b in Run(steps).budgets {
      assert HeldExactly(Run(steps), b, Frozen(steps, b));
    }
  }

  lemma UnusedExactly(rows: seq<Row>, id: ReservationId, request: nat)
    ensures Taken(rows, id, request) <==> !Unused(rows, id, request)
  {
  }

  lemma ReserveAnswers(t: Tables, b: BudgetId, id: ReservationId, request: nat, amount: int)
    ensures
      var (u, answer) := Reserve(t, b, id, request, amount);
      var admissible, room, taken := 0 <= amount <= 1_000_000,
          b in t.budgets && amount <= t.budgets[b].cap - t.budgets[b].held, Taken(t.rows, id, request);
      && After(t, Reserving(b, id, request, amount)) == u
      && (answer == Ok <==> admissible && room && !taken)
      && (answer == Invalid <==> !admissible)
      && (answer == Exhausted <==> admissible && !room)
      && (answer == Conflict <==> admissible && room && taken)
      && u.rows == (if answer == Ok then t.rows + [Row(id, b, request, amount, None, Reserved)] else t.rows)
      && (answer != Ok ==> u == t)
      && (answer == Ok ==> u.budgets == t.budgets[b := t.budgets[b].(held := t.budgets[b].held + amount)])
  {
    hide Taken;
  }

  // ----- reports -----

  // The reports of the cost of this reservation, so far as they are admissible.
  function Reports(steps: seq<Step>, id: ReservationId): seq<Option<int>> {
    if steps == [] then []
    else
      (if steps[0].Reconciling? && steps[0].id == id && (steps[0].actual.Some? ==> steps[0].actual.value >= 0) then
         [steps[0].actual]
       else []) + Reports(steps[1..], id)
  }

  // The first cost that is known and within what was reserved.
  function FirstWithin(reports: seq<Option<int>>, reserved: int): Option<int> {
    if reports == [] then None
    else if reports[0].Some? && reports[0].value <= reserved then reports[0]
    else FirstWithin(reports[1..], reserved)
  }

  // What the reports make of a reservation.
  ghost predicate Tells(row: Row, reports: seq<Option<int>>) {
    var cost := FirstWithin(reports, row.reserved);
    if cost.Some? then row.state == State.Reconciled && row.actual == cost
    else row.actual.None? && row.state == if reports == [] then Reserved else Uncertain
  }

  lemma {:induction false} ReportsSnoc(steps: seq<Step>, step: Step, id: ReservationId)
    ensures Reports(steps + [step], id) == Reports(steps, id) + Reports([step], id)
    decreases |steps|
  {
    var all := steps + [step];
    if steps == [] {
      assert all == [step];
    } else {
      assert all[0] == steps[0] && all[1..] == steps[1..] + [step];
      ReportsSnoc(steps[1..], step, id);
    }
  }

  lemma {:induction false} WithinSnoc(reports: seq<Option<int>>, report: Option<int>, reserved: int)
    ensures FirstWithin(reports + [report], reserved)
         == if FirstWithin(reports, reserved).Some? then FirstWithin(reports, reserved)
            else FirstWithin([report], reserved)
    decreases |reports|
  {
    var all := reports + [report];
    if reports == [] {
      assert all == [report];
    } else {
      assert all[0] == reports[0] && all[1..] == reports[1..] + [report];
      WithinSnoc(reports[1..], report, reserved);
    }
  }

  lemma {:induction false} FoundFirst(rows: seq<Row>, i: nat)
    requires i < |rows| && forall j | 0 <= j < i :: rows[j].id != rows[i].id
    ensures Find(rows, rows[i].id) == i
  {
  }

  // A report concerns the row of its identifier alone.
  lemma ReportStep(t: Tables, step: Step, i: nat, reports: seq<Option<int>>)
    requires i < |t.rows| && Find(t.rows, t.rows[i].id) == i && Tells(t.rows[i], reports)
    ensures
      var rows := After(t, step).rows;
      && i < |rows| && rows[i].(state := t.rows[i].state, actual := t.rows[i].actual) == t.rows[i]
      && Tells(rows[i], reports + Reports([step], t.rows[i].id))
  {
    hide Taken;
    var row := t.rows[i];
    ReportsOne(step, row.id);
    if Reports([step], row.id) == [] {
      assert reports + [] == reports;
    } else {
      WithinSnoc(reports, step.actual, row.reserved);
      WithinOne(step.actual, row.reserved);
    }
  }

  lemma ReportsOne(step: Step, id: ReservationId)
    ensures Reports([step], id)
         == if step.Reconciling? && step.id == id && (step.actual.Some? ==> step.actual.value >= 0) then [step.actual]
            else []
  {
    assert [step][1..] == [];
  }

  lemma WithinOne(report: Option<int>, reserved: int)
    ensures FirstWithin([report], reserved) == if report.Some? && report.value <= reserved then report else None
  {
    assert [report][1..] == [];
  }

  /** What becomes of a reservation, whatever else happens on the ledger: it is reconciled with the first
      reported cost that is known and within its amount, it is uncertain if there were only other reports,
      and reserved as long as there was none. */
  lemma {:induction false} RowTellsReports(steps: seq<Step>, b: BudgetId, id: ReservationId, request: nat,
      amount: int, more: seq<Step>)
    requires Reserve(Run(steps), b, id, request, amount).1 == Ok
    ensures
      var i, rows := |Run(steps).rows|, Run(steps + [Reserving(b, id, request, amount)] + more).rows;
      && i < |rows| && rows[i].id == id && rows[i].budget == b && rows[i].request == request
      && rows[i].reserved == amount && Tells(rows[i], Reports(more, id))
    decreases |more|
  {
    var here := steps + [Reserving(b, id, request, amount)];
    var i := |Run(steps).rows|;
    if more == [] {
      assert here + more == here;
      RunSnoc(steps, Reserving(b, id, request, amount));
    } else {
      var front, step := more[..|more| - 1], more[|more| - 1];
      RowTellsReports(steps, b, id, request, amount, front);
      assert here + more == here + front + [step] && more == front + [step];
      RunSnoc(here + front, step);
      ReportsSnoc(front, step, id);
      LedgerConserves(here + front);
      var t := Run(here + front);
      FoundFirst(t.rows, i);
      hide Tells, Run, After, Reports;
      ReportStep(t, step, i, Reports(front, id));
    }
  }
}

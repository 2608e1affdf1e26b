/**
 The sandbox ledger: budgets with an immutable cap, reservations that are never refunded, and the
 freeze of a budget when a provider reports more than was reserved.

 Amounts are integers of micro-USD. Each call is one transaction: it either does everything it says
 or leaves the tables alone. Reservations are kept as rows in the order they were made.
 */
module BudgetLedger {
  import opened Basics

  const LIMIT := 1_000_000

  datatype BudgetId = BudgetId(owner: nat, id: nat)
  datatype ReservationId = ReservationId(owner: nat, id: nat)

  datatype Budget = Budget(cap: int, held: int)

  datatype State = Reserved | Uncertain | Reconciled

  datatype Row = Row(id: ReservationId, budget: BudgetId, request: nat, reserved: int, actual: Option<int>,
      state: State)

  datatype Tables = Tables(budgets: map<BudgetId, Budget>, rows: seq<Row>)

  const EMPTY := Tables(map[], [])

  datatype Answer = Ok | Invalid | Exists | Exhausted | NotFound | Conflict

  // ----- the three operations -----

  function Provision(t: Tables, b: BudgetId, cap: int): (Tables, Answer) {
    if !(0 <= cap <= LIMIT) then (t, Invalid)
    else if b in t.budgets then (t, Exists)
    else (t.(budgets := t.budgets[b := Budget(cap, 0)]), Ok)
  }

  // The index of the row with this identifier, or the number of rows.
  function Find(rows: seq<Row>, id: ReservationId): (k: nat)
    ensures k <= |rows| && (k < |rows| ==> rows[k].id == id)
    ensures forall i | 0 <= i < k :: rows[i].id != id
  {
    if rows == [] then 0 else if rows[0].id == id then 0 else 1 + Find(rows[1..], id)
  }

  // Primary key and the unique request of a tenant.
  predicate Taken(rows: seq<Row>, id: ReservationId, request: nat) {
    exists i | 0 <= i < |rows| :: rows[i].id == id || (rows[i].id.owner == id.owner && rows[i].request == request)
  }

  function Reserve(t: Tables, b: BudgetId, id: ReservationId, request: nat, amount: int): (Tables, Answer) {
    if !(0 <= amount <= LIMIT) then (t, Invalid)
    else if b !in t.budgets || t.budgets[b].held + amount > t.budgets[b].cap then (t, Exhausted)
    else if Taken(t.rows, id, request) then (t, Conflict)
    else
      (Tables(t.budgets[b := t.budgets[b].(held := t.budgets[b].held + amount)],
              t.rows + [Row(id, b, request, amount, None, Reserved)]), Ok)
  }

  predicate Overage(row: Row, actual: Option<int>) {
    actual.Some? && actual.value > row.reserved
  }

  function Freeze(budgets: map<BudgetId, Budget>, b: BudgetId): map<BudgetId, Budget> {
    if b in budgets then budgets[b := budgets[b].(held := budgets[b].cap)] else budgets
  }

  function Reconcile(t: Tables, id: ReservationId, actual: Option<int>): (Tables, Answer) {
    var k := Find(t.rows, id);
    if actual.Some? && actual.value < 0 then (t, Invalid)
    else if k == |t.rows| then (t, NotFound)
    else
      var row := t.rows[k];
      if row.state == Reconciled then (t, if row.actual == actual then Ok else Conflict)
      else
        var known := if Overage(row, actual) then None else actual;
        (Tables(if Overage(row, actual) then Freeze(t.budgets, row.budget) else t.budgets,
                t.rows[k := row.(state := if known.None? then Uncertain else Reconciled, actual := known)]), Ok)
  }

  class Ledger {
    var budgets: map<BudgetId, Budget>
    var rows: seq<Row>

    constructor ()
      ensures View() == EMPTY
    {
      budgets, rows := map[], [];
    }

    ghost function View(): Tables
      reads this
    {
      Tables(budgets, rows)
    }

    method ProvisionBudget(b: BudgetId, cap: int) returns (answer: Answer)
      modifies this
      ensures (View(), answer) == Provision(old(View()), b, cap)
    {
      if !(0 <= cap <= LIMIT) {
        return Invalid;
      }
      if b in budgets {
        return Exists;
      }
      budgets := budgets[b := Budget(cap, 0)];
      answer := Ok;
    }

    method ReserveAmount(b: BudgetId, id: ReservationId, request: nat, amount: int) returns (answer: Answer)
      modifies this
      ensures (View(), answer) == Reserve(old(View()), b, id, request, amount)
    {
      if !(0 <= amount <= LIMIT) {
        return Invalid;
      }
      var before := budgets;
      if b !in budgets || budgets[b].held + amount > budgets[b].cap {
        return Exhausted;
      }
      budgets := budgets[b := budgets[b].(held := budgets[b].held + amount)];
      for i := 0 to |rows|
        invariant forall j | 0 <= j < i ::
          rows[j].id != id && !(rows[j].id.owner == id.owner && rows[j].request == request)
        invariant rows == old(rows) && budgets == before[b := before[b].(held := before[b].held + amount)]
      {
        if rows[i].id == id || (rows[i].id.owner == id.owner && rows[i].request == request) {
          budgets := before;
          return Conflict;
        }
      }
      rows := rows + [Row(id, b, request, amount, None, Reserved)];
      answer := Ok;
    }

    method ReconcileUsage(id: ReservationId, actual: Option<int>) returns (answer: Answer)
      modifies this
      ensures (View(), answer) == Reconcile(old(View()), id, actual)
    {
      if actual.Some? && actual.value < 0 {
        return Invalid;
      }
      var k := Find(rows, id);
      if k == |rows| {
        return NotFound;
      }
      var row, known := rows[k], actual;
      if row.state == Reconciled {
        return if row.actual == actual then Ok else Conflict;
      }
      if actual.Some? && actual.value > row.reserved {
        if row.budget in budgets {
          budgets := budgets[row.budget := budgets[row.budget].(held := budgets[row.budget].cap)];
        }
        known := None;
      }
      rows := rows[k := row.(state := if known.None? then Uncertain else Reconciled, actual := known)];
      answer := Ok;
    }
  }

  // ----- totals -----

  function ReservedOn(rows: seq<Row>, b: BudgetId): int {
    if rows == [] then 0
    else (if rows[0].budget == b then rows[0].reserved else 0) + ReservedOn(rows[1..], b)
  }

  // What is known to have been spent.
  function SpentOn(rows: seq<Row>, b: BudgetId): int {
    if rows == [] then 0
    else
      (if rows[0].budget == b && rows[0].actual.Some? then rows[0].actual.value else 0) + SpentOn(rows[1..], b)
  }

  ghost predicate RowValid(row: Row) {
    && 0 <= row.reserved
    && (row.state == Reconciled <==> row.actual.Some?)
    && (row.actual.Some? ==> 0 <= row.actual.value <= row.reserved)
  }

  ghost predicate Valid(t: Tables) {
    && (forall i | 0 <= i < |t.rows| :: RowValid(t.rows[i]) && t.rows[i].budget in t.budgets)
    && (forall i, j | 0 <= i < j < |t.rows| :: t.rows[i].id != t.rows[j].id
         && (t.rows[i].id.owner == t.rows[j].id.owner ==> t.rows[i].request != t.rows[j].request))
    && (forall b | b in t.budgets ::
      0 <= t.budgets[b].held <= t.budgets[b].cap && ReservedOn(t.rows, b) <= t.budgets[b].held)
  }

  lemma {:induction false} TotalsAppend(rows: seq<Row>, row: Row, b: BudgetId)
    ensures ReservedOn(rows + [row], b) == ReservedOn(rows, b) + (if row.budget == b then row.reserved else 0)
    decreases |rows|
  {
    if rows != [] {
      TotalsAppend(rows[1..], row, b);
      assert (rows + [row])[1..] == rows[1..] + [row];
    }
  }

  lemma {:induction false} TotalsUpdate(rows: seq<Row>, k: nat, row: Row, b: BudgetId)
    requires k < |rows| && row.budget == rows[k].budget && row.reserved == rows[k].reserved
    ensures ReservedOn(rows[k := row], b) == ReservedOn(rows, b)
    decreases |rows|
  {
    if k == 0 {
      assert rows[k := row][1..] == rows[1..];
    } else {
      assert rows[k := row][1..] == rows[1..][k - 1 := row];
      TotalsUpdate(rows[1..], k - 1, row, b);
    }
  }

  lemma {:induction false} SpentAtMostReserved(rows: seq<Row>, b: BudgetId)
    requires forall i | 0 <= i < |rows| :: RowValid(rows[i])
    ensures 0 <= SpentOn(rows, b) <= ReservedOn(rows, b)
    decreases |rows|
  {
    if rows != [] {
      SpentAtMostReserved(rows[1..], b);
    }
  }

  // ----- runs -----

  datatype Step =
    | Provisioning(b: BudgetId, cap: int)
    | Reserving(b: BudgetId, id: ReservationId, request: nat, amount: int)
    | Reconciling(id: ReservationId, actual: Option<int>)

  function After(t: Tables, step: Step): Tables {
    match step
    case Provisioning(b, cap) => Provision(t, b, cap).0
    case Reserving(b, id, request, amount) => Reserve(t, b, id, request, amount).0
    case Reconciling(id, actual) => Reconcile(t, id, actual).0
  }

  function Run(steps: seq<Step>): Tables
    decreases |steps|
  {
    if steps == [] then EMPTY else After(Run(steps[..|steps| - 1]), steps[|steps| - 1])
  }

  // This step, taken in these tables, reports more than was reserved on the budget.
  predicate Overruns(t: Tables, step: Step, b: BudgetId) {
    && step.Reconciling?
    && var k := Find(t.rows, step.id);
       k < |t.rows| && t.rows[k].budget == b && t.rows[k].state != Reconciled && Overage(t.rows[k], step.actual)
       && step.actual.value >= 0
  }

  predicate Frozen(steps: seq<Step>, b: BudgetId)
    decreases |steps|
  {
    steps != [] &&
    var before := steps[..|steps| - 1];
    Frozen(before, b) || Overruns(Run(before), steps[|steps| - 1], b)
  }

  // The exact amount a budget holds.
  ghost predicate HeldExactly(t: Tables, b: BudgetId, frozen: bool)
    requires b in t.budgets
  {
    t.budgets[b].held == if frozen then t.budgets[b].cap else ReservedOn(t.rows, b)
  }

  lemma ReserveKeeps(t: Tables, b: BudgetId, id: ReservationId, request: nat, amount: int)
    requires Valid(t)
    ensures
      var u := Reserve(t, b, id, request, amount).0;
      && Valid(u)
      && (forall c, frozen | c in t.budgets && HeldExactly(t, c, frozen) :: c in u.budgets && HeldExactly(u, c, frozen))
      && u.budgets.Keys == t.budgets.Keys
  {
    var row := Row(id, b, request, amount, None, Reserved);
    forall c ensures ReservedOn(t.rows + [row], c) == ReservedOn(t.rows, c) + (if b == c then amount else 0) {
      TotalsAppend(t.rows, row, c);
    }
  }

  lemma ReconcileKeeps(t: Tables, id: ReservationId, actual: Option<int>)
    requires Valid(t)
    ensures
      var u := Reconcile(t, id, actual).0;
      && Valid(u)
      && (forall c, frozen | c in t.budgets && HeldExactly(t, c, frozen) ::
           c in u.budgets && HeldExactly(u, c, frozen || Overruns(t, Reconciling(id, actual), c)))
      && u.budgets.Keys == t.budgets.Keys
  {
    var k := Find(t.rows, id);
    var u := Reconcile(t, id, actual).0;
    if k < |t.rows| && u.rows != t.rows {
      forall c ensures ReservedOn(u.rows, c) == ReservedOn(t.rows, c) {
        TotalsUpdate(t.rows, k, u.rows[k], c);
      }
    }
  }

  /** The ledger conserves: in every state of every run, what a budget holds is exactly the sum of its
      reservations, or its whole cap from the first overage on; known spending never exceeds what was
      reserved, nor the cap. */
  lemma {:induction false} LedgerConserves(steps: seq<Step>)
    ensures
      var t := Run(steps);
      && Valid(t)
      && (forall b | b in t.budgets ::
           && HeldExactly(t, b, Frozen(steps, b))
           && 0 <= SpentOn(t.rows, b) <= ReservedOn(t.rows, b) <= t.budgets[b].held <= t.budgets[b].cap)
      && (forall b | b !in t.budgets :: !Frozen(steps, b))
    decreases |steps|
  {
    var t := Run(steps);
    if steps != [] {
      hide Valid, After, Overruns, HeldExactly;
      var before, step := steps[..|steps| - 1], steps[|steps| - 1];
      LedgerConserves(before);
      StepKeeps(Run(before), step);
      forall b | b in t.budgets
        ensures HeldExactly(t, b, Frozen(steps, b))
      {
        assert Frozen(steps, b) == (Frozen(before, b) || Overruns(Run(before), step, b));
      }
    }
    forall b | b in t.budgets
      ensures 0 <= SpentOn(t.rows, b) <= ReservedOn(t.rows, b) <= t.budgets[b].held <= t.budgets[b].cap
    {
      HeldCovers(t, b);
    }
  }

  lemma HeldCovers(t: Tables, b: BudgetId)
    requires Valid(t) && b in t.budgets
    ensures 0 <= SpentOn(t.rows, b) <= ReservedOn(t.rows, b) <= t.budgets[b].held <= t.budgets[b].cap
  {
    SpentAtMostReserved(t.rows, b);
  }

  lemma StepKeeps(t: Tables, step: Step)
    requires Valid(t)
    ensures
      var u := After(t, step);
      && Valid(u)
      && (forall c, frozen | c in t.budgets && HeldExactly(t, c, frozen) ::
           c in u.budgets && HeldExactly(u, c, frozen || Overruns(t, step, c)))
      && (forall c | c in u.budgets && c !in t.budgets :: HeldExactly(u, c, false))
      && (forall c | c !in t.budgets :: !Overruns(t, step, c))
      && t.budgets.Keys <= u.budgets.Keys
  {
    match step {
      case Provisioning(b, cap) => UnusedBudget(t, b);
      case Reserving(b, id, request, amount) => ReserveKeeps(t, b, id, request, amount);
      case Reconciling(id, actual) => ReconcileKeeps(t, id, actual);
    }
  }

  lemma UnusedBudget(t: Tables, b: BudgetId)
    requires Valid(t)
    ensures b !in t.budgets ==> ReservedOn(t.rows, b) == 0
  {
    if b !in t.budgets {
      NoneOn(t.rows, b);
    }
  }

  lemma {:induction false} NoneOn(rows: seq<Row>, b: BudgetId)
    requires forall i | 0 <= i < |rows| :: rows[i].budget != b
    ensures ReservedOn(rows, b) == 0
    decreases |rows|
  {
    if rows != [] {
      NoneOn(rows[1..], b);
    }
  }

  // ----- what stays -----

  // Caps and reservations never change, and a reconciled row is final.
  ghost predicate Follows(t: Tables, u: Tables) {
    && (forall b | b in t.budgets ::
      b in u.budgets && u.budgets[b].cap == t.budgets[b].cap && t.budgets[b].held <= u.budgets[b].held)
    && |t.rows| <= |u.rows|
    && (forall i | 0 <= i < |t.rows| ::
         && u.rows[i].id == t.rows[i].id && u.rows[i].budget == t.rows[i].budget
         && u.rows[i].request == t.rows[i].request && u.rows[i].reserved == t.rows[i].reserved
         && (t.rows[i].state == Reconciled ==> u.rows[i] == t.rows[i])
         && (t.rows[i].state == Uncertain ==> u.rows[i].state != Reserved))
  }

  lemma StepFollows(t: Tables, step: Step)
    requires Valid(t)
    ensures Follows(t, After(t, step))
  {
    hide ReservedOn, Taken, Follows;
    match step {
      case Provisioning(b, cap) => ProvisionFollows(t, b, cap);
      case Reserving(b, id, request, amount) => ReserveFollows(t, b, id, request, amount);
      case Reconciling(id, actual) => ReconcileFollows(t, id, actual);
    }
  }

  lemma ProvisionFollows(t: Tables, b: BudgetId, cap: int)
    ensures Follows(t, Provision(t, b, cap).0)
  {
  }

  lemma ReserveFollows(t: Tables, b: BudgetId, id: ReservationId, request: nat, amount: int)
    ensures Follows(t, Reserve(t, b, id, request, amount).0)
  {
    hide Taken;
  }

  lemma ReconcileFollows(t: Tables, id: ReservationId, actual: Option<int>)
    requires Valid(t)
    ensures Follows(t, Reconcile(t, id, actual).0)
  {
    hide ReservedOn;
    var k := Find(t.rows, id);
    if k < |t.rows| {
      assert RowValid(t.rows[k]);
    }
  }

  /** Nothing is ever taken back: a cap stays, a hold never shrinks, a reservation keeps its amount,
      a reconciled reservation keeps its actual cost, and a frozen budget keeps its whole cap held. */
  lemma {:induction false} LedgerOnlyGrows(steps: seq<Step>, more: seq<Step>)
    ensures Follows(Run(steps), Run(steps + more))
    ensures forall b | Frozen(steps, b) :: Frozen(steps + more, b)
    decreases |more|
  {
    hide Follows, Valid, After, Overruns;
    if more == [] {
      assert steps + more == steps;
      FollowsItself(Run(steps));
    } else {
      var last := |more| - 1;
      var all := steps + more;
      assert all[..|all| - 1] == steps + more[..last];
      LedgerOnlyGrows(steps, more[..last]);
      LedgerConserves(steps + more[..last]);
      StepFollows(Run(steps + more[..last]), more[last]);
      FollowsOn(Run(steps), Run(steps + more[..last]), Run(all));
    }
  }

  lemma FollowsItself(t: Tables)
    ensures Follows(t, t)
  {
  }

  lemma FollowsOn(t: Tables, u: Tables, v: Tables)
    requires Follows(t, u) && Follows(u, v)
    ensures Follows(t, v)
  {
  }

  /** A reservation identifier or a request is reserved at most once, whatever was asked in between:
      a second attempt is refused and holds nothing. */
  lemma ReservedOnce(steps: seq<Step>, more: seq<Step>, b: BudgetId, id: ReservationId, request: nat, amount: int,
                     again: BudgetId, other: ReservationId, claimed: nat, second: int)
    requires Reserve(Run(steps), b, id, request, amount).1 == Ok
    requires other == id || (other.owner == id.owner && claimed == request)
    ensures
      var t := Run(steps + [Reserving(b, id, request, amount)] + more);
      var (u, answer) := Reserve(t, again, other, claimed, second);
      answer != Ok && u == t
  {
    var here := steps + [Reserving(b, id, request, amount)];
    assert here[..|here| - 1] == steps;
    var n := |Run(steps).rows|;
    assert Run(here).rows[n].id == id && Run(here).rows[n].request == request;
    LedgerOnlyGrows(here, more);
    var t := Run(here + more);
    assert t.rows[n].id == id && t.rows[n].request == request;
  }
}

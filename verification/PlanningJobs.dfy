/**
 Background jobs with leases and attempt tokens, and the paid provider calls of planning jobs.

 Every transaction is one atomic step, so a list of steps is one interleaving of any number of
 workers, users and stale workers; a stale worker is one whose step carries an old attempt token.
 Amounts are integers of micro-USD. Provider calls are kept as rows in the order they were made and
 are named by their position.
 */
module PlanningJobs {
  import opened Basics

  type Time = int
  const LEASE: Time := 60
  const MAX_CLAIMS := 3

  datatype JobId = JobId(id: nat)
  datatype Approval = Approval(id: nat)

  datatype Status = Queued | Running | Succeeded | Failed | Cancelled | Uncertain

  datatype Job = Job(owner: nat, planning: bool, status: Status, attempts: nat, updated: Time)

  datatype CallState = Reserved | Known | Unknown

  datatype Call = Call(job: JobId, owner: nat, approval: Approval, reserved: int, state: CallState, actual: Option<int>)

  datatype Budget = Budget(cap: int, held: int)

  // The tables jobs, provider_calls and approval_budgets.
  datatype Tables = Tables(jobs: map<JobId, Job>, calls: seq<Call>, budgets: map<Approval, Budget>)

  const EMPTY := Tables(map[], [], map[])

  predicate Live(s: Status) { s == Queued || s == Running }

  // What a worker knows of a job from the last time it read it.
  datatype Token = Token(id: JobId, owner: nat, attempts: nat)

  // The job is still as the worker knows it: its owner's, in this status, and not claimed again.
  predicate Holds(t: Tables, token: Token, status: Status) {
    && token.id in t.jobs
    && var job := t.jobs[token.id];
       job.owner == token.owner && job.status == status && job.attempts == token.attempts
  }

  predicate HasCalls(calls: seq<Call>, id: JobId, owner: nat) {
    exists i | 0 <= i < |calls| :: calls[i].job == id && calls[i].owner == owner
  }

  function ReservedBy(calls: seq<Call>, id: JobId, owner: nat): int {
    if calls == [] then 0
    else
      (if calls[0].job == id && calls[0].owner == owner then calls[0].reserved else 0)
      + ReservedBy(calls[1..], id, owner)
  }

  // ----- the transactions -----

  function AfterEnqueue(t: Tables, id: JobId, owner: nat, planning: bool, now: Time): Tables {
    if id in t.jobs then t else t.(jobs := t.jobs[id := Job(owner, planning, Queued, 0, now)])
  }

  predicate Claimable(t: Tables, id: JobId, now: Time) {
    id in t.jobs && (t.jobs[id].status == Queued || (t.jobs[id].status == Running && t.jobs[id].updated < now - LEASE))
  }

  // A claim looks at the claimable job that was updated longest ago; at none only if there is none.
  ghost predicate Picks(t: Tables, now: Time, pick: Option<JobId>) {
    match pick
    case None => forall id :: !Claimable(t, id, now)
    case Some(id) =>
      Claimable(t, id, now) && forall other | Claimable(t, other, now) :: t.jobs[id].updated <= t.jobs[other].updated
  }

  // What becomes of the job a claim looks at.
  function ClaimedJob(t: Tables, id: JobId, now: Time): Job
    requires id in t.jobs
  {
    var job := t.jobs[id];
    if job.planning && job.attempts > 0 && HasCalls(t.calls, id, job.owner) then
      job.(status := Uncertain, updated := now)
    else if job.attempts >= MAX_CLAIMS then job.(status := Failed, updated := now)
    else job.(status := Running, attempts := job.attempts + 1, updated := now)
  }

  function AfterClaim(t: Tables, now: Time, pick: Option<JobId>): Tables
    requires pick.Some? ==> pick.value in t.jobs
  {
    match pick
    case None => t
    case Some(id) => t.(jobs := t.jobs[id := ClaimedJob(t, id, now)])
  }

  // The token a claim hands out, if it succeeds.
  function Granted(t: Tables, now: Time, pick: Option<JobId>): Option<Token>
    requires pick.Some? ==> pick.value in t.jobs
  {
    match pick
    case None => None
    case Some(id) =>
      var job := ClaimedJob(t, id, now);
      if job.status == Running then Some(Token(id, job.owner, job.attempts)) else None
  }

  // update_job, finish, fail and complete_planning: compare the token and the status last seen, set
  // the new one.
  function AfterUpdate(t: Tables, token: Token, seen: Status, to: Status, now: Time): Tables {
    if Holds(t, token, seen) then t.(jobs := t.jobs[token.id := t.jobs[token.id].(status := to, updated := now)]) else t
  }

  datatype Reservation = ReservationOk | NoApproval | NotAuthorized | JobExhausted | ApprovalExhausted

  function Reserving(t: Tables, token: Token, approval: Approval, amount: int, cap: int, jobCap: int): Reservation {
    if amount <= 0 || cap < amount then NoApproval
    else if !Holds(t, token, Running) then NotAuthorized
    else if ReservedBy(t.calls, token.id, token.owner) + amount > jobCap then JobExhausted
    else if approval in t.budgets && (t.budgets[approval].cap != cap || t.budgets[approval].held + amount > cap) then
      ApprovalExhausted
    else ReservationOk
  }

  function AfterReserve(t: Tables, token: Token, approval: Approval, amount: int, cap: int, jobCap: int): Tables {
    if Reserving(t, token, approval, amount, cap, jobCap) != ReservationOk then t
    else
      var held := if approval in t.budgets then t.budgets[approval].held else 0;
      Tables(t.jobs,
             t.calls + [Call(token.id, token.owner, approval, amount, Reserved, None)],
             t.budgets[approval := Budget(cap, held + amount)])
  }

  // What the caller settles with: a cost it cannot trust, or above the reservation, is not recorded.
  function Settlement(reserved: int, sameModel: bool, cost: Option<int>): Option<int> {
    if !sameModel || cost.None? || cost.value > reserved then None else cost
  }

  function AfterSettle(t: Tables, k: nat, actual: Option<int>): Tables {
    if k < |t.calls| && t.calls[k].state == Reserved then
      t.(calls := t.calls[k := t.calls[k].(state := if actual.Some? then Known else Unknown, actual := actual)])
    else t
  }

  // ----- the storage object -----

  class JobStorage {
    var jobs: map<JobId, Job>
    var calls: seq<Call>
    var budgets: map<Approval, Budget>

    constructor ()
      ensures View() == EMPTY
    {
      jobs, calls, budgets := map[], [], map[];
    }

    ghost function View(): Tables
      reads this
    {
      Tables(jobs, calls, budgets)
    }

    method Enqueue(id: JobId, owner: nat, planning: bool, now: Time) returns (ok: bool)
      modifies this`jobs
      ensures ok <==> id !in old(jobs)
      ensures View() == AfterEnqueue(old(View()), id, owner, planning, now)
    {
      ok := id !in jobs;
      if ok {
        jobs := jobs[id := Job(owner, planning, Queued, 0, now)];
      }
    }

    method Oldest(now: Time) returns (pick: Option<JobId>)
      ensures Picks(View(), now, pick)
    {
      pick := None;
      var left := jobs.Keys;
      while left != {}
        invariant left <= jobs.Keys
        invariant pick.None? ==> forall id | Claimable(View(), id, now) :: id in left
        invariant pick.Some? ==> Claimable(View(), pick.value, now)
        invariant pick.Some? ==>
          forall id | Claimable(View(), id, now) && id !in left :: jobs[pick.value].updated <= jobs[id].updated
        decreases left
      {
        var id :| id in left;
        var job := jobs[id];
        if (job.status == Queued || (job.status == Running && job.updated < now - LEASE))
           && (pick.None? || job.updated < jobs[pick.value].updated) {
          pick := Some(id);
        }
        left := left - {id};
      }
    }

    method Claim(now: Time) returns (token: Option<Token>, ghost pick: Option<JobId>)
      modifies this`jobs
      ensures Picks(old(View()), now, pick)
      ensures View() == AfterClaim(old(View()), now, pick)
      ensures token == Granted(old(View()), now, pick)
    {
      var oldest := Oldest(now);
      pick := oldest;
      if oldest.None? {
        return None, pick;
      }
      var id := oldest.value;
      var job := jobs[id];
      if job.planning && job.attempts > 0 && HasCalls(calls, id, job.owner) {
        jobs := jobs[id := job.(status := Uncertain, updated := now)];
        return None, pick;
      }
      if job.attempts >= MAX_CLAIMS {
        jobs := jobs[id := job.(status := Failed, updated := now)];
        return None, pick;
      }
      var claimed := job.(status := Running, attempts := job.attempts + 1, updated := now);
      jobs := jobs[id := claimed];
      token := Some(Token(id, job.owner, claimed.attempts));
    }

    method UpdateJob(token: Token, seen: Status, to: Status, now: Time) returns (ok: bool)
      modifies this`jobs
      ensures ok <==> Holds(old(View()), token, seen)
      ensures View() == AfterUpdate(old(View()), token, seen, to, now)
    {
      ok := token.id in jobs && jobs[token.id].owner == token.owner
            && jobs[token.id].status == seen && jobs[token.id].attempts == token.attempts;
      if ok {
        jobs := jobs[token.id := jobs[token.id].(status := to, updated := now)];
      }
    }

    method ReserveCall(token: Token, approval: Approval, amount: int, cap: int, jobCap: int)
        returns (answer: Reservation)
      modifies this`calls, this`budgets
      ensures answer == Reserving(old(View()), token, approval, amount, cap, jobCap)
      ensures View() == AfterReserve(old(View()), token, approval, amount, cap, jobCap)
    {
      if amount <= 0 || cap < amount {
        return NoApproval;
      }
      if token.id !in jobs || jobs[token.id].owner != token.owner || jobs[token.id].status != Running
         || jobs[token.id].attempts != token.attempts {
        return NotAuthorized;
      }
      var used := ReservedBy(calls, token.id, token.owner);
      if used + amount > jobCap {
        return JobExhausted;
      }
      var budget := if approval in budgets then budgets[approval] else Budget(cap, 0);
      if budget.cap != cap || budget.held + amount > budget.cap {
        return ApprovalExhausted;
      }
      budgets := budgets[approval := budget.(held := budget.held + amount)];
      calls := calls + [Call(token.id, token.owner, approval, amount, Reserved, None)];
      answer := ReservationOk;
    }

    method SettleCall(k: nat, actual: Option<int>)
      modifies this`calls
      ensures View() == AfterSettle(old(View()), k, actual)
    {
      if k < |calls| && calls[k].state == Reserved {
        calls := calls[k := calls[k].(state := if actual.Some? then Known else Unknown, actual := actual)];
      }
    }
  }

  // ----- runs -----

  // `Touch` keeps the status it saw: phases, progress and accounting. `Close` covers finish, fail,
  // complete_planning and safe_failure, which act on a job seen running; `Cancel` acts on a job seen
  // live.
  datatype Step =
    | Enqueue(id: JobId, owner: nat, planning: bool, at: Time)
    | Claim(at: Time, pick: Option<JobId>)
    | Touch(token: Token, seen: Status, at: Time)
    | Close(token: Token, to: Status, at: Time)
    | Cancel(token: Token, seen: Status, at: Time)
    | Reserve(token: Token, approval: Approval, amount: int, cap: int, jobCap: int)
    | Settle(k: nat, sameModel: bool, cost: Option<nat>)

  ghost predicate Possible(t: Tables, step: Step) {
    && (step.Claim? ==> Picks(t, step.at, step.pick))
    && (step.Close? ==> step.to == Succeeded || step.to == Failed || step.to == Uncertain)
    && (step.Cancel? ==> Live(step.seen))
  }

  ghost function After(t: Tables, step: Step): Tables
    requires Possible(t, step)
  {
    match step
    case Enqueue(id, owner, planning, at) => AfterEnqueue(t, id, owner, planning, at)
    case Claim(at, pick) => AfterClaim(t, at, pick)
    case Touch(token, seen, at) => AfterUpdate(t, token, seen, seen, at)
    case Close(token, to, at) => AfterUpdate(t, token, Running, to, at)
    case Cancel(token, seen, at) => AfterUpdate(t, token, seen, Cancelled, at)
    case Reserve(token, approval, amount, cap, jobCap) => AfterReserve(t, token, approval, amount, cap, jobCap)
    case Settle(k, sameModel, cost) =>
      if k < |t.calls| then AfterSettle(t, k, Settlement(t.calls[k].reserved, sameModel, cost)) else t
  }

  // A run is a list of steps and the tables before, between and after them.
  ghost predicate IsRun(steps: seq<Step>, trace: seq<Tables>) {
    && |trace| == |steps| + 1
    && trace[0] == EMPTY
    && forall i | 0 <= i < |steps| :: Possible(trace[i], steps[i]) && trace[i + 1] == After(trace[i], steps[i])
  }

  // The token handed out by this step, if it is a claim that succeeds.
  function GrantedBy(t: Tables, step: Step): Option<Token> {
    if step.Claim? && (step.pick.Some? ==> step.pick.value in t.jobs) then Granted(t, step.at, step.pick) else None
  }

  predicate Grants(t: Tables, step: Step, id: JobId) {
    GrantedBy(t, step).Some? && GrantedBy(t, step).value.id == id
  }

  // The reservation at this step succeeds.
  predicate Pays(t: Tables, step: Step) {
    step.Reserve? && Reserving(t, step.token, step.approval, step.amount, step.cap, step.jobCap) == ReservationOk
  }

  // ----- what every state keeps -----

  function HeldOn(calls: seq<Call>, approval: Approval): int {
    if calls == [] then 0
    else (if calls[0].approval == approval then calls[0].reserved else 0) + HeldOn(calls[1..], approval)
  }

  function SpentOn(calls: seq<Call>, approval: Approval): int {
    if calls == [] then 0
    else
      (if calls[0].approval == approval && calls[0].actual.Some? then calls[0].actual.value else 0)
      + SpentOn(calls[1..], approval)
  }

  predicate JobValid(job: Job) {
    job.attempts <= MAX_CLAIMS && (job.status == Queued ==> job.attempts == 0)
        && (job.status == Running ==> job.attempts >= 1)
  }

  predicate CallValid(call: Call) {
    && call.reserved > 0
    && (call.actual.Some? ==> call.state == Known && 0 <= call.actual.value <= call.reserved)
  }

  // A call belongs to a job that has been claimed, and to an approval.
  ghost predicate Attached(t: Tables, call: Call) {
    && call.job in t.jobs && t.jobs[call.job].owner == call.owner && t.jobs[call.job].attempts >= 1
    && call.approval in t.budgets
  }

  ghost predicate Valid(t: Tables) {
    && (forall id | id in t.jobs :: JobValid(t.jobs[id]))
    && (forall i | 0 <= i < |t.calls| :: CallValid(t.calls[i]) && Attached(t, t.calls[i]))
    && (forall a | a in t.budgets :: t.budgets[a].held == HeldOn(t.calls, a) <= t.budgets[a].cap)
  }

  // What no step undoes.
  ghost predicate JobFollows(t: Tables, u: Tables, id: JobId) {
    id in t.jobs ==>
      && id in u.jobs
      && var was, became := t.jobs[id], u.jobs[id];
         && became.owner == was.owner && became.planning == was.planning && was.attempts <= became.attempts
         && (!Live(was.status) ==> became.status == was.status && became.attempts == was.attempts)
         && (became.status == Queued ==> was.status == Queued)
         && (was.planning && HasCalls(t.calls, id, was.owner) ==> became.attempts == was.attempts)
  }

  ghost predicate CallsFollow(t: Tables, u: Tables) {
    && |t.calls| <= |u.calls|
    && forall i | 0 <= i < |t.calls| ::
         && u.calls[i].(state := t.calls[i].state, actual := t.calls[i].actual) == t.calls[i]
         && (t.calls[i].state != Reserved ==> u.calls[i] == t.calls[i])
  }

  ghost predicate BudgetFollows(t: Tables, u: Tables, a: Approval) {
    a in t.budgets ==> a in u.budgets && u.budgets[a].cap == t.budgets[a].cap && t.budgets[a].held <= u.budgets[a].held
  }

  ghost predicate Follows(t: Tables, u: Tables) {
    && (forall id :: JobFollows(t, u, id))
    && CallsFollow(t, u)
    && (forall a :: BudgetFollows(t, u, a))
  }

  lemma CallsStay(t: Tables, u: Tables, id: JobId, owner: nat)
    requires CallsFollow(t, u) && HasCalls(t.calls, id, owner)
    ensures HasCalls(u.calls, id, owner)
  {
    var i :| 0 <= i < |t.calls| && t.calls[i].job == id && t.calls[i].owner == owner;
    assert u.calls[i].(state := t.calls[i].state, actual := t.calls[i].actual) == t.calls[i];
  }

  lemma FollowsTransitive(t: Tables, u: Tables, v: Tables)
    requires Follows(t, u) && Follows(u, v)
    ensures Follows(t, v)
  {
    forall id
      ensures JobFollows(t, v, id)
    {
      assert JobFollows(t, u, id) && JobFollows(u, v, id);
      if id in t.jobs && HasCalls(t.calls, id, t.jobs[id].owner) {
        CallsStay(t, u, id, t.jobs[id].owner);
      }
    }
    forall a
      ensures BudgetFollows(t, v, a)
    {
      assert BudgetFollows(t, u, a) && BudgetFollows(u, v, a);
    }
  }

  // ----- each step keeps it -----

  // A step on one job: it stays valid, and the calls stay attached to it.
  lemma JobStep(t: Tables, id: JobId, job: Job)
    requires Valid(t) && id in t.jobs && JobValid(job)
    requires JobFollows(t, t.(jobs := t.jobs[id := job]), id)
    ensures
      var u := t.(jobs := t.jobs[id := job]);
      Valid(u) && Follows(t, u)
  {
  }

  lemma ClaimStep(t: Tables, now: Time, id: JobId)
    requires Valid(t) && Claimable(t, id, now)
    ensures
      var u := AfterClaim(t, now, Some(id));
      Valid(u) && Follows(t, u)
  {
    assert JobValid(t.jobs[id]);
    if HasCalls(t.calls, id, t.jobs[id].owner) {
      var i :| 0 <= i < |t.calls| && t.calls[i].job == id && t.calls[i].owner == t.jobs[id].owner;
      assert Attached(t, t.calls[i]);
    }
    JobStep(t, id, ClaimedJob(t, id, now));
  }

  lemma UpdateStep(t: Tables, token: Token, seen: Status, to: Status, now: Time)
    requires Valid(t) && (to == seen || (Live(seen) && !Live(to)))
    ensures
      var u := AfterUpdate(t, token, seen, to, now);
      Valid(u) && Follows(t, u)
  {
    if Holds(t, token, seen) {
      assert JobValid(t.jobs[token.id]);
      JobStep(t, token.id, t.jobs[token.id].(status := to, updated := now));
    }
  }

  lemma {:induction false} HeldAppend(calls: seq<Call>, call: Call, a: Approval)
    ensures HeldOn(calls + [call], a) == HeldOn(calls, a) + (if call.approval == a then call.reserved else 0)
    decreases |calls|
  {
    if calls != [] {
      HeldAppend(calls[1..], call, a);
      assert (calls + [call])[1..] == calls[1..] + [call];
    }
  }

  lemma {:induction false} HeldUpdate(calls: seq<Call>, k: nat, call: Call, a: Approval)
    requires k < |calls| && call.approval == calls[k].approval && call.reserved == calls[k].reserved
    ensures HeldOn(calls[k := call], a) == HeldOn(calls, a)
    decreases |calls|
  {
    if k == 0 {
      assert calls[k := call][1..] == calls[1..];
    } else {
      HeldUpdate(calls[1..], k - 1, call, a);
      assert calls[k := call][1..] == calls[1..][k - 1 := call];
    }
  }

  lemma {:induction false} NoneHeld(calls: seq<Call>, a: Approval)
    requires forall i | 0 <= i < |calls| :: calls[i].approval != a
    ensures HeldOn(calls, a) == 0
    decreases |calls|
  {
    if calls != [] {
      NoneHeld(calls[1..], a);
    }
  }

  lemma ReserveStep(t: Tables, token: Token, approval: Approval, amount: int, cap: int, jobCap: int)
    requires Valid(t)
    ensures
      var u := AfterReserve(t, token, approval, amount, cap, jobCap);
      Valid(u) && Follows(t, u)
  {
    if Reserving(t, token, approval, amount, cap, jobCap) == ReservationOk {
      var u := AfterReserve(t, token, approval, amount, cap, jobCap);
      var call := Call(token.id, token.owner, approval, amount, Reserved, None);
      assert JobValid(t.jobs[token.id]);
      if approval !in t.budgets {
        forall i | 0 <= i < |t.calls| ensures t.calls[i].approval != approval {
          assert Attached(t, t.calls[i]);
        }
        NoneHeld(t.calls, approval);
      }
      forall a | a in u.budgets
        ensures u.budgets[a].held == HeldOn(u.calls, a) <= u.budgets[a].cap
      {
        HeldAppend(t.calls, call, a);
      }
      forall i | 0 <= i < |u.calls|
        ensures CallValid(u.calls[i]) && Attached(u, u.calls[i])
      {
        if i < |t.calls| {
          assert CallValid(t.calls[i]) && Attached(t, t.calls[i]);
        }
      }
    }
  }

  lemma SettleStep(t: Tables, k: nat, sameModel: bool, cost: Option<nat>)
    requires Valid(t) && k < |t.calls|
    ensures
      var u := AfterSettle(t, k, Settlement(t.calls[k].reserved, sameModel, cost));
      Valid(u) && Follows(t, u)
  {
    var u := AfterSettle(t, k, Settlement(t.calls[k].reserved, sameModel, cost));
    forall a | a in u.budgets
      ensures u.budgets[a].held == HeldOn(u.calls, a) <= u.budgets[a].cap
    {
      if u.calls != t.calls {
        HeldUpdate(t.calls, k, u.calls[k], a);
      }
    }
    forall i | 0 <= i < |u.calls|
      ensures CallValid(u.calls[i]) && Attached(u, u.calls[i])
    {
      assert CallValid(t.calls[i]) && Attached(t, t.calls[i]);
    }
  }

  lemma EnqueueStep(t: Tables, id: JobId, owner: nat, planning: bool, now: Time)
    requires Valid(t)
    ensures
      var u := AfterEnqueue(t, id, owner, planning, now);
      Valid(u) && Follows(t, u)
  {
    var u := AfterEnqueue(t, id, owner, planning, now);
    forall i | 0 <= i < |u.calls|
      ensures CallValid(u.calls[i]) && Attached(u, u.calls[i])
    {
      assert CallValid(t.calls[i]) && Attached(t, t.calls[i]);
    }
  }

  lemma StepKeepsValid(t: Tables, step: Step)
    requires Valid(t) && Possible(t, step)
    ensures Valid(After(t, step)) && Follows(t, After(t, step))
  {
    hide Valid, JobFollows, CallsFollow, BudgetFollows, Holds;
    match step {
      case Enqueue(id, owner, planning, at) => EnqueueStep(t, id, owner, planning, at);
      case Claim(at, pick) =>
        if pick.Some? {
          ClaimStep(t, at, pick.value);
        } else {
          FollowsItself(t);
        }
      case Touch(token, seen, at) => UpdateStep(t, token, seen, seen, at);
      case Close(token, to, at) => UpdateStep(t, token, Running, to, at);
      case Cancel(token, seen, at) => UpdateStep(t, token, seen, Cancelled, at);
      case Reserve(token, approval, amount, cap, jobCap) => ReserveStep(t, token, approval, amount, cap, jobCap);
      case Settle(k, sameModel, cost) =>
        if k < |t.calls| {
          SettleStep(t, k, sameModel, cost);
        } else {
          FollowsItself(t);
        }
    }
  }

  lemma FollowsItself(t: Tables)
    ensures Follows(t, t)
  {
  }

  lemma {:induction false} RunIsValid(steps: seq<Step>, trace: seq<Tables>, i: nat, j: nat)
    requires IsRun(steps, trace) && i <= j <= |steps|
    ensures Valid(trace[i]) && Valid(trace[j]) && Follows(trace[i], trace[j])
    decreases i + j
  {
    if i < j {
      hide Valid, Follows, Possible, After;
      RunIsValid(steps, trace, i, j - 1);
      StepKeepsValid(trace[j - 1], steps[j - 1]);
      FollowsTransitive(trace[i], trace[j - 1], trace[j]);
    } else {
      FollowsItself(trace[i]);
      if i > 0 {
        hide Valid, Follows, Possible, After;
        RunIsValid(steps, trace, i - 1, i - 1);
        StepKeepsValid(trace[i - 1], steps[i - 1]);
      }
    }
  }

  // ----- the main results -----

  // The successful claims of a job among the first n steps.
  function ClaimsOf(steps: seq<Step>, trace: seq<Tables>, id: JobId, n: nat): nat
    requires n <= |steps| && n < |trace|
  {
    if n == 0 then 0
    else ClaimsOf(steps, trace, id, n - 1) + if Grants(trace[n - 1], steps[n - 1], id) then 1 else 0
  }

  lemma AttemptsChange(t: Tables, step: Step, id: JobId)
    requires Possible(t, step)
    ensures
      var u := After(t, step);
      var granted := Grants(t, step, id);
      && (id in t.jobs ==> id in u.jobs && u.jobs[id].attempts == t.jobs[id].attempts + if granted then 1 else 0)
      && (id !in t.jobs ==> !granted && (id in u.jobs ==> u.jobs[id].attempts == 0))
      && (granted ==> id in u.jobs && GrantedBy(t, step).value.attempts == u.jobs[id].attempts)
  {
  }

  /** A job is claimed at most three times, and the n-th successful claim hands out attempt token n. */
  lemma {:induction false} ClaimedAtMostThrice(steps: seq<Step>, trace: seq<Tables>, id: JobId, n: nat)
    requires IsRun(steps, trace) && n <= |steps|
    ensures ClaimsOf(steps, trace, id, n) <= 3
    ensures ClaimsOf(steps, trace, id, n) == if id in trace[n].jobs then trace[n].jobs[id].attempts else 0
    ensures n < |steps| && Grants(trace[n], steps[n], id) ==>
              GrantedBy(trace[n], steps[n]).value.attempts == ClaimsOf(steps, trace, id, n) + 1
    decreases n
  {
    if n > 0 {
      ClaimedAtMostThrice(steps, trace, id, n - 1);
      AttemptsChange(trace[n - 1], steps[n - 1], id);
    }
    if n < |steps| {
      AttemptsChange(trace[n], steps[n], id);
    }
    RunIsValid(steps, trace, n, n);
    assert id in trace[n].jobs ==> JobValid(trace[n].jobs[id]);
  }

  /** Paid work is never repeated: once a call of a planning job has been reserved, no claim of that job
      succeeds any more, and every later reservation carries the same attempt token. */
  lemma PaidWorkIsNotRepeated(steps: seq<Step>, trace: seq<Tables>, i: nat, j: nat, id: JobId)
    requires IsRun(steps, trace) && i < j < |steps|
    requires Pays(trace[i], steps[i]) && steps[i].token.id == id && trace[i].jobs[id].planning
    ensures !Grants(trace[j], steps[j], id)
    ensures Pays(trace[j], steps[j]) && steps[j].token.id == id ==> steps[j].token == steps[i].token
  {
    PaidJobStays(steps, trace, i, j, id);
  }

  // After the reservation the job keeps its call, its owner and its attempt number.
  lemma PaidJobStays(steps: seq<Step>, trace: seq<Tables>, i: nat, j: nat, id: JobId)
    requires IsRun(steps, trace) && i < j <= |steps|
    requires Pays(trace[i], steps[i]) && steps[i].token.id == id && trace[i].jobs[id].planning
    ensures
      && id in trace[j].jobs && trace[j].jobs[id].planning && trace[j].jobs[id].owner == steps[i].token.owner
      && trace[j].jobs[id].attempts == steps[i].token.attempts >= 1
      && HasCalls(trace[j].calls, id, steps[i].token.owner)
  {
    var t, u, v := trace[i], trace[i + 1], trace[j];
    RunIsValid(steps, trace, i, i);
    RunIsValid(steps, trace, i + 1, j);
    assert JobValid(t.jobs[id]);
    assert u.calls[|t.calls|].job == id && u.calls[|t.calls|].owner == steps[i].token.owner;
    assert u.jobs == t.jobs && HasCalls(u.calls, id, u.jobs[id].owner);
    CallsStay(u, v, id, u.jobs[id].owner);
    assert JobFollows(u, v, id);
  }

  /** In every state of every run an approval holds exactly what was reserved under it, within its cap,
      and what is known to have been spent is no more than that. A reservation also keeps its job
      within the limit it was given. */
  lemma ApprovalsConserve(steps: seq<Step>, trace: seq<Tables>, n: nat)
    requires IsRun(steps, trace) && n <= |steps|
    ensures forall a | a in trace[n].budgets ::
              0 <= SpentOn(trace[n].calls, a) <= HeldOn(trace[n].calls, a) ==
                  trace[n].budgets[a].held <= trace[n].budgets[a].cap
    ensures n < |steps| && Pays(trace[n], steps[n]) ==>
              ReservedBy(trace[n + 1].calls, steps[n].token.id, steps[n].token.owner) <= steps[n].jobCap
  {
    RunIsValid(steps, trace, n, n);
    forall a | a in trace[n].budgets
      ensures 0 <= SpentOn(trace[n].calls, a) <= HeldOn(trace[n].calls, a)
    {
      SpentAtMostHeld(trace[n].calls, a);
    }
    if n < |steps| && Pays(trace[n], steps[n]) {
      var step := steps[n];
      ReservedAppend(trace[n].calls, Call(step.token.id, step.token.owner, step.approval, step.amount, Reserved, None),
                     step.token.id, step.token.owner);
    }
  }

  lemma {:induction false} SpentAtMostHeld(calls: seq<Call>, a: Approval)
    requires forall i | 0 <= i < |calls| :: CallValid(calls[i])
    ensures 0 <= SpentOn(calls, a) <= HeldOn(calls, a)
    decreases |calls|
  {
    if calls != [] {
      SpentAtMostHeld(calls[1..], a);
    }
  }

  lemma {:induction false} ReservedAppend(calls: seq<Call>, call: Call, id: JobId, owner: nat)
    ensures ReservedBy(calls + [call], id, owner)
      == ReservedBy(calls, id, owner) + (if call.job == id && call.owner == owner then call.reserved else 0)
    decreases |calls|
  {
    if calls != [] {
      ReservedAppend(calls[1..], call, id, owner);
      assert (calls + [call])[1..] == calls[1..] + [call];
    }
  }

  /** A worker that lost its lease cannot commit: from the next successful claim of the job on, nothing
      done with the older token changes the tables, whatever the status it saw. */
  lemma StaleWorkerIsRefused(steps: seq<Step>, trace: seq<Tables>, i: nat, j: nat, stale: Token, newer: Token)
    requires IsRun(steps, trace) && i < j <= |steps|
    requires GrantedBy(trace[i], steps[i]) == Some(newer) && stale.id == newer.id && stale.attempts < newer.attempts
    ensures forall seen, to, now :: AfterUpdate(trace[j], stale, seen, to, now) == trace[j]
    ensures forall approval, amount, cap, jobCap ::
      AfterReserve(trace[j], stale, approval, amount, cap, jobCap) == trace[j]
  {
    AttemptsChange(trace[i], steps[i], stale.id);
    RunIsValid(steps, trace, i + 1, j);
    assert JobFollows(trace[i + 1], trace[j], stale.id);
    forall seen
      ensures !Holds(trace[j], stale, seen)
    {
    }
  }

  /** A job that has ended never changes its status or its attempts again, and a settled call never
      changes at all. */
  lemma EndedForGood(steps: seq<Step>, trace: seq<Tables>, i: nat, j: nat)
    requires IsRun(steps, trace) && i <= j <= |steps|
    ensures forall id | id in trace[i].jobs && !Live(trace[i].jobs[id].status) ::
              id in trace[j].jobs && trace[j].jobs[id].status == trace[i].jobs[id].status
              && trace[j].jobs[id].attempts == trace[i].jobs[id].attempts
    ensures forall k | 0 <= k < |trace[i].calls| && trace[i].calls[k].state != Reserved ::
              k < |trace[j].calls| && trace[j].calls[k] == trace[i].calls[k]
  {
    RunIsValid(steps, trace, i, j);
    forall id | id in trace[i].jobs && !Live(trace[i].jobs[id].status)
      ensures id in trace[j].jobs && trace[j].jobs[id].status == trace[i].jobs[id].status
        && trace[j].jobs[id].attempts == trace[i].jobs[id].attempts
    {
      assert JobFollows(trace[i], trace[j], id);
    }
  }
}

/**
 Requests and the runtime queue: idempotent registration, leases, cancellation and completion.

 Every database transaction is one atomic step. Workers, cancelling users and expiring leases
 appear only as the order of steps, so a statement about every sequence of steps is a statement
 about every interleaving, crashed workers included.
 */
module RuntimeQueue {
  import opened Basics

  type Time = int
  const LEASE: Time := 125
  const INPUT_LIFE: Time := 120

  datatype RequestState = Queued | Running | AwaitingApproval | Succeeded | Failed | Cancelled | Uncertain

  datatype QueueState = Waiting | Claimed | Done | Abandoned

  datatype RequestKey = RequestKey(owner: nat, key: nat)
  datatype RunId = RunId(owner: nat, id: nat)

  datatype Request = Request(id: nat, hash: nat, state: RequestState)
  datatype Row = Row(key: RequestKey, deadline: Time, state: QueueState, lease: Option<Time>)

  // The tables sandbox_requests, runtime_queue and the queued inputs among sandbox_payloads.
  datatype Tables = Tables(requests: map<RequestKey, Request>, queue: map<RunId, Row>, inputs: map<RunId, Time>)

  const EMPTY := Tables(map[], map[], map[])

  predicate Live(s: RequestState) { s == Queued || s == Running }

  predicate Allowed(from: RequestState, to: RequestState) {
    match from
    case Queued => to == Running || to == Cancelled
    case Running => to == Succeeded || to == Failed || to == Cancelled || to == Uncertain || to == AwaitingApproval
    case _ => false
  }

  // ----- registration -----

  datatype Registered = Created | Existing(id: nat) | KeyConflict | IdConflict

  ghost predicate IdTaken(t: Tables, owner: nat, id: nat) {
    exists k :: k in t.requests && k.owner == owner && t.requests[k].id == id
  }

  ghost function Registration(t: Tables, key: RequestKey, id: nat, hash: nat): Registered {
    if key in t.requests then
      if t.requests[key].hash == hash then Existing(t.requests[key].id) else KeyConflict
    else if IdTaken(t, key.owner, id) then IdConflict
    else Created
  }

  ghost function AfterRegister(t: Tables, key: RequestKey, id: nat, hash: nat): Tables {
    if Registration(t, key, id, hash).Created? then t.(requests := t.requests[key := Request(id, hash, Queued)]) else t
  }

  ghost function AfterEnqueue(t: Tables, key: RequestKey, id: nat, hash: nat, deadline: Time, now: Time): Tables {
    if Registration(t, key, id, hash).Created? then
      var run := RunId(key.owner, id);
      AfterRegister(t, key, id, hash).(
        queue := t.queue[run := Row(key, deadline, Waiting, None)],
        inputs := t.inputs[run := now + INPUT_LIFE])
    else t
  }

  // ----- changing the state of a request by its identifier -----

  // The tenant's request with this identifier moves on, if it is in one of the given states.
  function SetState(requests: map<RequestKey, Request>, run: RunId, from: set<RequestState>,
      to: RequestState): map<RequestKey, Request> {
    map k | k in requests ::
      if k.owner == run.owner && requests[k].id == run.id && requests[k].state in from
      then requests[k].(state := to) else requests[k]
  }

  predicate HasState(requests: map<RequestKey, Request>, run: RunId, state: RequestState) {
    exists k | k in requests :: k.owner == run.owner && requests[k].id == run.id && requests[k].state == state
  }

  // Nothing when the transition is not in the table or the request is not in the expected state.
  function AfterAdvance(t: Tables, run: RunId, from: RequestState, to: RequestState): Tables {
    if Allowed(from, to) then t.(requests := SetState(t.requests, run, {from}, to)) else t
  }

  // ----- claiming -----

  predicate Expired(row: Row, now: Time) {
    || (row.state == Claimed && row.lease.Some? && row.lease.value < now)
    || (row.state == Waiting && row.deadline < now)
  }

  ghost predicate LostRequest(t: Tables, k: RequestKey, now: Time)
    requires k in t.requests
  {
    var run := RunId(k.owner, t.requests[k].id);
    run in t.queue && Expired(t.queue[run], now)
  }

  // The first half of a claim: expired inputs are deleted, and every expired row and its request,
  // if still live, become uncertain.
  ghost function AfterExpiry(t: Tables, now: Time): Tables {
    Tables(
      map k | k in t.requests ::
        if LostRequest(t, k, now) && Live(t.requests[k].state) then t.requests[k].(state := Uncertain)
        else t.requests[k],
      map run | run in t.queue ::
        if Expired(t.queue[run], now) then t.queue[run].(state := Abandoned) else t.queue[run],
      map run | run in t.inputs && t.inputs[run] > now :: t.inputs[run])
  }

  predicate Claimable(t: Tables, run: RunId, now: Time) {
    run in t.queue && t.queue[run].state == Waiting && t.queue[run].deadline > now
  }

  // A claim takes a waiting row with the earliest deadline, and none only if none is waiting.
  ghost predicate Picks(t: Tables, now: Time, pick: Option<RunId>) {
    match pick
    case None => forall run :: !Claimable(t, run, now)
    case Some(run) =>
      && Claimable(t, run, now)
      && forall other | Claimable(t, other, now) :: t.queue[run].deadline <= t.queue[other].deadline
  }

  ghost function AfterClaim(t: Tables, now: Time, pick: Option<RunId>): Tables
    requires Picks(AfterExpiry(t, now), now, pick)
  {
    var e := AfterExpiry(t, now);
    match pick
    case None => e
    case Some(run) => e.(queue := e.queue[run := e.queue[run].(state := Claimed, lease := Some(now + LEASE))])
  }

  function AfterFinish(t: Tables, run: RunId, uncertain: bool): Tables {
    Tables(
      if uncertain then SetState(t.requests, run, {Queued, Running}, Uncertain) else t.requests,
      if run in t.queue && t.queue[run].state == Claimed
      then t.queue[run := t.queue[run].(state := if uncertain then Abandoned else Done)] else t.queue,
      t.inputs - {run})
  }

  // ----- the storage object -----

  class RuntimeStorage {
    var requests: map<RequestKey, Request>
    var queue: map<RunId, Row>
    var inputs: map<RunId, Time>

    constructor ()
      ensures View() == EMPTY
    {
      requests, queue, inputs := map[], map[], map[];
    }

    ghost function View(): Tables
      reads this
    {
      Tables(requests, queue, inputs)
    }

    method RegisterRequest(key: RequestKey, id: nat, hash: nat) returns (r: Registered)
      modifies this`requests
      ensures r == Registration(old(View()), key, id, hash)
      ensures View() == AfterRegister(old(View()), key, id, hash)
    {
      if key in requests {
        return if requests[key].hash == hash then Existing(requests[key].id) else KeyConflict;
      }
      if exists k | k in requests :: k.owner == key.owner && requests[k].id == id {
        return IdConflict;
      }
      requests := requests[key := Request(id, hash, Queued)];
      r := Created;
    }

    method EnqueueRuntime(key: RequestKey, id: nat, hash: nat, deadline: Time, now: Time) returns (r: Registered)
      modifies this
      ensures r == Registration(old(View()), key, id, hash)
      ensures View() == AfterEnqueue(old(View()), key, id, hash, deadline, now)
    {
      r := RegisterRequest(key, id, hash);
      if r.Created? {
        var run := RunId(key.owner, id);
        inputs := inputs[run := now + INPUT_LIFE];
        queue := queue[run := Row(key, deadline, Waiting, None)];
      }
    }

    method ClaimRuntime(now: Time) returns (pick: Option<RunId>)
      modifies this
      ensures Picks(AfterExpiry(old(View()), now), now, pick)
      ensures View() == AfterClaim(old(View()), now, pick)
    {
      Expire(now);
      pick := None;
      var left := queue.Keys;
      while left != {}
        invariant left <= queue.Keys
        invariant pick.None? ==> forall run | run in queue && run !in left :: !Claimable(View(), run, now)
        invariant pick.Some? ==> Claimable(View(), pick.value, now)
        invariant pick.Some? ==> forall run | Claimable(View(), run, now) && run !in left ::
                    queue[pick.value].deadline <= queue[run].deadline
        decreases left
      {
        var run :| run in left;
        if queue[run].state == Waiting && queue[run].deadline > now
           && (pick.None? || queue[run].deadline < queue[pick.value].deadline) {
          pick := Some(run);
        }
        left := left - {run};
      }
      if pick.Some? {
        queue := queue[pick.value := queue[pick.value].(state := Claimed, lease := Some(now + LEASE))];
      }
    }

    method Expire(now: Time)
      modifies this
      ensures View() == AfterExpiry(old(View()), now)
    {
      inputs := map run | run in inputs && inputs[run] > now :: inputs[run];
      var expired := set run | run in queue && Expired(queue[run], now);
      queue := map run | run in queue :: if run in expired then queue[run].(state := Abandoned) else queue[run];
      requests := map k | k in requests ::
        if RunId(k.owner, requests[k].id) in expired && Live(requests[k].state)
        then requests[k].(state := Uncertain) else requests[k];
    }

    method FinishRuntime(run: RunId, uncertain: bool)
      modifies this
      ensures View() == AfterFinish(old(View()), run, uncertain)
    {
      if run in queue && queue[run].state == Claimed {
        queue := queue[run := queue[run].(state := if uncertain then Abandoned else Done)];
      }
      if uncertain {
        requests := SetState(requests, run, {Running, Queued}, Uncertain);
      }
      inputs := inputs - {run};
    }

    method AdvanceRequest(run: RunId, from: RequestState, to: RequestState) returns (ok: bool)
      modifies this`requests
      ensures ok <==> Allowed(from, to) && HasState(old(requests), run, from)
      ensures View() == AfterAdvance(old(View()), run, from, to)
    {
      ok := Allowed(from, to) && HasState(requests, run, from);
      if ok {
        requests := SetState(requests, run, {from}, to);
      } else {
        assert Allowed(from, to) ==> SetState(requests, run, {from}, to) == requests;
      }
    }
  }

  // ----- runs -----

  datatype Step =
    | Register(key: RequestKey, id: nat, hash: nat)
    | Enqueue(key: RequestKey, id: nat, hash: nat, deadline: Time, at: Time)
    | Claim(at: Time, pick: Option<RunId>)
    | Finish(run: RunId, uncertain: bool)
    | Advance(run: RunId, from: RequestState, to: RequestState)

  ghost predicate Possible(t: Tables, step: Step) {
    step.Claim? ==> Picks(AfterExpiry(t, step.at), step.at, step.pick)
  }

  ghost function After(t: Tables, step: Step): Tables
    requires Possible(t, step)
  {
    match step
    case Register(key, id, hash) => AfterRegister(t, key, id, hash)
    case Enqueue(key, id, hash, deadline, at) => AfterEnqueue(t, key, id, hash, deadline, at)
    case Claim(at, pick) => AfterClaim(t, at, pick)
    case Finish(run, uncertain) => AfterFinish(t, run, uncertain)
    case Advance(run, from, to) => AfterAdvance(t, run, from, to)
  }

  // A run is a list of steps and the tables before, between and after them.
  ghost predicate IsRun(steps: seq<Step>, trace: seq<Tables>) {
    && |trace| == |steps| + 1
    && trace[0] == EMPTY
    && forall i | 0 <= i < |steps| :: Possible(trace[i], steps[i]) && trace[i + 1] == After(trace[i], steps[i])
  }

  // Identifiers are unique per tenant, every queue row belongs to the request of its key, and a row
  // that was given up has no live request.
  ghost predicate Valid(t: Tables) {
    UniqueIds(t.requests) && forall run | run in t.queue :: RowValid(t, run)
  }

  ghost predicate UniqueIds(requests: map<RequestKey, Request>) {
    forall k, l | k in requests && l in requests && k.owner == l.owner && requests[k].id == requests[l].id :: k == l
  }

  predicate RowValid(t: Tables, run: RunId)
    requires run in t.queue
  {
    var k := t.queue[run].key;
    && k in t.requests && k.owner == run.owner && t.requests[k].id == run.id
    && (t.queue[run].state == Abandoned ==> !Live(t.requests[k].state))
    && (t.queue[run].state == Claimed ==> t.queue[run].lease.Some?)
  }

  lemma UniqueIdsKept(before: map<RequestKey, Request>, after: map<RequestKey, Request>)
    requires UniqueIds(before) && before.Keys == after.Keys && forall k | k in before :: after[k].id == before[k].id
    ensures UniqueIds(after)
  {
  }

  // What no step undoes.
  ghost predicate Follows(t: Tables, u: Tables) {
    && (forall k | k in t.requests ::
      && k in u.requests && u.requests[k].id == t.requests[k].id && u.requests[k].hash == t.requests[k].hash
      && (!Live(t.requests[k].state) ==> u.requests[k].state == t.requests[k].state)
      && (t.requests[k].state == Running ==> u.requests[k].state != Queued))
    && (forall run | run in t.queue ::
      && run in u.queue && u.queue[run].key == t.queue[run].key
      && (t.queue[run].state == Done || t.queue[run].state == Abandoned ==> u.queue[run].state == t.queue[run].state)
      && (t.queue[run].state == Claimed ==> u.queue[run].state != Waiting))
  }

  lemma EnqueueKeepsValid(t: Tables, key: RequestKey, id: nat, hash: nat, deadline: Time, now: Time)
    requires Valid(t)
    ensures
      var u := AfterEnqueue(t, key, id, hash, deadline, now);
      Valid(u) && Follows(t, u)
  {
    if Registration(t, key, id, hash).Created? {
      assert RunId(key.owner, id) !in t.queue;
    }
  }

  lemma ExpiryKeepsValid(t: Tables, now: Time)
    requires Valid(t)
    ensures Valid(AfterExpiry(t, now)) && Follows(t, AfterExpiry(t, now))
  {
    hide UniqueIds, RowValid, AfterExpiry;
    var u := AfterExpiry(t, now);
    ExpiryFollows(t, now);
    UniqueIdsKept(t.requests, u.requests);
    forall run | run in u.queue
      ensures RowValid(u, run)
    {
      ExpiryKeepsRow(t, now, run);
    }
  }

  lemma ExpiryFollows(t: Tables, now: Time)
    ensures
      var u := AfterExpiry(t, now);
      && Follows(t, u) && u.requests.Keys == t.requests.Keys && u.queue.Keys == t.queue.Keys
      && forall k | k in t.requests :: u.requests[k].id == t.requests[k].id
  {
    hide LostRequest;
  }

  lemma ExpiryKeepsRow(t: Tables, now: Time, run: RunId)
    requires run in t.queue && RowValid(t, run)
    ensures run in AfterExpiry(t, now).queue && RowValid(AfterExpiry(t, now), run)
  {
    var k := t.queue[run].key;
    assert RunId(k.owner, t.requests[k].id) == run;
  }

  lemma ClaimKeepsValid(t: Tables, now: Time, pick: Option<RunId>)
    requires Valid(t) && Picks(AfterExpiry(t, now), now, pick)
    ensures Valid(AfterClaim(t, now, pick)) && Follows(t, AfterClaim(t, now, pick))
  {
    hide AfterExpiry, Valid, Follows;
    ExpiryKeepsValid(t, now);
    var e := AfterExpiry(t, now);
    if pick.Some? {
      TakeKeepsValid(e, now, pick.value);
      FollowsTransitive(t, e, AfterClaim(t, now, pick));
    }
  }

  lemma TakeKeepsValid(t: Tables, now: Time, run: RunId)
    requires Valid(t) && Claimable(t, run, now)
    ensures
      var u := t.(queue := t.queue[run := t.queue[run].(state := Claimed, lease := Some(now + LEASE))]);
      Valid(u) && Follows(t, u)
  {
    hide UniqueIds;
    var u := t.(queue := t.queue[run := t.queue[run].(state := Claimed, lease := Some(now + LEASE))]);
    forall r | r in u.queue
      ensures RowValid(u, r)
    {
      assert RowValid(t, r);
    }
  }

  lemma RegisterKeepsValid(t: Tables, key: RequestKey, id: nat, hash: nat)
    requires Valid(t)
    ensures
      var u := AfterRegister(t, key, id, hash);
      Valid(u) && Follows(t, u)
  {
  }

  lemma FollowsTransitive(t: Tables, u: Tables, v: Tables)
    requires Follows(t, u) && Follows(u, v)
    ensures Follows(t, v)
  {
  }

  lemma GiveUpKeepsValid(t: Tables, run: RunId)
    requires Valid(t)
    ensures
      var u := t.(requests := SetState(t.requests, run, {Queued, Running}, Uncertain));
      Valid(u) && Follows(t, u)
  {
    hide UniqueIds;
    var u := t.(requests := SetState(t.requests, run, {Queued, Running}, Uncertain));
    UniqueIdsKept(t.requests, u.requests);
    forall r | r in u.queue
      ensures RowValid(u, r)
    {
      assert RowValid(t, r);
    }
  }

  lemma CloseKeepsValid(t: Tables, run: RunId, state: QueueState)
    requires Valid(t) && run in t.queue && t.queue[run].state == Claimed
    requires state == Done || (state == Abandoned && !Live(t.requests[t.queue[run].key].state))
    ensures
      var u := t.(queue := t.queue[run := t.queue[run].(state := state)], inputs := t.inputs - {run});
      Valid(u) && Follows(t, u)
  {
  }

  lemma FinishKeepsValid(t: Tables, run: RunId, uncertain: bool)
    requires Valid(t)
    ensures
      var u := AfterFinish(t, run, uncertain);
      Valid(u) && Follows(t, u)
  {
    var u := AfterFinish(t, run, uncertain);
    var settled := t;
    if uncertain {
      settled := t.(requests := SetState(t.requests, run, {Queued, Running}, Uncertain));
      GiveUpKeepsValid(t, run);
    }
    if run in t.queue && t.queue[run].state == Claimed {
      CloseKeepsValid(settled, run, if uncertain then Abandoned else Done);
    }
    assert Valid(u) && Follows(settled, u);
    FollowsTransitive(t, settled, u);
  }

  lemma StepKeepsValid(t: Tables, step: Step)
    requires Valid(t) && Possible(t, step)
    ensures Valid(After(t, step)) && Follows(t, After(t, step))
  {
    match step
    case Register(key, id, hash) => RegisterKeepsValid(t, key, id, hash);
    case Enqueue(key, id, hash, deadline, at) => EnqueueKeepsValid(t, key, id, hash, deadline, at);
    case Claim(at, pick) => ClaimKeepsValid(t, at, pick);
    case Finish(run, uncertain) => FinishKeepsValid(t, run, uncertain);
    case Advance(run, from, to) =>
      if Allowed(from, to) {
        AdvanceKeepsValid(t, run, from, to);
      }
  }

  lemma AdvanceKeepsValid(t: Tables, run: RunId, from: RequestState, to: RequestState)
    requires Valid(t) && Allowed(from, to)
    ensures
      var u := AfterAdvance(t, run, from, to);
      Valid(u) && Follows(t, u)
  {
    hide UniqueIds, RowValid, AfterAdvance, Allowed;
    var u := AfterAdvance(t, run, from, to);
    AdvanceFollows(t, run, from, to);
    UniqueIdsKept(t.requests, u.requests);
    forall r | r in u.queue
      ensures RowValid(u, r)
    {
      AdvanceKeepsRow(t, run, from, to, r);
    }
  }

  lemma AdvanceFollows(t: Tables, run: RunId, from: RequestState, to: RequestState)
    requires Allowed(from, to)
    ensures
      var u := AfterAdvance(t, run, from, to);
      && Follows(t, u) && u.requests.Keys == t.requests.Keys && u.queue == t.queue
      && forall k | k in t.requests :: u.requests[k].id == t.requests[k].id
  {
  }

  lemma AdvanceKeepsRow(t: Tables, run: RunId, from: RequestState, to: RequestState, r: RunId)
    requires Allowed(from, to) && r in t.queue && RowValid(t, r)
    ensures RowValid(AfterAdvance(t, run, from, to), r)
  {
  }

  lemma {:induction false} RunIsValid(steps: seq<Step>, trace: seq<Tables>, i: nat, j: nat)
    requires IsRun(steps, trace) && i <= j <= |steps|
    ensures Valid(trace[i]) && Valid(trace[j]) && Follows(trace[i], trace[j])
    decreases i + j
  {
    if i < j {
      RunIsValid(steps, trace, i, j - 1);
      StepKeepsValid(trace[j - 1], steps[j - 1]);
      FollowsTransitive(trace[i], trace[j - 1], trace[j]);
    } else if i > 0 {
      RunIsValid(steps, trace, i - 1, i - 1);
      StepKeepsValid(trace[i - 1], steps[i - 1]);
    }
  }

  /** In every interleaving a queue row is claimed at most once. */
  lemma ClaimedAtMostOnce(steps: seq<Step>, trace: seq<Tables>, i: nat, j: nat, run: RunId)
    requires IsRun(steps, trace) && i < |steps| && j < |steps|
    requires steps[i].Claim? && steps[i].pick == Some(run)
    requires steps[j].Claim? && steps[j].pick == Some(run)
    ensures i == j
  {
    if i < j {
      ClaimedBefore(steps, trace, i, j, run);
    } else if j < i {
      ClaimedBefore(steps, trace, j, i, run);
    }
  }

  lemma ClaimedBefore(steps: seq<Step>, trace: seq<Tables>, i: nat, j: nat, run: RunId)
    requires IsRun(steps, trace) && i < j < |steps|
    requires steps[i].Claim? && steps[i].pick == Some(run)
    ensures !(steps[j].Claim? && steps[j].pick == Some(run))
  {
    RunIsValid(steps, trace, i + 1, j);
    assert run in trace[i + 1].queue && trace[i + 1].queue[run].state == Claimed;
    if steps[j].Claim? {
      ExpiryKeepsValid(trace[j], steps[j].at);
    }
  }

  ghost predicate Enters(trace: seq<Tables>, i: nat, k: RequestKey, state: RequestState) {
    && i + 1 < |trace|
    && k in trace[i + 1].requests && trace[i + 1].requests[k].state == state
    && (k in trace[i].requests ==> trace[i].requests[k].state != state)
  }

  /** In every interleaving a request enters each of its states at most once; above all it is
      started at most once. */
  lemma EnteredAtMostOnce(steps: seq<Step>, trace: seq<Tables>, i: nat, j: nat, k: RequestKey, state: RequestState)
    requires IsRun(steps, trace)
    requires Enters(trace, i, k, state) && Enters(trace, j, k, state)
    ensures i == j
  {
    if i < j {
      LeftForGood(steps, trace, i, j, k, state);
    } else if j < i {
      LeftForGood(steps, trace, j, i, k, state);
    }
  }

  lemma LeftForGood(steps: seq<Step>, trace: seq<Tables>, i: nat, j: nat, k: RequestKey, state: RequestState)
    requires IsRun(steps, trace) && i < j < |steps|
    requires Enters(trace, i, k, state)
    ensures !Enters(trace, j, k, state)
  {
    RunIsValid(steps, trace, i + 1, j);
    RunIsValid(steps, trace, j, j + 1);
  }

  /** A request that has left `queued` and `running` never changes again. A worker that comes back
      after its row was given up finds such a request, so it can neither start it nor report on it. */
  lemma SettledForGood(steps: seq<Step>, trace: seq<Tables>, i: nat, j: nat, k: RequestKey)
    requires IsRun(steps, trace) && i <= j <= |steps| && k in trace[i].requests
    ensures !Live(trace[i].requests[k].state) ==>
      k in trace[j].requests && trace[j].requests[k] == trace[i].requests[k]
    ensures
      var run := RunId(k.owner, trace[i].requests[k].id);
      run in trace[i].queue && trace[i].queue[run].state == Abandoned ==>
        !Live(trace[i].requests[k].state)
        && forall from, to | Allowed(from, to) :: AfterAdvance(trace[j], run, from, to) == trace[j]
  {
    RunIsValid(steps, trace, i, j);
    var run := RunId(k.owner, trace[i].requests[k].id);
    if run in trace[i].queue && trace[i].queue[run].state == Abandoned {
      var l := trace[i].queue[run].key;
      assert l == k;
      forall from, to | Allowed(from, to)
        ensures AfterAdvance(trace[j], run, from, to) == trace[j]
      {
        assert SetState(trace[j].requests, run, {from}, to) == trace[j].requests;
      }
    }
  }

  /** Once registered, a key keeps its identifier: submitting the same content again only returns
      it, and other content is refused, at any later time. */
  lemma ResubmissionChangesNothing(steps: seq<Step>, trace: seq<Tables>, i: nat, j: nat, key: RequestKey, id: nat,
      hash: nat)
    requires IsRun(steps, trace) && i <= j <= |steps| && key in trace[i].requests
    ensures
      var saved := trace[i].requests[key];
      && Registration(trace[j], key, id, hash) == (if hash == saved.hash then Existing(saved.id) else KeyConflict)
      && (forall deadline, now :: AfterEnqueue(trace[j], key, id, hash, deadline, now) == trace[j])
  {
    RunIsValid(steps, trace, i, j);
  }
}

/**
 What each step of the planning jobs decides, read off the run so far: which job a claim takes and what
 becomes of it, when a paid call is reserved, what it is settled with, and whose commits count.
 */
module JobRules {
  import opened Basics
  import opened PlanningJobs

  // A call of the job has been reserved among the first n steps.
  ghost predicate PaidBefore(steps: seq<Step>, trace: seq<Tables>, id: JobId, n: nat)
    requires n <= |steps| && n < |trace|
  {
    exists k :: 0 <= k < n && Pays(trace[k], steps[k]) && steps[k].token.id == id
  }

  lemma CallsChange(t: Tables, step: Step)
    requires Possible(t, step)
    ensures
      var u := After(t, step);
      if Pays(t, step) then
        u.calls == t.calls + [Call(step.token.id, step.token.owner, step.approval, step.amount, Reserved, None)]
      else |u.calls| == |t.calls| && forall i | 0 <= i < |t.calls| :: u.calls[i].job == t.calls[i].job
  {
  }

  ghost predicate HasCall(calls: seq<Call>, id: JobId) {
    exists i :: 0 <= i < |calls| && calls[i].job == id
  }

  lemma {:induction false} PaidIsCall(steps: seq<Step>, trace: seq<Tables>, id: JobId, n: nat)
    requires IsRun(steps, trace) && n <= |steps|
    ensures PaidBefore(steps, trace, id, n) <==> HasCall(trace[n].calls, id)
    decreases n
  {
    hide After, Possible, Reserving;
    if n > 0 {
      var t, u, step := trace[n - 1], trace[n], steps[n - 1];
      PaidIsCall(steps, trace, id, n - 1);
      assert Possible(t, step) && u == After(t, step);
      CallsChange(t, step);
      if HasCall(t.calls, id) {
        var i :| 0 <= i < |t.calls| && t.calls[i].job == id;
        assert u.calls[i].job == id;
      }
      if Pays(t, step) {
        assert u.calls[|t.calls|].job == step.token.id;
      }
      if HasCall(u.calls, id) {
        var i :| 0 <= i < |u.calls| && u.calls[i].job == id;
        if i < |t.calls| {
          assert t.calls[i].job == id;
        }
      }
    }
  }

  lemma OwnCalls(steps: seq<Step>, trace: seq<Tables>, id: JobId, n: nat)
    requires IsRun(steps, trace) && n <= |steps| && id in trace[n].jobs
    ensures HasCalls(trace[n].calls, id, trace[n].jobs[id].owner) <==> HasCall(trace[n].calls, id)
    ensures HasCall(trace[n].calls, id) ==> trace[n].jobs[id].attempts >= 1
  {
    RunIsValid(steps, trace, n, n);
    var t := trace[n];
    if HasCall(t.calls, id) {
      var i :| 0 <= i < |t.calls| && t.calls[i].job == id;
      assert Attached(t, t.calls[i]);
    }
  }

  // Waiting, or given up by its worker for more than a minute.
  ghost predicate Waits(job: Job, now: Time) {
    job.status == Queued || (job.status == Running && job.updated + 60 < now)
  }

  // The claim takes the waiting job that was updated longest ago.
  ghost predicate TakesOldest(t: Tables, now: Time, pick: Option<JobId>) {
    if pick.None? then forall id | id in t.jobs :: !Waits(t.jobs[id], now)
    else
      && pick.value in t.jobs && Waits(t.jobs[pick.value], now)
      && forall id | id in t.jobs && Waits(t.jobs[id], now) :: t.jobs[pick.value].updated <= t.jobs[id].updated
  }

  lemma PicksOldest(t: Tables, now: Time, pick: Option<JobId>)
    requires Picks(t, now, pick)
    ensures TakesOldest(t, now, pick)
  {
    assert forall id | id in t.jobs :: Claimable(t, id, now) <==> Waits(t.jobs[id], now);
  }

  /** What a claim does: it looks at the waiting job that was updated longest ago, if any. If a call of a
      planning job has been paid for, the job becomes uncertain; if it has been claimed three times, it
      fails; otherwise the worker gets it, under a token with the number of the claim. Nothing else
      changes. */
  lemma ClaimExactly(steps: seq<Step>, trace: seq<Tables>, n: nat)
    requires IsRun(steps, trace) && n < |steps| && steps[n].Claim?
    ensures TakesOldest(trace[n], steps[n].at, steps[n].pick)
    ensures trace[n + 1].calls == trace[n].calls && trace[n + 1].budgets == trace[n].budgets
    ensures steps[n].pick.None? ==> trace[n + 1] == trace[n] && GrantedBy(trace[n], steps[n]).None?
    ensures steps[n].pick.Some? ==>
      var id, now, granted := steps[n].pick.value, steps[n].at, GrantedBy(trace[n], steps[n]);
      var claims := ClaimsOf(steps, trace, id, n);
      && id in trace[n].jobs
      && var was := trace[n].jobs[id];
         if was.planning && PaidBefore(steps, trace, id, n) then
           granted.None? && trace[n + 1].jobs == trace[n].jobs[id := was.(status := Uncertain, updated := now)]
         else if claims >= 3 then
           granted.None? && trace[n + 1].jobs == trace[n].jobs[id := was.(status := Failed, updated := now)]
         else
           && granted == Some(Token(id, was.owner, claims + 1))
           && trace[n + 1].jobs
              == trace[n].jobs[id := was.(status := Running, attempts := claims + 1, updated := now)]
  {
    hide HasCalls, Picks, PaidBefore, TakesOldest, Claimable;
    var t, step := trace[n], steps[n];
    assert Possible(t, step) && trace[n + 1] == After(t, step);
    PicksOldest(t, step.at, step.pick);
    if step.pick.Some? {
      PickIsThere(t, step.at, step.pick.value);
      var id := step.pick.value;
      ClaimedAtMostThrice(steps, trace, id, n);
      PaidIsCall(steps, trace, id, n);
      OwnCalls(steps, trace, id, n);
    }
  }

  lemma PickIsThere(t: Tables, now: Time, id: JobId)
    requires TakesOldest(t, now, Some(id))
    ensures id in t.jobs
  {
  }

  /** When a paid call is reserved: exactly when the amount is positive and approved, the worker holds the
      running job, and what the job's calls and the approval's calls have reserved leaves room for it in
      the job's limit and in the approval's one cap. */
  lemma ReservationExactly(steps: seq<Step>, trace: seq<Tables>, n: nat)
    requires IsRun(steps, trace) && n < |steps| && steps[n].Reserve?
    ensures
      var t, step := trace[n], steps[n];
      var token := step.token;
      Pays(t, step) <==>
        && 0 < step.amount <= step.cap
        && token.id in t.jobs && t.jobs[token.id].owner == token.owner && t.jobs[token.id].status == Running
        && t.jobs[token.id].attempts == token.attempts
        && ReservedBy(t.calls, token.id, token.owner) + step.amount <= step.jobCap
        && HeldOn(t.calls, step.approval) + step.amount <= step.cap
        && (step.approval in t.budgets ==> t.budgets[step.approval].cap == step.cap)
    ensures
      var t, u, step := trace[n], trace[n + 1], steps[n];
      if Pays(t, step) then
        && u.jobs == t.jobs
        && u.budgets == t.budgets[step.approval := Budget(step.cap, HeldOn(t.calls, step.approval) + step.amount)]
        && u.calls == t.calls + [Call(step.token.id, step.token.owner, step.approval, step.amount, Reserved, None)]
      else u == t
  {
    hide IsRun;
    RunStep(steps, trace, n);
    RunIsValid(steps, trace, n, n);
    var t, step := trace[n], steps[n];
    if step.approval !in t.budgets {
      forall i | 0 <= i < |t.calls|
        ensures t.calls[i].approval != step.approval
      {
        assert Attached(t, t.calls[i]);
      }
      NoneHeld(t.calls, step.approval);
    }
  }

  lemma RunStep(steps: seq<Step>, trace: seq<Tables>, n: nat)
    requires IsRun(steps, trace) && n < |steps|
    ensures |trace| == |steps| + 1 && Possible(trace[n], steps[n]) && trace[n + 1] == After(trace[n], steps[n])
  {
  }

  /** What a call is settled with: its cost, if the answer came from the model that was asked and the cost
      is within what was reserved; otherwise it stays unknown, and either way the hold stays. Only the
      first settlement counts. */
  lemma SettlementExactly(steps: seq<Step>, trace: seq<Tables>, n: nat)
    requires IsRun(steps, trace) && n < |steps| && steps[n].Settle? && steps[n].k < |trace[n].calls|
    ensures
      var t, u, step := trace[n], trace[n + 1], steps[n];
      var was, became := t.calls[step.k], u.calls[step.k];
      && u == t.(calls := t.calls[step.k := became])
      && became.reserved == was.reserved && became.approval == was.approval && became.job == was.job
      && became.owner == was.owner
      && (was.state != Reserved ==> became == was)
      && (was.state == Reserved ==>
            if step.sameModel && step.cost.Some? && step.cost.value <= was.reserved then
              became.state == Known && became.actual == Some(step.cost.value)
            else became.state == Unknown && became.actual.None?)
  {
    hide IsRun;
    RunStep(steps, trace, n);
    RunIsValid(steps, trace, n, n);
    var t, u, k := trace[n], trace[n + 1], steps[n].k;
    assert CallValid(t.calls[k]) && Attached(t, t.calls[k]);
    assert u.calls == t.calls[k := u.calls[k]];
  }

  /** Whose commits count: closing a job takes effect exactly if the job is still running under the token
      that its last claim handed out. */
  lemma CommitsExactly(steps: seq<Step>, trace: seq<Tables>, n: nat)
    requires IsRun(steps, trace) && n < |steps| && steps[n].Close?
    ensures
      var t, u, step := trace[n], trace[n + 1], steps[n];
      var id := step.token.id;
      var current :=
        && id in t.jobs && t.jobs[id].status == Running
        && step.token == Token(id, t.jobs[id].owner, ClaimsOf(steps, trace, id, n));
      if current then u == t.(jobs := t.jobs[id := t.jobs[id].(status := step.to, updated := step.at)])
      else u == t
  {
    hide IsRun;
    RunStep(steps, trace, n);
    ClaimedAtMostThrice(steps, trace, steps[n].token.id, n);
  }

  /** A user can cancel a job while it waits or runs, as the one who reads it last: exactly if it is still
      in the status and under the claim that was read. */
  lemma CancelsExactly(steps: seq<Step>, trace: seq<Tables>, n: nat)
    requires IsRun(steps, trace) && n < |steps| && steps[n].Cancel?
    ensures
      var t, u, step := trace[n], trace[n + 1], steps[n];
      var id := step.token.id;
      var asRead :=
        && id in t.jobs && t.jobs[id].status == step.seen
        && step.token == Token(id, t.jobs[id].owner, ClaimsOf(steps, trace, id, n));
      if asRead then u == t.(jobs := t.jobs[id := t.jobs[id].(status := Cancelled, updated := step.at)])
      else u == t
  {
    hide IsRun;
    RunStep(steps, trace, n);
    ClaimedAtMostThrice(steps, trace, steps[n].token.id, n);
  }
  /** Progress is saved under the same condition, and renews the lease. */
  lemma TouchesExactly(steps: seq<Step>, trace: seq<Tables>, n: nat)
    requires IsRun(steps, trace) && n < |steps| && steps[n].Touch?
    ensures
      var t, u, step := trace[n], trace[n + 1], steps[n];
      var id := step.token.id;
      var asRead :=
        && id in t.jobs && t.jobs[id].status == step.seen
        && step.token == Token(id, t.jobs[id].owner, ClaimsOf(steps, trace, id, n));
      if asRead then u == t.(jobs := t.jobs[id := t.jobs[id].(updated := step.at)]) else u == t
  {
    hide IsRun;
    RunStep(steps, trace, n);
    ClaimedAtMostThrice(steps, trace, steps[n].token.id, n);
  }

  /** A job is queued exactly if its identifier is new, with no claim yet. */
  lemma EnqueueExactly(steps: seq<Step>, trace: seq<Tables>, n: nat)
    requires IsRun(steps, trace) && n < |steps| && steps[n].Enqueue?
    ensures
      var t, u, step := trace[n], trace[n + 1], steps[n];
      if step.id in t.jobs then u == t
      else u == t.(jobs := t.jobs[step.id := Job(step.owner, step.planning, Queued, 0, step.at)])
  {
    hide IsRun;
    RunStep(steps, trace, n);
  }
}

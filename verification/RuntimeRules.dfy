/**
 What each step on the runtime queue does, read off the run so far: which row a claim takes, which rows and
 requests it gives up, and how a request moves on.
 */
module RuntimeRules {
  import opened Basics
  import opened RuntimeQueue

  lemma RunStep(steps: seq<Step>, trace: seq<Tables>, n: nat)
    requires IsRun(steps, trace) && n < |steps|
    ensures |trace| == |steps| + 1 && Possible(trace[n], steps[n]) && trace[n + 1] == After(trace[n], steps[n])
  {
  }

  // ----- where rows come from -----

  // The step that put the row in the queue.
  ghost predicate Enqueues(trace: seq<Tables>, steps: seq<Step>, i: int, run: RunId, row: Row) {
    && 0 <= i < |steps| && i < |trace| && steps[i].Enqueue?
    && Registration(trace[i], steps[i].key, steps[i].id, steps[i].hash).Created?
    && run == RunId(steps[i].key.owner, steps[i].id)
    && row.key == steps[i].key && row.deadline == steps[i].deadline
  }

  ghost predicate ClaimsAt(steps: seq<Step>, i: int, run: RunId, at: Time) {
    0 <= i < |steps| && steps[i].Claim? && steps[i].pick == Some(run) && steps[i].at == at
  }

  // A row has the key and the deadline it was queued with, and a claimed one has the lease of its claim.
  ghost predicate Originates(steps: seq<Step>, trace: seq<Tables>, n: nat, run: RunId, row: Row) {
    && (exists i :: i < n && Enqueues(trace, steps, i, run, row))
    && (row.state == Waiting ==> row.lease.None?)
    && (row.state == Claimed ==> exists i, at :: i < n && ClaimsAt(steps, i, run, at) && row.lease == Some(at + 125))
  }

  lemma StillOriginates(steps: seq<Step>, trace: seq<Tables>, n: nat, run: RunId, row: Row, later: Row)
    requires Originates(steps, trace, n, run, row) && later.key == row.key && later.deadline == row.deadline
    requires (later.state == row.state && later.lease == row.lease) || later.state == Done || later.state == Abandoned
    ensures Originates(steps, trace, n + 1, run, later)
  {
    var i :| i < n && Enqueues(trace, steps, i, run, row);
    assert Enqueues(trace, steps, i, run, later);
    if later.state == Claimed {
      var j, at :| j < n && ClaimsAt(steps, j, run, at) && row.lease == Some(at + 125);
    }
  }

  lemma NewlyClaimed(steps: seq<Step>, trace: seq<Tables>, n: nat, run: RunId, row: Row, now: Time)
    requires Originates(steps, trace, n, run, row) && ClaimsAt(steps, n, run, now)
    ensures Originates(steps, trace, n + 1, run, row.(state := Claimed, lease := Some(now + 125)))
  {
    var i :| i < n && Enqueues(trace, steps, i, run, row);
    assert Enqueues(trace, steps, i, run, row.(state := Claimed, lease := Some(now + 125)));
  }

  // What a step may do to one row: put it there, close it, or claim it.
  ghost predicate RowFollows(t: Tables, u: Tables, step: Step, run: RunId) {
    && (run in t.queue ==> run in u.queue)
    && (run in u.queue && run !in t.queue ==>
          && step.Enqueue? && Registration(t, step.key, step.id, step.hash).Created?
          && run == RunId(step.key.owner, step.id) && u.queue[run] == Row(step.key, step.deadline, Waiting, None))
    && (run in t.queue ==>
          var was, became := t.queue[run], u.queue[run];
          || became == was
          || became == was.(state := Done)
          || became == was.(state := Abandoned)
          || (step.Claim? && step.pick == Some(run)
              && became == was.(state := Claimed, lease := Some(step.at + 125))))
  }

  lemma RowStep(t: Tables, step: Step, run: RunId)
    requires Possible(t, step) && Valid(t)
    ensures RowFollows(t, After(t, step), step, run)
  {
    hide LostRequest, UniqueIds, IdTaken;
    match step {
      case Enqueue(key, id, hash, deadline, at) =>
        if Registration(t, key, id, hash).Created? {
          EnqueueKeepsValid(t, key, id, hash, deadline, at);
          assert run in t.queue ==> RowValid(t, run);
          NotQueued(t, key, id, hash);
        }
      case Register(_, _, _) =>
      case Claim(_, _) =>
      case Finish(_, _) =>
      case Advance(_, _, _) =>
    }
  }

  lemma NotQueued(t: Tables, key: RequestKey, id: nat, hash: nat)
    requires Valid(t) && Registration(t, key, id, hash).Created?
    ensures RunId(key.owner, id) !in t.queue
  {
    forall run | run in t.queue
      ensures run != RunId(key.owner, id)
    {
      assert RowValid(t, run);
    }
  }

  lemma {:induction false} RowsOriginate(steps: seq<Step>, trace: seq<Tables>, n: nat, run: RunId)
    requires IsRun(steps, trace) && n <= |steps| && run in trace[n].queue
    ensures Originates(steps, trace, n, run, trace[n].queue[run])
    decreases n
  {
    hide *;
    NothingQueued(steps, trace);
    if n > 0 {
      RunStep(steps, trace, n - 1);
      RunIsValid(steps, trace, n - 1, n - 1);
      RowStep(trace[n - 1], steps[n - 1], run);
      if run in trace[n - 1].queue {
        RowsOriginate(steps, trace, n - 1, run);
      }
      OneMore(steps, trace, n, run);
    }
  }

  lemma NothingQueued(steps: seq<Step>, trace: seq<Tables>)
    requires IsRun(steps, trace)
    ensures |trace| == |steps| + 1 && trace[0].queue == map[]
  {
  }

  lemma OneMore(steps: seq<Step>, trace: seq<Tables>, n: nat, run: RunId)
    requires 0 < n <= |steps| && n < |trace| && run in trace[n].queue
    requires RowFollows(trace[n - 1], trace[n], steps[n - 1], run)
    requires run in trace[n - 1].queue ==> Originates(steps, trace, n - 1, run, trace[n - 1].queue[run])
    ensures Originates(steps, trace, n, run, trace[n].queue[run])
  {
    hide Originates, Registration;
    var t, u, step := trace[n - 1], trace[n], steps[n - 1];
    if run in t.queue {
      var was, became := t.queue[run], u.queue[run];
      if became == was || became == was.(state := Done) || became == was.(state := Abandoned) {
        StillOriginates(steps, trace, n - 1, run, was, became);
      } else {
        NewlyClaimed(steps, trace, n - 1, run, was, step.at);
      }
    } else {
      NewlyQueued(steps, trace, n, run);
    }
  }

  lemma NewlyQueued(steps: seq<Step>, trace: seq<Tables>, n: nat, run: RunId)
    requires 0 < n <= |steps| && n < |trace| && steps[n - 1].Enqueue? && run in trace[n].queue
    requires
      var step := steps[n - 1];
      && Registration(trace[n - 1], step.key, step.id, step.hash).Created?
      && run == RunId(step.key.owner, step.id) && trace[n].queue[run] == Row(step.key, step.deadline, Waiting, None)
    ensures Originates(steps, trace, n, run, trace[n].queue[run])
  {
    hide Registration;
    assert Enqueues(trace, steps, n - 1, run, trace[n].queue[run]);
  }

  // ----- claims -----

  // Its lease is over, or its deadline while it waits.
  predicate Lost(row: Row, now: Time) {
    (row.state == Claimed && row.lease.Some? && row.lease.value < now) || (row.state == Waiting && row.deadline < now)
  }

  predicate Waits(row: Row, now: Time) { row.state == Waiting && now < row.deadline }

  // The waiting row with the earliest deadline, if any.
  ghost predicate TakesEarliest(t: Tables, now: Time, pick: Option<RunId>) {
    if pick.None? then forall run | run in t.queue :: !Waits(t.queue[run], now)
    else
      && pick.value in t.queue && Waits(t.queue[pick.value], now)
      && forall run | run in t.queue && Waits(t.queue[run], now) ::
           t.queue[pick.value].deadline <= t.queue[run].deadline
  }

  /** What a claim does, whoever makes it: rows whose lease or deadline is over are given up, and their
      requests, if still live, are uncertain; expired inputs are deleted; and the waiting row with the
      earliest deadline is claimed for 125 seconds. Everything else stays as it is. */
  lemma ClaimExactly(steps: seq<Step>, trace: seq<Tables>, n: nat)
    requires IsRun(steps, trace) && n < |steps| && steps[n].Claim?
    ensures TakesEarliest(trace[n], steps[n].at, steps[n].pick)
    ensures trace[n + 1].queue.Keys == trace[n].queue.Keys && trace[n + 1].requests.Keys == trace[n].requests.Keys
    ensures forall run | run in trace[n].queue ::
              trace[n + 1].queue[run] ==
                if Lost(trace[n].queue[run], steps[n].at) then trace[n].queue[run].(state := Abandoned)
                else if steps[n].pick == Some(run) then
                  trace[n].queue[run].(state := Claimed, lease := Some(steps[n].at + 125))
                else trace[n].queue[run]
    ensures forall k | k in trace[n].requests ::
              var run := RunId(k.owner, trace[n].requests[k].id);
              trace[n + 1].requests[k] ==
                if run in trace[n].queue && Lost(trace[n].queue[run], steps[n].at) && Live(trace[n].requests[k].state)
                then trace[n].requests[k].(state := Uncertain) else trace[n].requests[k]
    ensures forall run :: run in trace[n + 1].inputs <==> run in trace[n].inputs && steps[n].at < trace[n].inputs[run]
    ensures forall run | run in trace[n + 1].inputs :: trace[n + 1].inputs[run] == trace[n].inputs[run]
  {
    RunStep(steps, trace, n);
    var t, now := trace[n], steps[n].at;
    var e := AfterExpiry(t, now);
    forall run | run in t.queue
      ensures Claimable(e, run, now) <==> Waits(t.queue[run], now)
    {
    }
    assert forall run | run in t.queue :: Lost(t.queue[run], now) == Expired(t.queue[run], now);
  }

  // It was claimed among the first n steps, more than 125 seconds before.
  ghost predicate Overdue(steps: seq<Step>, n: nat, run: RunId, now: Time) {
    exists i, at :: i < n && ClaimsAt(steps, i, run, at) && at + 125 < now
  }

  // It was queued among the first n steps, with a deadline that is past.
  ghost predicate TooLate(steps: seq<Step>, trace: seq<Tables>, n: nat, run: RunId, row: Row, now: Time) {
    exists i :: i < n && Enqueues(trace, steps, i, run, row) && steps[i].deadline < now
  }

  /** When a row is given up: a claim gives it up exactly if it was claimed more than 125 seconds before and
      has not been finished, or still waits past the deadline it was queued with. */
  lemma GivenUpExactly(steps: seq<Step>, trace: seq<Tables>, n: nat, run: RunId)
    requires IsRun(steps, trace) && n < |steps| && steps[n].Claim? && run in trace[n].queue
    ensures
      var was, became := trace[n].queue[run].state, trace[n + 1].queue[run].state;
      was != Abandoned ==> (became == Abandoned <==>
        || (was == Claimed && Overdue(steps, n, run, steps[n].at))
        || (was == Waiting && TooLate(steps, trace, n, run, trace[n].queue[run], steps[n].at)))
  {
    hide IsRun, Registration;
    RunStep(steps, trace, n);
    ClaimExactly(steps, trace, n);
    RowsOriginate(steps, trace, n, run);
    var row := trace[n].queue[run];
    if row.state == Claimed {
      var j, taken :| j < n && ClaimsAt(steps, j, run, taken) && row.lease == Some(taken + 125);
      forall i, at | i < n && ClaimsAt(steps, i, run, at)
        ensures at == taken
      {
        ClaimedAtMostOnce(steps, trace, i, j, run);
      }
    }
  }

  // ----- how a request moves on -----

  const MOVES := [(Queued, Running), (Queued, Cancelled), (Running, Succeeded), (Running, RequestState.Failed),
                  (Running, Cancelled), (Running, Uncertain), (Running, AwaitingApproval)]

  /** A request moves on exactly along these transitions, and from the state that the caller expects. */
  lemma AdvanceExactly(steps: seq<Step>, trace: seq<Tables>, n: nat, k: RequestKey)
    requires IsRun(steps, trace) && n < |steps| && steps[n].Advance? && k in trace[n].requests
    ensures k in trace[n + 1].requests
    ensures
      var was, became, step := trace[n].requests[k], trace[n + 1].requests[k], steps[n];
      became == if RunId(k.owner, was.id) == step.run && was.state == step.from && (step.from, step.to) in MOVES
                then was.(state := step.to) else was
    ensures trace[n + 1].queue == trace[n].queue && trace[n + 1].inputs == trace[n].inputs
  {
    RunStep(steps, trace, n);
    MovesAreAllowed(steps[n].from, steps[n].to);
    hide Allowed;
  }

  lemma MovesAreAllowed(from: RequestState, to: RequestState)
    ensures Allowed(from, to) <==> (from, to) in MOVES
  {
    if Allowed(from, to) {
      var k := match (from, to)
        case (Queued, Running) => 0
        case (Queued, Cancelled) => 1
        case (Running, Succeeded) => 2
        case (Running, Failed) => 3
        case (Running, Cancelled) => 4
        case (Running, Uncertain) => 5
        case _ => 6;
      assert MOVES[k] == (from, to);
    }
  }

  /** A worker that finishes closes its row if it is still claimed; if it cannot tell how the request ended,
      the row is given up and the request uncertain, unless it had ended before. */
  lemma FinishExactly(steps: seq<Step>, trace: seq<Tables>, n: nat, k: RequestKey)
    requires IsRun(steps, trace) && n < |steps| && steps[n].Finish? && k in trace[n].requests
    requires RunId(k.owner, trace[n].requests[k].id) in trace[n].queue
    ensures k in trace[n + 1].requests && RunId(k.owner, trace[n].requests[k].id) in trace[n + 1].queue
    ensures
      var t, u, step, run := trace[n], trace[n + 1], steps[n], RunId(k.owner, trace[n].requests[k].id);
      && (run != step.run ==> u.requests[k] == t.requests[k] && u.queue[run] == t.queue[run])
      && (run == step.run ==>
            && run !in u.inputs
            && u.queue[run].state == (if t.queue[run].state != Claimed then t.queue[run].state
                                      else if step.uncertain then Abandoned else Done)
            && u.requests[k].state == (if step.uncertain && Live(t.requests[k].state) then Uncertain
                                       else t.requests[k].state))
  {
    RunStep(steps, trace, n);
  }
  // ----- what is queued -----

  // The key is new, and so is the identifier among the requests of its owner.
  ghost predicate IsNew(t: Tables, key: RequestKey, id: nat) {
    key !in t.requests && forall k | k in t.requests && k.owner == key.owner :: t.requests[k].id != id
  }

  /** A request is queued exactly if its key and its identifier are new: it waits until its deadline, and its
      input is kept for 120 seconds. Otherwise nothing changes. */
  lemma EnqueueExactly(steps: seq<Step>, trace: seq<Tables>, n: nat)
    requires IsRun(steps, trace) && n < |steps| && steps[n].Enqueue?
    ensures
      var t, u, step := trace[n], trace[n + 1], steps[n];
      var run := RunId(step.key.owner, step.id);
      if IsNew(t, step.key, step.id) then
        && u.requests == t.requests[step.key := Request(step.id, step.hash, Queued)]
        && u.queue == t.queue[run := Row(step.key, step.deadline, Waiting, None)]
        && u.inputs == t.inputs[run := step.at + 120]
      else u == t
  {
    RunStep(steps, trace, n);
    var t, step := trace[n], steps[n];
    assert IdTaken(t, step.key.owner, step.id) <==>
           exists k :: k in t.requests && k.owner == step.key.owner && t.requests[k].id == step.id;
  }
}

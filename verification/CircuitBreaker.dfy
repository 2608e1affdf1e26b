/**
 Deployment health: one row of counters and deadlines per tenant, configuration and catalog.

 Every call is one transaction. The reference description of the breaker below knows nothing of
 the stored deadlines: it looks only at the calls made so far on a row. Times are natural numbers
 of seconds, and zero in a deadline column means "not set", as in the table's defaults.
 */
module CircuitBreaker {
  import opened Basics
  import opened Failures

  type Time = nat
  const PROBE: nat := 120

  datatype Key = Key(owner: nat, configuration: nat, catalog: nat)

  // The contract of a circuit policy.
  datatype CircuitPolicy = CircuitPolicy(failures: nat, cooldown: nat) {
    predicate Valid() { 1 <= failures <= 20 && 1 <= cooldown <= 3600 }
  }

  datatype Row = Row(failures: nat, successes: nat, total: nat, timeouts: nat, latency: nat,
                     openUntil: Time, probeUntil: Time, updatedAt: Time)

  function NewRow(now: Time): Row { Row(0, 0, 0, 0, 0, 0, 0, now) }

  predicate Unhealthy(failure: Option<FailureKind>) {
    failure == Some(ProviderFailure) || failure == Some(RateLimit) || failure == Some(Timeout)
  }

  predicate Admits(row: Row, now: Time) { row.openUntil <= now && row.probeUntil <= now }

  function Acquired(row: Row, now: Time): Row {
    if Admits(row, now) && row.openUntil > 0 then row.(probeUntil := now + PROBE) else row
  }

  function Observed(row: Row, policy: CircuitPolicy, failure: Option<FailureKind>, latency: nat, now: Time): Row {
    var bad := Unhealthy(failure);
    Row(if bad then row.failures + 1 else 0,
        row.successes + (if failure.None? then 1 else 0),
        row.total + 1,
        row.timeouts + (if failure == Some(Timeout) then 1 else 0),
        row.latency + latency,
        if bad && row.failures + 1 >= policy.failures then now + policy.cooldown else 0,
        0,
        now)
  }

  class DeploymentHealth {
    var rows: map<Key, Row>

    constructor ()
      ensures rows == map[]
    {
      rows := map[];
    }

    // The configurations whose acquire would be refused now.
    method Unavailable(owner: nat, catalog: nat, now: Time) returns (configurations: set<nat>)
      ensures Reports(rows, owner, catalog, now, configurations)
    {
      configurations := {};
      var left := rows.Keys;
      while left != {}
        invariant left <= rows.Keys
        invariant forall c :: c in configurations <==>
          var key := Key(owner, c, catalog); key !in left && Refuses(rows, key, now)
        decreases left
      {
        var k :| k in left;
        if k.owner == owner && k.catalog == catalog && (rows[k].openUntil > now || rows[k].probeUntil > now) {
          configurations := configurations + {k.configuration};
        }
        left := left - {k};
      }
    }

    method Acquire(key: Key, policy: CircuitPolicy, now: Time) returns (granted: bool)
      modifies this
      ensures rows == After(old(rows), policy, Call.Acquire(key, now))
      ensures granted <==> !Refuses(old(rows), key, now)
    {
      if key !in rows {
        rows := rows[key := NewRow(now)];
      }
      var row := rows[key];
      granted := row.openUntil <= now && row.probeUntil <= now;
      if granted {
        rows := rows[key := row.(probeUntil := if row.openUntil > 0 then now + PROBE else row.probeUntil)];
      }
    }

    method Observe(key: Key, policy: CircuitPolicy, failure: Option<FailureKind>, latency: nat, now: Time)
      modifies this
      ensures rows == After(old(rows), policy, Call.Observe(key, failure, latency, now))
    {
      if key in rows {
        var row := rows[key];
        var bad, ok, timeout := Unhealthy(failure), failure.None?, failure == Some(Timeout);
        rows := rows[key := row.(
          total := row.total + 1,
          successes := row.successes + (if ok then 1 else 0),
          timeouts := row.timeouts + (if timeout then 1 else 0),
          latency := row.latency + latency,
          openUntil := if bad && row.failures + 1 >= policy.failures then now + policy.cooldown else 0,
          failures := if bad then row.failures + 1 else 0,
          probeUntil := 0,
          updatedAt := now)];
      }
    }
  }

  // ----- calls on the table -----

  datatype Call =
    | Acquire(key: Key, at: Time)
    | Observe(key: Key, failure: Option<FailureKind>, latency: nat, at: Time)

  function After(rows: map<Key, Row>, policy: CircuitPolicy, call: Call): map<Key, Row> {
    match call
    case Acquire(key, at) =>
      rows[key := Acquired(if key in rows then rows[key] else NewRow(at), at)]
    case Observe(key, failure, latency, at) =>
      if key in rows then rows[key := Observed(rows[key], policy, failure, latency, at)] else rows
  }

  function AfterAll(policy: CircuitPolicy, calls: seq<Call>): map<Key, Row>
    decreases |calls|
  {
    if calls == [] then map[]
    else After(AfterAll(policy, calls[..|calls| - 1]), policy, calls[|calls| - 1])
  }

  // An acquire on the key would be refused now.
  predicate Refuses(rows: map<Key, Row>, key: Key, now: Time) {
    key in rows && !Admits(rows[key], now)
  }

  // The refused configurations of one tenant and catalog, none left out and none added.
  ghost predicate Reports(rows: map<Key, Row>, owner: nat, catalog: nat, now: Time, configurations: set<nat>) {
    forall c :: c in configurations <==> Refuses(rows, Key(owner, c, catalog), now)
  }

  // ----- the reference breaker, a function of the calls on one key -----

  // The calls on one key from its first acquire on; observing an unknown row does nothing.
  function Of(calls: seq<Call>, key: Key): seq<Call>
    decreases |calls|
  {
    if calls == [] then []
    else
      var before, last := Of(calls[..|calls| - 1], key), calls[|calls| - 1];
      if last.key == key && (last.Acquire? || before != []) then before + [last] else before
  }

  // The number of unhealthy observations since the last other observation.
  function Run(calls: seq<Call>): nat
    decreases |calls|
  {
    if calls == [] then 0
    else
      var before, last := calls[..|calls| - 1], calls[|calls| - 1];
      if last.Acquire? then Run(before)
      else if Unhealthy(last.failure) then Run(before) + 1
      else 0
  }

  function LastObservation(calls: seq<Call>): Option<Time>
    decreases |calls|
  {
    if calls == [] then None
    else
      var before, last := calls[..|calls| - 1], calls[|calls| - 1];
      if last.Observe? then Some(last.at) else LastObservation(before)
  }

  // The last probe granted since the last observation.
  function LastProbe(policy: CircuitPolicy, calls: seq<Call>): Option<Time>
    decreases |calls|, 0
  {
    if calls == [] then None
    else
      var before, last := calls[..|calls| - 1], calls[|calls| - 1];
      if last.Observe? then None
      else if Open(policy, before) && Grants(policy, before, last.at) then Some(last.at)
      else LastProbe(policy, before)
  }

  predicate Open(policy: CircuitPolicy, calls: seq<Call>) {
    Run(calls) >= policy.failures
  }

  // A closed circuit admits everybody; an open one, after the cooldown, one probe at a time.
  predicate Grants(policy: CircuitPolicy, calls: seq<Call>, now: Time)
    decreases |calls|, 1
  {
    Open(policy, calls) ==>
      && (LastObservation(calls).Some? ==> LastObservation(calls).value + policy.cooldown <= now)
      && (LastProbe(policy, calls).Some? ==> LastProbe(policy, calls).value + PROBE <= now)
  }

  function Count(calls: seq<Call>, p: Call -> bool): nat
    decreases |calls|
  {
    if calls == [] then 0
    else Count(calls[..|calls| - 1], p) + (if p(calls[|calls| - 1]) then 1 else 0)
  }

  function TotalLatency(calls: seq<Call>): nat
    decreases |calls|
  {
    if calls == [] then 0
    else
      var last := calls[|calls| - 1];
      TotalLatency(calls[..|calls| - 1]) + (if last.Observe? then last.latency else 0)
  }

  // ----- refinement -----

  // The stored row says what the calls say.
  ghost predicate Refines(policy: CircuitPolicy, calls: seq<Call>, row: Row) {
    CountersRefine(calls, row) && GatesRefine(policy, calls, row)
  }

  ghost predicate CountersRefine(calls: seq<Call>, row: Row) {
    && row.total == Count(calls, (c: Call) => c.Observe?)
    && row.successes == Count(calls, (c: Call) => c.Observe? && c.failure.None?)
    && row.timeouts == Count(calls, (c: Call) => c.Observe? && c.failure == Some(Timeout))
    && row.latency == TotalLatency(calls)
  }

  ghost predicate GatesRefine(policy: CircuitPolicy, calls: seq<Call>, row: Row) {
    && row.failures == Run(calls)
    && (row.openUntil > 0 <==> Open(policy, calls))
    && (Open(policy, calls) ==>
      LastObservation(calls).Some? && row.openUntil == LastObservation(calls).value + policy.cooldown)
    && row.probeUntil == (if LastProbe(policy, calls).Some? then LastProbe(policy, calls).value + PROBE else 0)
    && (LastProbe(policy, calls).Some? ==> Open(policy, calls))
  }

  lemma RefinesAdmits(policy: CircuitPolicy, calls: seq<Call>, row: Row, now: Time)
    requires policy.Valid() && GatesRefine(policy, calls, row)
    ensures Admits(row, now) <==> Grants(policy, calls, now)
  {
  }

  lemma RefinesStep(policy: CircuitPolicy, calls: seq<Call>, call: Call, row: Row)
    requires policy.Valid() && Refines(policy, calls, row)
    ensures
      var row' := if call.Acquire? then Acquired(row, call.at)
                  else Observed(row, policy, call.failure, call.latency, call.at);
      Refines(policy, calls + [call], row')
  {
    hide CountersRefine, GatesRefine, Acquired, Observed, Open;
    CountersStep(policy, calls, call, row);
    GatesStep(policy, calls, call, row);
  }

  lemma CountSnoc(calls: seq<Call>, call: Call, p: Call -> bool)
    ensures Count(calls + [call], p) == Count(calls, p) + (if p(call) then 1 else 0)
  {
    var all := calls + [call];
    assert all[..|all| - 1] == calls && all[|all| - 1] == call;
  }

  lemma LatencySnoc(calls: seq<Call>, call: Call)
    ensures TotalLatency(calls + [call]) == TotalLatency(calls) + (if call.Observe? then call.latency else 0)
  {
    var all := calls + [call];
    assert all[..|all| - 1] == calls && all[|all| - 1] == call;
  }

  lemma GatesSnoc(policy: CircuitPolicy, calls: seq<Call>, call: Call)
    ensures
      var all := calls + [call];
      && Run(all) == (if call.Acquire? then Run(calls) else if Unhealthy(call.failure) then Run(calls) + 1 else 0)
      && LastObservation(all) == (if call.Observe? then Some(call.at) else LastObservation(calls))
      && LastProbe(policy, all) == (if call.Observe? then None
                                    else if Open(policy, calls) && Grants(policy, calls, call.at) then Some(call.at)
                                    else LastProbe(policy, calls))
  {
    hide Open, Grants, Unhealthy;
    var all := calls + [call];
    assert all[..|all| - 1] == calls && all[|all| - 1] == call;
  }

  lemma CountersStep(policy: CircuitPolicy, calls: seq<Call>, call: Call, row: Row)
    requires CountersRefine(calls, row)
    ensures
      var row' := if call.Acquire? then Acquired(row, call.at)
                  else Observed(row, policy, call.failure, call.latency, call.at);
      CountersRefine(calls + [call], row')
  {
    hide Admits, Count, TotalLatency, Unhealthy;
    CountSnoc(calls, call, (c: Call) => c.Observe?);
    CountSnoc(calls, call, (c: Call) => c.Observe? && c.failure.None?);
    CountSnoc(calls, call, (c: Call) => c.Observe? && c.failure == Some(Timeout));
    LatencySnoc(calls, call);
  }

  lemma GatesStep(policy: CircuitPolicy, calls: seq<Call>, call: Call, row: Row)
    requires policy.Valid() && GatesRefine(policy, calls, row)
    ensures
      var row' := if call.Acquire? then Acquired(row, call.at)
                  else Observed(row, policy, call.failure, call.latency, call.at);
      GatesRefine(policy, calls + [call], row')
  {
    hide Run, LastObservation, LastProbe, Grants, Unhealthy;
    GatesSnoc(policy, calls, call);
    RefinesAdmits(policy, calls, row, call.at);
  }

  /** For a fixed policy, the table refines the reference breaker on every key at once: a key has a
      row when it was acquired before, and the row's counters and deadlines are those of its calls. */
  lemma {:induction false} TableRefines(policy: CircuitPolicy, calls: seq<Call>, key: Key)
    requires policy.Valid()
    ensures
      var rows := AfterAll(policy, calls);
      && (key in rows <==> Of(calls, key) != [])
      && (key in rows ==> Refines(policy, Of(calls, key), rows[key]))
    decreases |calls|
  {
    if calls != [] {
      var before, call := calls[..|calls| - 1], calls[|calls| - 1];
      TableRefines(policy, before, key);
      var rows, own := AfterAll(policy, before), Of(before, key);
      if call.key == key {
        if key in rows {
          RefinesStep(policy, own, call, rows[key]);
        } else if call.Acquire? {
          assert Refines(policy, [], NewRow(call.at));
          RefinesStep(policy, [], call, NewRow(call.at));
        }
      }
    }
  }

  /** So whether a call is admitted can be told from the history of its key alone. */
  lemma GrantIsHistory(policy: CircuitPolicy, calls: seq<Call>, key: Key, now: Time)
    requires policy.Valid()
    ensures !Refuses(AfterAll(policy, calls), key, now) <==> Grants(policy, Of(calls, key), now)
  {
    TableRefines(policy, calls, key);
    if key in AfterAll(policy, calls) {
      RefinesAdmits(policy, Of(calls, key), AfterAll(policy, calls)[key], now);
    }
  }

  /** What is reported as unavailable after a run of calls is what the reference breaker does not
      grant, each configuration judged by its own calls. */
  lemma UnavailableIsHistory(policy: CircuitPolicy, calls: seq<Call>, owner: nat, catalog: nat, now: Time,
      configurations: set<nat>)
    requires policy.Valid() && Reports(AfterAll(policy, calls), owner, catalog, now, configurations)
    ensures forall c :: c in configurations <==> !Grants(policy, Of(calls, Key(owner, c, catalog)), now)
  {
    hide AfterAll, Grants, Of, Refuses;
    forall c
      ensures c in configurations <==> !Grants(policy, Of(calls, Key(owner, c, catalog)), now)
    {
      GrantIsHistory(policy, calls, Key(owner, c, catalog), now);
    }
  }

  /** While a circuit is open, two grants without an observation between them are at least 120
      seconds apart, and none comes before the cooldown after the last observation is over. */
  lemma {:induction false} ProbesAreApart(policy: CircuitPolicy, calls: seq<Call>, first: nat, now: Time)
    requires policy.Valid() && first < |calls|
    requires calls[first].Acquire? && Open(policy, calls[..first]) && Grants(policy, calls[..first], calls[first].at)
    requires forall i | first < i < |calls| :: calls[i].Acquire?
    requires Grants(policy, calls, now)
    requires forall i, j | 0 <= i <= j < |calls| :: calls[i].at <= calls[j].at
    ensures calls[first].at + PROBE <= now
    ensures LastObservation(calls).Some? ==> LastObservation(calls).value + policy.cooldown <= now
  {
    StaysOpen(policy, calls, first);
    ProbeRecorded(policy, calls, first);
  }

  lemma {:induction false} StaysOpen(policy: CircuitPolicy, calls: seq<Call>, first: nat)
    requires first <= |calls| && forall i | first <= i < |calls| :: calls[i].Acquire?
    ensures Run(calls) == Run(calls[..first]) && LastObservation(calls) == LastObservation(calls[..first])
    decreases |calls|
  {
    if first < |calls| {
      StaysOpen(policy, calls[..|calls| - 1], first);
      assert calls[..|calls| - 1][..first] == calls[..first];
    } else {
      assert calls[..first] == calls;
    }
  }

  lemma {:induction false} ProbeRecorded(policy: CircuitPolicy, calls: seq<Call>, first: nat)
    requires first < |calls| && (forall i | first <= i < |calls| :: calls[i].Acquire?)
    requires forall i, j | 0 <= i <= j < |calls| :: calls[i].at <= calls[j].at
    requires Open(policy, calls[..first]) && Grants(policy, calls[..first], calls[first].at)
    ensures LastProbe(policy, calls).Some? && LastProbe(policy, calls).value >= calls[first].at
    decreases |calls|
  {
    var before := calls[..|calls| - 1];
    if first == |calls| - 1 {
      assert calls[..first] == before;
    } else {
      assert before[..first] == calls[..first];
      ProbeRecorded(policy, before, first);
    }
  }

  // ----- probes on the stored rows -----

  ghost predicate Ordered(calls: seq<Call>) {
    forall i, j | 0 <= i <= j < |calls| :: calls[i].at <= calls[j].at
  }

  // The i-th call of a run is an acquire on the key that is granted.
  ghost predicate Granted(policy: CircuitPolicy, calls: seq<Call>, key: Key, i: nat) {
    i < |calls| && calls[i].Acquire? && calls[i].key == key
    && !Refuses(AfterAll(policy, calls[..i]), key, calls[i].at)
  }

  // The row says that the circuit is open.
  ghost predicate OpenBefore(policy: CircuitPolicy, calls: seq<Call>, key: Key, i: nat) {
    i <= |calls| && key in AfterAll(policy, calls[..i]) && AfterAll(policy, calls[..i])[key].openUntil > 0
  }

  lemma {:induction false} OfIsOrdered(calls: seq<Call>, key: Key)
    requires Ordered(calls)
    ensures Ordered(Of(calls, key)) && forall c | c in Of(calls, key) :: c in calls
    decreases |calls|
  {
    if calls != [] {
      var before, last := calls[..|calls| - 1], calls[|calls| - 1];
      OfIsOrdered(before, key);
      var own := Of(before, key);
      forall i | 0 <= i < |own|
        ensures own[i].at <= last.at
      {
        assert own[i] in before;
        var j :| 0 <= j < |before| && before[j] == own[i];
        assert calls[j] == own[i];
      }
    }
  }

  // After its i-th call, an acquire on the key, a run adds only acquires to the key's calls.
  lemma {:induction false} OfFrom(calls: seq<Call>, key: Key, i: nat)
    requires i < |calls| && calls[i].Acquire? && calls[i].key == key
    requires forall j | i < j < |calls| && calls[j].key == key :: calls[j].Acquire?
    ensures
      var own, first := Of(calls, key), |Of(calls[..i], key)|;
      && first < |own| && own[..first] == Of(calls[..i], key) && own[first] == calls[i]
      && forall j | first < j < |own| :: own[j].Acquire?
    decreases |calls|
  {
    var before := calls[..|calls| - 1];
    if i == |calls| - 1 {
      assert before == calls[..i];
    } else {
      assert before[..i] == calls[..i];
      OfFrom(before, key, i);
    }
  }

  lemma OpenIsHistory(policy: CircuitPolicy, calls: seq<Call>, key: Key)
    requires policy.Valid() && OpenBefore(policy, calls, key, |calls|)
    ensures Open(policy, Of(calls, key))
  {
    assert calls[..|calls|] == calls;
    TableRefines(policy, calls, key);
  }

  /** In any run on the whole table, two acquires on a key that are both granted, the circuit being
      open and no observation of the key between them, are at least 120 seconds apart. */
  lemma GrantedProbesAreApart(policy: CircuitPolicy, calls: seq<Call>, key: Key, i: nat, k: nat)
    requires policy.Valid() && Ordered(calls) && i < k
    requires Granted(policy, calls, key, i) && OpenBefore(policy, calls, key, i) && Granted(policy, calls, key, k)
    requires forall j | i < j < k && calls[j].key == key :: calls[j].Acquire?
    ensures calls[i].at + PROBE <= calls[k].at
  {
    hide AfterAll, Grants, Of, Refuses, Open;
    var run := calls[..k];
    assert run[..i] == calls[..i] && (calls[..i])[..i] == calls[..i];
    OpenIsHistory(policy, calls[..i], key);
    GrantIsHistory(policy, calls[..i], key, calls[i].at);
    GrantIsHistory(policy, run, key, calls[k].at);
    OfFrom(run, key, i);
    OfIsOrdered(run, key);
    ProbesAreApart(policy, Of(run, key), |Of(calls[..i], key)|, calls[k].at);
  }

  // ----- refusals, read off the calls -----

  // The failures that were observed, in order.
  function Seen(calls: seq<Call>): seq<Option<FailureKind>>
    decreases |calls|
  {
    if calls == [] then []
    else
      var last := calls[|calls| - 1];
      Seen(calls[..|calls| - 1]) + if last.Observe? then [last.failure] else []
  }

  // The last observations, so many as the policy says, are all failures of the provider, of its rate or
  // of its time.
  ghost predicate KeepsFailing(policy: CircuitPolicy, calls: seq<Call>) {
    var seen := Seen(calls);
    && policy.failures <= |seen|
    && forall i | |seen| - policy.failures <= i < |seen| ::
         seen[i] in [Some(ProviderFailure), Some(RateLimit), Some(Timeout)]
  }

  ghost predicate SinceLast(calls: seq<Call>, i: int) {
    0 <= i < |calls| && forall j | i <= j < |calls| :: calls[j].Acquire?
  }

  // An acquire since the last observation that was granted.
  ghost predicate IsProbe(policy: CircuitPolicy, calls: seq<Call>, i: int) {
    SinceLast(calls, i) && Grants(policy, calls[..i], calls[i].at)
  }

  lemma {:induction false} RunCounts(calls: seq<Call>)
    ensures
      var seen, n := Seen(calls), Run(calls);
      && n <= |seen| && (forall i | |seen| - n <= i < |seen| :: Unhealthy(seen[i]))
      && (n < |seen| ==> !Unhealthy(seen[|seen| - n - 1]))
    decreases |calls|
  {
    hide Unhealthy;
    if calls != [] {
      RunCounts(calls[..|calls| - 1]);
    }
  }

  lemma OpenKeepsFailing(policy: CircuitPolicy, calls: seq<Call>)
    requires policy.Valid()
    ensures Open(policy, calls) <==> KeepsFailing(policy, calls)
  {
    hide Run, Seen;
    RunCounts(calls);
    var seen, n := Seen(calls), Run(calls);
    if n < policy.failures <= |seen| {
      assert seen[|seen| - n - 1] !in [Some(ProviderFailure), Some(RateLimit), Some(Timeout)];
    }
  }

  lemma {:induction false} LastProbeIsLatest(policy: CircuitPolicy, calls: seq<Call>)
    requires policy.Valid() && Open(policy, calls)
    ensures LastProbe(policy, calls).Some? ==>
              exists i :: IsProbe(policy, calls, i) && calls[i].at == LastProbe(policy, calls).value
    ensures forall i | IsProbe(policy, calls, i) ::
              LastProbe(policy, calls).Some? && calls[i].at <= LastProbe(policy, calls).value
    decreases |calls|
  {
    var last := |calls| - 1;
    var before := calls[..last];
    if calls[last].Acquire? {
      AcquireKeepsOpen(policy, calls);
      LastProbeIsLatest(policy, before);
      assert before + [calls[last]] == calls;
      GatesSnoc(policy, before, calls[last]);
      if Grants(policy, before, calls[last].at) && LastProbe(policy, before).Some? {
        GrantedLater(policy, before, calls[last].at);
      }
      hide Run, LastProbe, Grants, Open;
      forall i | 0 <= i < last
        ensures IsProbe(policy, calls, i) <==> IsProbe(policy, before, i)
      {
        assert before[..i] == calls[..i];
        assert SinceLast(calls, i) <==> SinceLast(before, i);
      }
      assert SinceLast(calls, last);
      assert IsProbe(policy, calls, last) <==> Grants(policy, before, calls[last].at);
      if LastProbe(policy, before).Some? {
        var i :| IsProbe(policy, before, i) && before[i].at == LastProbe(policy, before).value;
        assert IsProbe(policy, calls, i);
      }
    } else {
      assert forall i :: !SinceLast(calls, i);
    }
  }

  lemma GrantedLater(policy: CircuitPolicy, calls: seq<Call>, now: Time)
    requires Open(policy, calls) && Grants(policy, calls, now) && LastProbe(policy, calls).Some?
    ensures LastProbe(policy, calls).value + PROBE <= now
  {
  }

  lemma AcquireKeepsOpen(policy: CircuitPolicy, calls: seq<Call>)
    requires calls != [] && calls[|calls| - 1].Acquire?
    ensures Open(policy, calls) <==> Open(policy, calls[..|calls| - 1])
    ensures LastObservation(calls) == LastObservation(calls[..|calls| - 1])
  {
  }

  lemma {:induction false} LastSeen(calls: seq<Call>)
    ensures LastObservation(calls).Some? <==> Seen(calls) != []
    decreases |calls|
  {
    if calls != [] {
      LastSeen(calls[..|calls| - 1]);
    }
  }

  /** When the table refuses: exactly when the last observations of the key, as many as the policy says,
      are all failures that count, and the cooldown after the last of them is not over or a probe was
      granted since then less than 120 seconds ago. */
  lemma RefusedExactly(policy: CircuitPolicy, calls: seq<Call>, key: Key, now: Time)
    requires policy.Valid()
    ensures
      var own := Of(calls, key);
      Refuses(AfterAll(policy, calls), key, now) <==>
        && KeepsFailing(policy, own)
        && (|| (LastObservation(own).Some? && now < LastObservation(own).value + policy.cooldown)
            || (exists i :: IsProbe(policy, own, i) && now < own[i].at + 120))
  {
    hide AfterAll, Of, Refuses, Seen, LastProbe, IsProbe;
    var own := Of(calls, key);
    GrantIsHistory(policy, calls, key, now);
    OpenKeepsFailing(policy, own);
    LastSeen(own);
    if Open(policy, own) {
      LastProbeIsLatest(policy, own);
    }
  }

  /** A row was last updated by the last observation of its key, or else by the acquire that made it. */
  lemma {:induction false} UpdatedExactly(policy: CircuitPolicy, calls: seq<Call>, key: Key)
    ensures
      var rows, own := AfterAll(policy, calls), Of(calls, key);
      && (key in rows <==> own != [])
      && (key in rows ==>
            rows[key].updatedAt == if LastObservation(own).Some? then LastObservation(own).value else own[0].at)
    decreases |calls|
  {
    if calls != [] {
      UpdatedExactly(policy, calls[..|calls| - 1], key);
      var before, call := Of(calls[..|calls| - 1], key), calls[|calls| - 1];
      if call.key == key {
        assert (before + [call])[..|before|] == before;
      }
    }
  }
}

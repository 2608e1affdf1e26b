/**
 The cache in front of the hard eligibility filter: at most 128 results, least recently used first
 out, each kept for five seconds and never past the expiry of a record it may rest on.

 A request reads the clock once for itself and then enters the cache twice, to look and to store,
 under a lock each time; the filter runs in between, outside the lock, and reads the clock again
 for each candidate. Runs below interleave the two critical sections of any number of requests. A
 request may have waited for the lock, so its reading may be older than what it finds.

 Times are microseconds. Hashing the serialized workflow and catalog is injective, so that pair is
 the key. What the filter decides about one candidate, apart from the clock, is a parameter.
 */
module SelectionCache {
  import opened Basics

  type Time = int
  const KEEP: Time := 5_000_000
  const CAPACITY: nat := 128

  // None stands for a timestamp that does not parse or has no time zone.
  datatype Record = Record(configuration: nat, observed: Option<Time>, expires: Option<Time>)

  datatype Workflow = Workflow(id: nat)

  // Candidates in the order of their identifiers.
  datatype Catalog = Catalog(id: nat, candidates: seq<nat>, records: seq<Record>)

  datatype Key = Key(workflow: Workflow, catalog: Catalog)

  type Decision = (Workflow, Catalog, nat, bool) -> bool

  // ----- the filter -----

  function RecordOf(records: seq<Record>, candidate: nat): Option<Record> {
    if records == [] then None
    else if records[0].configuration == candidate then Some(records[0])
    else RecordOf(records[1..], candidate)
  }

  predicate Current(r: Record, now: Time) {
    r.observed.Some? && r.expires.Some? && r.observed.value <= now < r.expires.value
  }

  predicate CurrentFor(c: Catalog, candidate: nat, now: Time) {
    var r := RecordOf(c.records, candidate);
    r.Some? && Current(r.value, now)
  }

  // The eligible candidates, the i-th being judged at the i-th reading of the clock.
  function FilterAlong(decide: Decision, key: Key, candidates: seq<nat>, clock: seq<Time>): seq<nat>
    requires |clock| == |candidates|
  {
    if candidates == [] then []
    else
      var c := candidates[0];
      (if decide(key.workflow, key.catalog, c, CurrentFor(key.catalog, c, clock[0])) then [c] else [])
      + FilterAlong(decide, key, candidates[1..], clock[1..])
  }

  // Judging all candidates at one moment.
  function Filter(decide: Decision, key: Key, now: Time): seq<nat> {
    FilterAlong(decide, key, key.catalog.candidates, seq(|key.catalog.candidates|, _ => now))
  }

  // ----- the cache -----

  datatype Entry = Entry(deadline: Time, result: seq<nat>)

  datatype State = State(entries: map<Key, Entry>, order: seq<Key>)

  const EMPTY := State(map[], [])

  // Until when a result computed from `started` on may be kept; None when it may not be kept at all.
  function Deadline(records: seq<Record>, started: Time, limit: Time): Option<Time> {
    if records == [] then Some(limit)
    else
      var r := records[0];
      if r.observed.None? || r.expires.None? || r.observed.value > started then None
      else Deadline(records[1..], started, if r.expires.value < limit then r.expires.value else limit)
  }

  function Without(order: seq<Key>, key: Key): seq<Key> {
    if order == [] then []
    else if order[0] == key then Without(order[1..], key)
    else [order[0]] + Without(order[1..], key)
  }

  function Touch(order: seq<Key>, key: Key): seq<Key> { Without(order, key) + [key] }

  predicate Fresh(s: State, key: Key, now: Time) {
    key in s.entries && now < s.entries[key].deadline
  }

  function Look(s: State, key: Key, now: Time): (State, Option<seq<nat>>) {
    if Fresh(s, key, now) then (s.(order := Touch(s.order, key)), Some(s.entries[key].result))
    else (s, None)
  }

  // Drop the least recently used entries until the capacity is kept.
  function Trim(s: State): State
    decreases |s.order|
  {
    if |s.entries| > CAPACITY && s.order != [] then
      Trim(State(s.entries - {s.order[0]}, s.order[1..]))
    else s
  }

  function Store(s: State, key: Key, started: Time, result: seq<nat>): State {
    match Deadline(key.catalog.records, started, started + KEEP)
    case None => s
    case Some(deadline) => Trim(State(s.entries[key := Entry(deadline, result)], Touch(s.order, key)))
  }

  ghost predicate Matches(s: State) {
    Distinct(s.order) && forall k :: k in s.order <==> k in s.entries
  }

  ghost predicate Valid(s: State) {
    Matches(s) && |s.entries| <= CAPACITY
  }

  class EligibilityCache {
    const decide: Decision
    var entries: map<Key, Entry>
    var order: seq<Key>

    constructor (decide: Decision)
      ensures this.decide == decide && View() == EMPTY
    {
      this.decide := decide;
      entries, order := map[], [];
    }

    ghost function View(): State
      reads this
    {
      State(entries, order)
    }

    method Lookup(key: Key, now: Time) returns (hit: Option<seq<nat>>)
      modifies this
      ensures (View(), hit) == Look(old(View()), key, now)
    {
      hit := None;
      if key in entries && now < entries[key].deadline {
        order := Touch(order, key);
        hit := Some(entries[key].result);
      }
    }

    method Keep(key: Key, started: Time, result: seq<nat>)
      modifies this
      ensures View() == Store(old(View()), key, started, result)
    {
      var deadline := started + KEEP;
      var records := key.catalog.records;
      for i := 0 to |records|
        invariant Deadline(records, started, started + KEEP) == Deadline(records[i..], started, deadline)
      {
        var r := records[i];
        assert records[i..][1..] == records[i + 1..];
        if r.observed.None? || r.expires.None? || r.observed.value > started {
          return;
        }
        if r.expires.value < deadline {
          deadline := r.expires.value;
        }
      }
      entries := entries[key := Entry(deadline, result)];
      order := Touch(order, key);
      ghost var before := View();
      while |entries| > CAPACITY && order != []
        invariant Trim(before) == Trim(View())
        decreases |order|
      {
        entries := entries - {order[0]};
        order := order[1..];
      }
    }

    // One request, when nobody else comes between: `now` is its own reading of the clock, and
    // `clock` holds the filter's readings.
    method Eligible(key: Key, now: Time, clock: seq<Time>) returns (result: seq<nat>)
      requires |clock| == |key.catalog.candidates|
      modifies this
      ensures
        var (looked, hit) := Look(old(View()), key, now);
        if hit.Some? then result == hit.value && View() == looked
        else
          && result == FilterAlong(decide, key, key.catalog.candidates, clock)
          && View() == Store(looked, key, now, result)
    {
      var hit := Lookup(key, now);
      if hit.Some? {
        return hit.value;
      }
      result := FilterAlong(decide, key, key.catalog.candidates, clock);
      Keep(key, now, result);
    }
  }

  // ----- the shape of the cache -----

  lemma {:induction false} WithoutMeans(order: seq<Key>, key: Key)
    requires Distinct(order)
    ensures Distinct(Without(order, key))
    ensures forall k :: k in Without(order, key) <==> k in order && k != key
    decreases |order|
  {
    if order != [] {
      assert order == [order[0]] + order[1..];
      DistinctCons(order[0], order[1..]);
      WithoutMeans(order[1..], key);
      DistinctCons(order[0], Without(order[1..], key));
    }
  }

  lemma TouchMeans(order: seq<Key>, key: Key)
    requires Distinct(order)
    ensures Distinct(Touch(order, key)) && Touch(order, key)[|Touch(order, key)| - 1] == key
    ensures forall k :: k in Touch(order, key) <==> k in order || k == key
  {
    WithoutMeans(order, key);
    DistinctSnoc(Without(order, key), key);
  }

  lemma DropFirst(s: State)
    requires Matches(s) && s.order != []
    ensures
      var dropped := State(s.entries - {s.order[0]}, s.order[1..]);
      Matches(dropped) && |dropped.entries| == |s.entries| - 1
  {
    var head, rest := s.order[0], s.order[1..];
    assert s.order == [head] + rest;
    DistinctCons(head, rest);
    assert (s.entries - {head}).Keys == s.entries.Keys - {head};
    assert |s.entries| == |s.entries.Keys| && |s.entries - {head}| == |(s.entries - {head}).Keys|;
  }

  lemma MatchingSizes(s: State)
    requires Matches(s)
    ensures |s.order| == |s.entries|
  {
    DistinctSize(s.order, s.entries.Keys);
    assert |s.entries| == |s.entries.Keys|;
  }

  function Last(order: seq<Key>, n: nat): seq<Key> {
    if n < |order| then order[|order| - n..] else order
  }

  lemma LastOfTail(order: seq<Key>, n: nat)
    requires n < |order|
    ensures Last(order[1..], n) == Last(order, n)
  {
  }

  lemma {:induction false} TrimOrder(s: State)
    requires Matches(s)
    ensures Matches(Trim(s)) && Trim(s).order == Last(s.order, CAPACITY)
    decreases |s.order|
  {
    MatchingSizes(s);
    if |s.entries| > CAPACITY {
      hide Matches, Last;
      DropFirst(s);
      TrimOrder(State(s.entries - {s.order[0]}, s.order[1..]));
      LastOfTail(s.order, CAPACITY);
    }
  }

  lemma {:induction false} TrimEntries(s: State)
    ensures forall k | k in Trim(s).entries :: k in s.entries && Trim(s).entries[k] == s.entries[k]
    decreases |s.order|
  {
    if |s.entries| > CAPACITY && s.order != [] {
      TrimEntries(State(s.entries - {s.order[0]}, s.order[1..]));
    }
  }

  // Trimming keeps the most recently used keys, with their entries, and no more than fit.
  lemma TrimMeans(s: State)
    requires Matches(s)
    ensures
      var t := Trim(s);
      && Valid(t)
      && |t.order| == (if |s.order| < CAPACITY then |s.order| else CAPACITY)
      && t.order == s.order[|s.order| - |t.order|..]
      && (forall k | k in t.entries :: k in s.entries && t.entries[k] == s.entries[k])
  {
    TrimOrder(s);
    TrimEntries(s);
    MatchingSizes(Trim(s));
  }

  lemma LookKeepsValid(s: State, key: Key, now: Time)
    requires Valid(s)
    ensures Valid(Look(s, key, now).0) && Look(s, key, now).0.entries == s.entries
  {
    TouchMeans(s.order, key);
  }

  /** Storing keeps the cache within its capacity. The key just stored is the last to leave, and
      those who leave are the ones used longest ago. */
  lemma StoreKeepsValid(s: State, key: Key, started: Time, result: seq<nat>)
    requires Valid(s)
    ensures
      var t, kept := Store(s, key, started, result), Deadline(key.catalog.records, started, started + KEEP);
      && Valid(t)
      && (kept.None? ==> t == s)
      && (kept.Some? ==>
        var used := Touch(s.order, key);
        && |t.order| == (if |used| < CAPACITY then |used| else CAPACITY)
        && t.order == used[|used| - |t.order|..]
        && key in t.entries && t.entries[key] == Entry(kept.value, result))
      && (forall k | k in t.entries && k != key :: k in s.entries && t.entries[k] == s.entries[k])
  {
    hide Matches, Trim, Touch, Deadline;
    match Deadline(key.catalog.records, started, started + KEEP)
    case None =>
    case Some(deadline) =>
      var used := Touch(s.order, key);
      var full := State(s.entries[key := Entry(deadline, result)], used);
      FullMatches(s, key, Entry(deadline, result));
      TrimMeans(full);
      var t := Trim(full);
      assert t.order[|t.order| - 1] == used[|used| - 1] == key;
      InEntries(t, |t.order| - 1);
  }

  lemma FullMatches(s: State, key: Key, entry: Entry)
    requires Matches(s)
    ensures
      var used := Touch(s.order, key);
      Matches(State(s.entries[key := entry], used)) && used != [] && used[|used| - 1] == key
  {
    TouchMeans(s.order, key);
  }

  lemma InEntries(s: State, i: nat)
    requires Matches(s) && i < |s.order|
    ensures s.order[i] in s.entries
  {
    assert s.order[i] in s.order;
  }

  // ----- agreement with the filter -----

  lemma {:induction false} DeadlineMeans(records: seq<Record>, started: Time, limit: Time)
    ensures
      var d := Deadline(records, started, limit);
      d.Some? ==>
        && d.value <= limit
        && forall i | 0 <= i < |records| ::
             records[i].observed.Some? && records[i].expires.Some?
             && records[i].observed.value <= started && d.value <= records[i].expires.value
    decreases |records|
  {
    if records != [] && records[0].observed.Some? && records[0].expires.Some? {
      var expires := records[0].expires.value;
      DeadlineMeans(records[1..], started, if expires < limit then expires else limit);
      assert forall i | 0 < i < |records| :: records[i] == records[1..][i - 1];
    }
  }

  lemma {:induction false} RecordOfIsRecord(records: seq<Record>, candidate: nat)
    ensures RecordOf(records, candidate).Some? ==>
      exists i :: 0 <= i < |records| && records[i] == RecordOf(records, candidate).value
    decreases |records|
  {
    if records != [] {
      RecordOfIsRecord(records[1..], candidate);
      assert forall i | 0 < i < |records| :: records[i] == records[1..][i - 1];
    }
  }

  // ----- runs -----

  // One critical section, entered at `at` by a request that read the clock at `read`. A store also
  // carries the readings of the filter.
  datatype Step =
    | Looking(key: Key, read: Time, at: Time)
    | Storing(key: Key, read: Time, clock: seq<Time>, at: Time)

  // The clock does not run backwards, and a request that waits reads it before it enters.
  ghost predicate Timed(steps: seq<Step>) {
    && (forall i, j | 0 <= i < j < |steps| :: steps[i].at <= steps[j].at)
    && (forall i | 0 <= i < |steps| :: StepTimed(steps[i]))
  }

  ghost predicate StepTimed(step: Step) {
    && step.read <= step.at
    && (step.Storing? ==>
      && |step.clock| == |step.key.catalog.candidates|
      && forall j | 0 <= j < |step.clock| :: step.read <= step.clock[j] <= step.at)
  }

  function Take(decide: Decision, s: State, step: Step): State
    requires step.Storing? ==> |step.clock| == |step.key.catalog.candidates|
  {
    match step
    case Looking(key, read, _) => Look(s, key, read).0
    case Storing(key, read, clock, _) =>
      Store(s, key, read, FilterAlong(decide, key, key.catalog.candidates, clock))
  }

  ghost function Run(decide: Decision, steps: seq<Step>): State
    requires Timed(steps)
    decreases |steps|
  {
    if steps == [] then EMPTY
    else
      var n := |steps| - 1;
      assert Timed(steps[..n]);
      Take(decide, Run(decide, steps[..n]), steps[n])
  }

  function Kept(key: Key, read: Time): Option<Time> {
    Deadline(key.catalog.records, read, read + KEEP)
  }

  // The store that an entry for the key comes from: the last one that was allowed to keep its result.
  function Writer(steps: seq<Step>, key: Key): Option<Step>
    decreases |steps|
  {
    if steps == [] then None
    else
      var last := steps[|steps| - 1];
      if last.Storing? && last.key == key && Kept(key, last.read).Some? then Some(last)
      else Writer(steps[..|steps| - 1], key)
  }

  lemma {:induction false} WriterIsStep(steps: seq<Step>, key: Key)
    requires Timed(steps) && Writer(steps, key).Some?
    ensures
      var w := Writer(steps, key).value;
      w in steps && w.Storing? && w.key == key && Kept(key, w.read).Some? && StepTimed(w)
    decreases |steps|
  {
    var n := |steps| - 1;
    var last := steps[n];
    if !(last.Storing? && last.key == key && Kept(key, last.read).Some?) {
      assert Timed(steps[..n]);
      WriterIsStep(steps[..n], key);
    }
  }

  // An entry holds what its writer computed.
  ghost predicate Written(decide: Decision, key: Key, e: Entry, w: Step) {
    && w.Storing? && w.key == key && |w.clock| == |key.catalog.candidates|
    && Kept(key, w.read) == Some(e.deadline)
    && e.result == FilterAlong(decide, key, key.catalog.candidates, w.clock)
  }

  ghost predicate Traced(decide: Decision, steps: seq<Step>, s: State) {
    forall k | k in s.entries :: Writer(steps, k).Some? && Written(decide, k, s.entries[k], Writer(steps, k).value)
  }

  lemma WriterStep(before: seq<Step>, step: Step, k: Key)
    ensures Writer(before + [step], k)
         == if step.Storing? && step.key == k && Kept(k, step.read).Some? then Some(step) else Writer(before, k)
  {
    hide Deadline;
    assert (before + [step])[..|before|] == before;
  }

  // The entries after a store are those before it, but for its own key.
  lemma StoredEntry(s: State, key: Key, read: Time, result: seq<nat>, k: Key)
    requires Valid(s) && k in Store(s, key, read, result).entries
    ensures
      var e := Store(s, key, read, result).entries[k];
      if k == key && Kept(key, read).Some? then e == Entry(Kept(key, read).value, result)
      else k in s.entries && e == s.entries[k]
  {
    hide Store, Matches, Touch, Deadline;
    StoreKeepsValid(s, key, read, result);
  }

  lemma TakenEntry(decide: Decision, s: State, step: Step, k: Key)
    requires Valid(s) && StepTimed(step) && k in Take(decide, s, step).entries
    ensures
      var e := Take(decide, s, step).entries[k];
      if step.Storing? && k == step.key && Kept(k, step.read).Some? then
        e == Entry(Kept(k, step.read).value, FilterAlong(decide, k, k.catalog.candidates, step.clock))
      else k in s.entries && e == s.entries[k]
  {
    hide Store, Valid, Deadline, FilterAlong;
    match step {
      case Looking(key, read, _) => LookKeepsValid(s, key, read);
      case Storing(key, read, clock, _) =>
        StoredEntry(s, key, read, FilterAlong(decide, key, key.catalog.candidates, clock), k);
    }
  }

  lemma TakeKeepsValid(decide: Decision, s: State, step: Step)
    requires Valid(s) && StepTimed(step)
    ensures Valid(Take(decide, s, step))
  {
    hide Store, Valid, Deadline, FilterAlong, Touch;
    match step {
      case Looking(key, read, _) => LookKeepsValid(s, key, read);
      case Storing(key, read, clock, _) =>
        StoreKeepsValid(s, key, read, FilterAlong(decide, key, key.catalog.candidates, clock));
    }
  }

  lemma KeyStaysTraced(decide: Decision, before: seq<Step>, s: State, step: Step, k: Key)
    requires Valid(s) && Traced(decide, before, s) && StepTimed(step) && k in Take(decide, s, step).entries
    ensures Writer(before + [step], k).Some?
    ensures Written(decide, k, Take(decide, s, step).entries[k], Writer(before + [step], k).value)
  {
    hide Take, FilterAlong, Writer, Written, Valid, Deadline;
    TakenEntry(decide, s, step, k);
    WriterStep(before, step, k);
    if step.Storing? && step.key == k && Kept(k, step.read).Some? {
      StoreIsWritten(decide, step);
    }
  }

  lemma TakeKeepsTraced(decide: Decision, before: seq<Step>, s: State, step: Step)
    requires Valid(s) && Traced(decide, before, s) && StepTimed(step)
    ensures Valid(Take(decide, s, step)) && Traced(decide, before + [step], Take(decide, s, step))
  {
    hide Take, FilterAlong, Writer, Written, Valid, Kept;
    TakeKeepsValid(decide, s, step);
    forall k | k in Take(decide, s, step).entries
      ensures Writer(before + [step], k).Some?
      ensures Written(decide, k, Take(decide, s, step).entries[k], Writer(before + [step], k).value)
    {
      KeyStaysTraced(decide, before, s, step, k);
    }
  }

  // What a store leaves for its own key.
  lemma StoreIsWritten(decide: Decision, step: Step)
    requires step.Storing? && StepTimed(step) && Kept(step.key, step.read).Some?
    ensures
      var result := FilterAlong(decide, step.key, step.key.catalog.candidates, step.clock);
      Written(decide, step.key, Entry(Kept(step.key, step.read).value, result), step)
  {
    hide FilterAlong, Deadline;
  }

  lemma {:induction false} RunIsTraced(decide: Decision, steps: seq<Step>)
    requires Timed(steps)
    ensures Valid(Run(decide, steps)) && Traced(decide, steps, Run(decide, steps))
    decreases |steps|
  {
    if steps != [] {
      hide Take, Traced, Valid;
      var n := |steps| - 1;
      assert Timed(steps[..n]) && steps == steps[..n] + [steps[n]];
      RunIsTraced(decide, steps[..n]);
      TakeKeepsTraced(decide, steps[..n], Run(decide, steps[..n]), steps[n]);
    } else {
      NothingIsTraced(decide);
    }
  }

  lemma NothingIsTraced(decide: Decision)
    ensures Valid(EMPTY) && Traced(decide, [], EMPTY)
  {
  }

  // ----- when an answer agrees with the filter -----

  ghost predicate StartedBy(r: Record, t: Time) {
    r.observed.Some? && r.observed.value <= t
  }

  ghost predicate LastsPast(r: Record, t: Time) {
    r.expires.Some? && t < r.expires.value
  }

  // Of the records that count, those already started at the reading are those not yet expired when
  // the filter came to them.
  ghost predicate Undisturbed(key: Key, clock: seq<Time>, read: Time)
    requires |clock| == |key.catalog.candidates|
  {
    forall i | 0 <= i < |clock| :: Steady(RecordOf(key.catalog.records, key.catalog.candidates[i]), clock[i], read)
  }

  ghost predicate Steady(r: Option<Record>, judged: Time, read: Time) {
    r.Some? ==> (StartedBy(r.value, read) <==> LastsPast(r.value, judged))
  }

  // Every candidate is as current at its own reading as at the common one.
  ghost predicate Alike(c: Catalog, cs: seq<nat>, clock: seq<Time>, read: Time)
    requires |clock| == |cs|
  {
    forall i | 0 <= i < |cs| :: CurrentFor(c, cs[i], clock[i]) == CurrentFor(c, cs[i], read)
  }

  lemma UndisturbedIsAlike(key: Key, started: Time, clock: seq<Time>, read: Time)
    requires Kept(key, started).Some? && read < Kept(key, started).value
    requires |clock| == |key.catalog.candidates| && forall i | 0 <= i < |clock| :: started <= clock[i]
    ensures Undisturbed(key, clock, read) <==> Alike(key.catalog, key.catalog.candidates, clock, read)
  {
    var cs := key.catalog.candidates;
    forall i | 0 <= i < |cs|
      ensures Steady(RecordOf(key.catalog.records, cs[i]), clock[i], read)
        <==> CurrentFor(key.catalog, cs[i], clock[i]) == CurrentFor(key.catalog, cs[i], read)
    {
      DeadlineMeans(key.catalog.records, started, started + KEEP);
      RecordOfIsRecord(key.catalog.records, cs[i]);
    }
  }

  lemma {:induction false} AlikeAgrees(decide: Decision, key: Key, cs: seq<nat>, clock: seq<Time>, read: Time)
    requires |clock| == |cs| && Alike(key.catalog, cs, clock, read)
    ensures FilterAlong(decide, key, cs, clock) == FilterAlong(decide, key, cs, seq(|cs|, _ => read))
    decreases |cs|
  {
    if cs != [] {
      assert CurrentFor(key.catalog, cs[0], clock[0]) == CurrentFor(key.catalog, cs[0], read);
      AlikeTail(key.catalog, cs, clock, read);
      AlikeAgrees(decide, key, cs[1..], clock[1..], read);
      assert seq(|cs|, _ => read)[1..] == seq(|cs[1..]|, _ => read);
    }
  }

  lemma AlikeTail(c: Catalog, cs: seq<nat>, clock: seq<Time>, read: Time)
    requires |clock| == |cs| && cs != [] && Alike(c, cs, clock, read)
    ensures Alike(c, cs[1..], clock[1..], read)
  {
    forall i | 0 <= i < |cs[1..]|
      ensures CurrentFor(c, cs[1..][i], clock[1..][i]) == CurrentFor(c, cs[1..][i], read)
    {
      assert cs[1..][i] == cs[i + 1] && clock[1..][i] == clock[i + 1];
    }
  }

  // Accept one candidate, when it is, or is not, current.
  function Picking(candidate: nat, current: bool): Decision {
    (_: Workflow, _: Catalog, c: nat, now: bool) => c == candidate && now == current
  }

  lemma {:induction false} PickedNever(key: Key, cs: seq<nat>, c: nat, current: bool, read: Time)
    requires CurrentFor(key.catalog, c, read) != current
    ensures FilterAlong(Picking(c, current), key, cs, seq(|cs|, _ => read)) == []
    decreases |cs|
  {
    if cs != [] {
      PickedNever(key, cs[1..], c, current, read);
      assert seq(|cs|, _ => read)[1..] == seq(|cs[1..]|, _ => read);
    }
  }

  lemma {:induction false} PickedOnce(key: Key, cs: seq<nat>, clock: seq<Time>, i: nat, current: bool)
    requires |clock| == |cs| && i < |cs| && CurrentFor(key.catalog, cs[i], clock[i]) == current
    ensures FilterAlong(Picking(cs[i], current), key, cs, clock) != []
    decreases |cs|
  {
    if i > 0 {
      PickedOnce(key, cs[1..], clock[1..], i - 1, current);
    }
  }

  // Where one candidate differs, some decision tells the readings apart.
  lemma DifferenceShows(key: Key, cs: seq<nat>, clock: seq<Time>, read: Time) returns (decide: Decision)
    requires |clock| == |cs| && !Alike(key.catalog, cs, clock, read)
    ensures FilterAlong(decide, key, cs, clock) != FilterAlong(decide, key, cs, seq(|cs|, _ => read))
  {
    var i :| 0 <= i < |cs| && CurrentFor(key.catalog, cs[i], clock[i]) != CurrentFor(key.catalog, cs[i], read);
    var current := CurrentFor(key.catalog, cs[i], clock[i]);
    decide := Picking(cs[i], current);
    PickedNever(key, cs, cs[i], current, read);
    PickedOnce(key, cs, clock, i, current);
  }

  // What the cache holds, and until when, does not depend on what the filter decides.
  ghost predicate SameShape(s: State, t: State) {
    s.order == t.order && s.entries.Keys == t.entries.Keys
    && forall k | k in s.entries :: s.entries[k].deadline == t.entries[k].deadline
  }

  lemma StoreKeepsShape(s: State, t: State, key: Key, started: Time, one: seq<nat>, two: seq<nat>)
    requires Valid(s) && Valid(t) && SameShape(s, t)
    ensures SameShape(Store(s, key, started, one), Store(t, key, started, two))
  {
    hide Store, Touch, Deadline, Matches, FilterAlong;
    StoreKeepsValid(s, key, started, one);
    StoreKeepsValid(t, key, started, two);
    var u, v := Store(s, key, started, one), Store(t, key, started, two);
    if Deadline(key.catalog.records, started, started + KEEP).Some? {
      assert |u.order| == |v.order| && u.order == v.order;
      OrderGivesKeys(u, v);
      forall k | k in u.entries
        ensures u.entries[k].deadline == v.entries[k].deadline
      {
        if k != key {
          assert k in s.entries && u.entries[k] == s.entries[k] && v.entries[k] == t.entries[k];
        }
      }
    }
  }

  lemma OrderGivesKeys(s: State, t: State)
    requires Matches(s) && Matches(t) && s.order == t.order
    ensures s.entries.Keys == t.entries.Keys
  {
    assert forall k :: k in s.entries <==> k in t.entries;
  }

  lemma {:induction false} RunsKeepShape(one: Decision, two: Decision, steps: seq<Step>)
    requires Timed(steps)
    ensures SameShape(Run(one, steps), Run(two, steps))
    decreases |steps|
  {
    if steps != [] {
      var n := |steps| - 1;
      RunsKeepShape(one, two, steps[..n]);
      RunIsTraced(one, steps[..n]);
      RunIsTraced(two, steps[..n]);
      TakeKeepsShape(one, two, Run(one, steps[..n]), Run(two, steps[..n]), steps[n]);
    }
  }

  lemma TakeKeepsShape(one: Decision, two: Decision, s: State, t: State, step: Step)
    requires Valid(s) && Valid(t) && SameShape(s, t) && StepTimed(step)
    ensures SameShape(Take(one, s, step), Take(two, t, step))
  {
    match step
    case Looking(_, _, _) =>
    case Storing(key, read, clock, _) =>
      var cs := key.catalog.candidates;
      StoreKeepsShape(s, t, key, read, FilterAlong(one, key, cs, clock), FilterAlong(two, key, cs, clock));
  }

  ghost predicate Answers(decide: Decision, steps: seq<Step>, key: Key, read: Time)
    requires Timed(steps)
  {
    Look(Run(decide, steps), key, read).1 == Some(Filter(decide, key, read))
  }

  ghost predicate Hits(decide: Decision, steps: seq<Step>, key: Key, read: Time)
    requires Timed(steps)
  {
    Look(Run(decide, steps), key, read).1.Some?
  }

  // What a hit says: the writer's result, found before its deadline.
  lemma HitIsWritten(decide: Decision, steps: seq<Step>, key: Key, read: Time)
    requires Timed(steps) && Hits(decide, steps, key, read)
    ensures
      var s, w := Run(decide, steps), Writer(steps, key);
      && w.Some? && w.value in steps && StepTimed(w.value) && Written(decide, key, s.entries[key], w.value)
      && read < s.entries[key].deadline
      && Look(s, key, read).1 == Some(FilterAlong(decide, key, key.catalog.candidates, w.value.clock))
  {
    hide Run, FilterAlong, Deadline;
    RunIsTraced(decide, steps);
    WriterIsStep(steps, key);
  }

  /** However the critical sections of concurrent requests interleave, a request that hits gets the
      answer which the filter would have given at the request's own reading of the clock exactly
      when, of the records that count, those started by that reading are those that had not expired
      when the filter of the entry's writer came to them. */
  lemma HitAgreesExactly(steps: seq<Step>, key: Key, read: Time, some: Decision)
    requires Timed(steps) && Hits(some, steps, key, read)
    ensures Writer(steps, key).Some? && Writer(steps, key).value.Storing?
    ensures |Writer(steps, key).value.clock| == |key.catalog.candidates|
    ensures (forall decide :: Answers(decide, steps, key, read))
        <==> Undisturbed(key, Writer(steps, key).value.clock, read)
  {
    hide Run, FilterAlong, Deadline, Undisturbed, Alike, Timed, SameShape, Writer;
    HitIsWritten(some, steps, key, read);
    var w, cs := Writer(steps, key).value, key.catalog.candidates;
    UndisturbedIsAlike(key, w.read, w.clock, read);
    if Alike(key.catalog, cs, w.clock, read) {
      forall decide
        ensures Answers(decide, steps, key, read)
      {
        EveryDecisionHits(some, decide, steps, key, read);
        HitIsWritten(decide, steps, key, read);
        AlikeAgrees(decide, key, cs, w.clock, read);
      }
    } else {
      var decide := DifferenceShows(key, cs, w.clock, read);
      EveryDecisionHits(some, decide, steps, key, read);
      HitIsWritten(decide, steps, key, read);
      assert !Answers(decide, steps, key, read);
    }
  }

  lemma EveryDecisionHits(one: Decision, two: Decision, steps: seq<Step>, key: Key, read: Time)
    requires Timed(steps) && Hits(one, steps, key, read)
    ensures Hits(two, steps, key, read)
  {
    hide Run;
    RunsKeepShape(one, two, steps);
  }

  // Between the writer's reading and the deadline every moment gives the writer's result, if the
  // filter ran in that time.
  lemma WindowAgrees(decide: Decision, key: Key, w: Step, deadline: Time, t: Time)
    requires StepTimed(w) && w.Storing? && w.key == key && Kept(key, w.read) == Some(deadline)
    requires w.read <= t < deadline && forall i | 0 <= i < |w.clock| :: w.clock[i] < deadline
    ensures FilterAlong(decide, key, key.catalog.candidates, w.clock) == Filter(decide, key, t)
  {
    var cs := key.catalog.candidates;
    DeadlineMeans(key.catalog.records, w.read, w.read + KEEP);
    forall i | 0 <= i < |cs|
      ensures CurrentFor(key.catalog, cs[i], w.clock[i]) == CurrentFor(key.catalog, cs[i], t)
    {
      RecordOfIsRecord(key.catalog.records, cs[i]);
    }
    AlikeAgrees(decide, key, cs, w.clock, t);
  }

  /** A request that hits before the deadline of the entry has passed gets the answer for the moment
      at which it is served, and for its own reading unless that is older than the writer's. A
      request that did not wait, with a reading no older than every earlier step, always gets the
      answer for its reading. The cache never outgrows its capacity. */
  lemma CacheAgrees(decide: Decision, steps: seq<Step>, key: Key, read: Time, at: Time)
    requires Timed(steps + [Looking(key, read, at)])
    ensures Timed(steps) && |Run(decide, steps).entries| <= CAPACITY
    ensures Hits(decide, steps, key, read) ==>
      var s := Run(decide, steps);
      var hit := Look(s, key, read).1;
      && Writer(steps, key).Some?
      && (at < s.entries[key].deadline ==> hit == Some(Filter(decide, key, at)))
      && (at < s.entries[key].deadline && Writer(steps, key).value.read <= read ==> Answers(decide, steps, key, read))
      && ((forall step | step in steps :: step.at <= read) ==> Answers(decide, steps, key, read))
  {
    hide Run, FilterAlong, Deadline, Writer;
    EarlierSteps(steps, Looking(key, read, at));
    RunIsTraced(decide, steps);
    if Hits(decide, steps, key, read) {
      HitIsWritten(decide, steps, key, read);
      var w, deadline := Writer(steps, key).value, Run(decide, steps).entries[key].deadline;
      if at < deadline {
        WindowAgrees(decide, key, w, deadline, at);
        if w.read <= read {
          WindowAgrees(decide, key, w, deadline, read);
        }
      }
      if forall step | step in steps :: step.at <= read {
        WindowAgrees(decide, key, w, deadline, read);
      }
    }
  }

  lemma EarlierSteps(steps: seq<Step>, last: Step)
    requires Timed(steps + [last])
    ensures Timed(steps) && StepTimed(last) && forall step | step in steps :: step.at <= last.at
  {
    var all := steps + [last];
    assert steps == all[..|steps|] && all[|steps|] == last;
    assert forall i | 0 <= i < |steps| :: StepTimed(all[i]) && all[i].at <= all[|steps|].at;
    assert forall i, j | 0 <= i < j < |steps| :: all[i].at <= all[j].at;
  }

  // ----- answers that do not agree -----

  // One candidate that is eligible as long as its record is current, from 3 to 1000.
  const LONE := Key(Workflow(0), Catalog(0, [1], [Record(1, Some(3), Some(1000))]))

  const CURRENT: Decision := (_: Workflow, _: Catalog, _: nat, current: bool) => current

  lemma LoneFilter(t: Time)
    ensures Filter(CURRENT, LONE, t) == if 3 <= t < 1000 then [1] else []
    ensures FilterAlong(CURRENT, LONE, LONE.catalog.candidates, [t]) == Filter(CURRENT, LONE, t)
  {
    var c := LONE.catalog;
    assert RecordOf(c.records, 1) == Some(c.records[0]);
    assert CurrentFor(c, 1, t) == (3 <= t < 1000);
    assert seq(|c.candidates|, _ => t) == [t];
    assert FilterAlong(CURRENT, LONE, c.candidates[1..], [t][1..]) == [];
  }

  // The cache after one request that read the clock at `read`, and whose filter did at `judged`.
  lemma LoneEntry(read: Time, judged: Time, at: Time)
    requires 3 <= read <= judged <= at && read < 1000
    ensures
      var steps := [Storing(LONE, read, [judged], at)];
      Timed(steps)
      && var s := Run(CURRENT, steps);
         LONE in s.entries && s.entries[LONE] == Entry(1000, Filter(CURRENT, LONE, judged))
  {
    hide Store, Deadline, FilterAlong, Filter, Run, Timed, Valid, Touch, LONE, CURRENT, KEEP;
    LoneCells();
    NothingIsTraced(CURRENT);
    RunOfOne(CURRENT, Storing(LONE, read, [judged], at));
    LoneFilter(judged);
    LoneDeadline(read);
    StoreKeepsValid(EMPTY, LONE, read, Filter(CURRENT, LONE, judged));
  }

  lemma LoneCells()
    ensures LONE.catalog.candidates == [1]
  {
  }

  lemma RunOfOne(decide: Decision, step: Step)
    requires StepTimed(step)
    ensures Timed([step]) && Run(decide, [step]) == Take(decide, EMPTY, step)
  {
    hide Take, StepTimed;
    assert [step][..0] == [];
  }

  lemma LoneDeadline(read: Time)
    requires 3 <= read < 1000
    ensures Deadline(LONE.catalog.records, read, read + KEEP) == Some(1000)
  {
    assert Deadline(LONE.catalog.records[1..], read, 1000) == Some(1000);
  }

  /** A request that read the clock before the record was observed, and waited for the lock while
      another request stored, is given the later answer. */
  lemma EarlyReadingDisagrees()
    ensures
      var steps := [Storing(LONE, 5, [5], 6)];
      && Timed(steps + [Looking(LONE, 0, 7)])
      && Look(Run(CURRENT, steps), LONE, 0).1 == Some([1])
      && Filter(CURRENT, LONE, 0) == []
  {
    LoneEntry(5, 5, 6);
    LoneFilter(5);
    LoneFilter(0);
    var all := [Storing(LONE, 5, [5], 6)] + [Looking(LONE, 0, 7)];
    assert StepTimed(all[0]) && StepTimed(all[1]);
  }

  /** A request that waited past the deadline is given an answer that has run out. */
  lemma LateAnswerDisagrees()
    ensures
      var steps := [Storing(LONE, 5, [5], 6)];
      && Timed(steps + [Looking(LONE, 999, 1001)])
      && Look(Run(CURRENT, steps), LONE, 999).1 == Some([1])
      && Filter(CURRENT, LONE, 1001) == []
  {
    LoneEntry(5, 5, 6);
    LoneFilter(5);
    LoneFilter(1001);
    var all := [Storing(LONE, 5, [5], 6)] + [Looking(LONE, 999, 1001)];
    assert StepTimed(all[0]) && StepTimed(all[1]);
  }

  /** A filter that outlasted the record leaves an answer that a waiting request still takes for its
      own reading, although that is younger than the writer's. */
  lemma SlowFilterDisagrees()
    ensures
      var steps := [Storing(LONE, 5, [1000], 1001)];
      && Timed(steps + [Looking(LONE, 6, 1002)])
      && Look(Run(CURRENT, steps), LONE, 6).1 == Some([])
      && Filter(CURRENT, LONE, 6) == [1]
  {
    LoneEntry(5, 1000, 1001);
    LoneFilter(1000);
    LoneFilter(6);
    var all := [Storing(LONE, 5, [1000], 1001)] + [Looking(LONE, 6, 1002)];
    assert StepTimed(all[0]) && StepTimed(all[1]);
  }
}

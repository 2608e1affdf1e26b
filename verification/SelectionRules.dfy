/**
 When the cache answers, read off the run so far: the last result that could be kept for the key is still
 there exactly if it is among the 128 keys used last, and it is served until its deadline.
 */
module SelectionRules {
  import opened Basics
  import opened SelectionCache

  // ----- uses -----

  // The key that a step uses: one whose result it may keep, or one that it finds.
  ghost function UsedBy(decide: Decision, s: State, step: Step): Option<Key> {
    match step
    case Looking(key, read, _) => if Look(s, key, read).1.Some? then Some(key) else None
    case Storing(key, read, _, _) => if Kept(key, read).Some? then Some(key) else None
  }

  ghost function Uses(decide: Decision, steps: seq<Step>): seq<Key>
    requires Timed(steps)
    decreases |steps|
  {
    if steps == [] then []
    else
      var n := |steps| - 1;
      assert Timed(steps[..n]);
      var used := UsedBy(decide, Run(decide, steps[..n]), steps[n]);
      Uses(decide, steps[..n]) + if used.Some? then [used.value] else []
  }

  // Since its last use no more than 128 keys have been used, itself included.
  ghost predicate AmongLast(uses: seq<Key>, key: Key) {
    exists i :: 0 <= i < |uses| && uses[i] == key && |ToSet(uses[i..])| <= 128
  }

  // ----- the order of the cache is that of the last uses -----

  lemma InToSet<T>(s: seq<T>)
    ensures forall x :: x in ToSet(s) <==> x in s
  {
  }

  // The i-th use is the last of the j-th key, and since then just the keys after it have been used.
  ghost predicate LastUse(uses: seq<Key>, order: seq<Key>, j: int, i: int)
    requires 0 <= j < |order|
  {
    0 <= i < |uses| && uses[i] == order[j] && order[j] !in uses[i + 1..] && ToSet(uses[i..]) == ToSet(order[j..])
  }

  ghost predicate HasLastUse(uses: seq<Key>, order: seq<Key>, j: int)
    requires 0 <= j < |order|
  {
    exists i :: LastUse(uses, order, j, i)
  }

  // A key that was pushed out: since each of its uses all keys of a full cache have been used.
  ghost predicate PushedOut(uses: seq<Key>, order: seq<Key>, key: Key) {
    |order| == 128 && forall i | 0 <= i < |uses| && uses[i] == key :: ToSet(order) <= ToSet(uses[i..])
  }

  ghost predicate ByLastUse(uses: seq<Key>, order: seq<Key>) {
    && Distinct(order) && |order| <= 128
    && (forall j | 0 <= j < |order| :: HasLastUse(uses, order, j))
    && (forall k | k in uses && k !in order :: PushedOut(uses, order, k))
  }

  lemma {:induction false} WithoutSuffix(order: seq<Key>, key: Key, p: nat) returns (q: nat)
    requires Distinct(order) && p < |Without(order, key)|
    ensures q < |order| && order[q] == Without(order, key)[p]
    ensures ToSet(Without(order, key)[p..]) == ToSet(order[q..]) - {key}
    decreases |order|
  {
    var rest := Without(order[1..], key);
    assert order == [order[0]] + order[1..];
    DistinctCons(order[0], order[1..]);
    if order[0] == key {
      q := WithoutSuffix(order[1..], key, p);
      q := q + 1;
    } else if p == 0 {
      q := 0;
      WithoutMeans(order, key);
      InToSet(order);
      InToSet(Without(order, key));
      assert order[0..] == order && Without(order, key)[0..] == Without(order, key);
    } else {
      q := WithoutSuffix(order[1..], key, p - 1);
      q := q + 1;
      assert Without(order, key)[p..] == rest[p - 1..];
    }
  }

  lemma SnocSet<T>(s: seq<T>, x: T, i: nat)
    requires i <= |s|
    ensures (s + [x])[i..] == s[i..] + [x]
    ensures ToSet((s + [x])[i..]) == ToSet(s[i..]) + {x}
  {
    assert (s + [x])[i..] == s[i..] + [x];
    var a, all := s[i..], s[i..] + [x];
    assert all[|a|] == x;
    assert forall j | 0 <= j < |a| :: all[j] == a[j];
  }

  // The keys but the last one, after a use of this key.
  lemma OthersStay(uses: seq<Key>, order: seq<Key>, key: Key, p: nat)
    requires ByLastUse(uses, order) && p < |Without(order, key)|
    ensures p < |Touch(order, key)| && HasLastUse(uses + [key], Touch(order, key), p)
  {
    var kept, used := Without(order, key), Touch(order, key);
    WithoutMeans(order, key);
    var q := WithoutSuffix(order, key, p);
    assert HasLastUse(uses, order, q);
    var i :| LastUse(uses, order, q, i);
    SnocSet(uses, key, i);
    SnocSet(uses, key, i + 1);
    SnocSet(kept, key, p);
    assert kept[p] in kept;
    assert order[q] != key;
    assert used[p] == kept[p];
    assert (uses + [key])[i] == uses[i];
    assert LastUse(uses + [key], used, p, i);
  }

  lemma LastOneIsUsed(uses: seq<Key>, order: seq<Key>, key: Key)
    ensures
      var used := Touch(order, key);
      LastUse(uses + [key], used, |used| - 1, |uses|)
  {
    var used, all := Touch(order, key), uses + [key];
    assert used[|used| - 1..] == [key] && all[|uses|..] == [key] && all[|uses| + 1..] == [];
  }

  lemma IsLastUse(uses: seq<Key>, order: seq<Key>, j: nat, i: nat)
    requires j < |order| && LastUse(uses, order, j, i)
    ensures HasLastUse(uses, order, j)
  {
  }

  lemma DropKeepsUses(uses: seq<Key>, used: seq<Key>, d: nat, j: nat)
    requires d <= |used| && j < |used[d..]| && HasLastUse(uses, used, d + j)
    ensures HasLastUse(uses, used[d..], j)
  {
    assert used[d..][j..] == used[d + j..];
    var i :| LastUse(uses, used, d + j, i);
    assert LastUse(uses, used[d..], j, i);
  }

  // One that had been pushed out before.
  lemma StaysOut(uses: seq<Key>, order: seq<Key>, key: Key, after: seq<Key>, k: Key)
    requires PushedOut(uses, order, k) && k != key && (|order| == 128 ==> |after| == 128)
    requires ToSet(after) <= ToSet(order) + {key}
    ensures PushedOut(uses + [key], after, k)
  {
    var all := uses + [key];
    forall i | 0 <= i < |all| && all[i] == k
      ensures ToSet(after) <= ToSet(all[i..])
    {
      SnocSet(uses, key, i);
    }
  }

  lemma LastIsLast(uses: seq<Key>, order: seq<Key>, j: nat, last: nat, i: nat)
    requires j < |order| && LastUse(uses, order, j, last) && i < |uses| && uses[i] == order[j]
    ensures i <= last
  {
    forall m | last < m < |uses|
      ensures uses[m] != order[j]
    {
      assert uses[last + 1..][m - last - 1] == uses[m];
    }
  }

  // The one that is pushed out now.
  lemma LeavesNow(uses: seq<Key>, used: seq<Key>, k: Key)
    requires |used| == 129 && k == used[0] && HasLastUse(uses, used, 0)
    ensures PushedOut(uses, used[1..], k)
  {
    var last :| LastUse(uses, used, 0, last);
    forall i | 0 <= i < |uses| && uses[i] == k
      ensures ToSet(used[1..]) <= ToSet(uses[i..])
    {
      LastIsLast(uses, used, 0, last, i);
      SuffixSet(uses, i, last);
      SuffixSet(used, 0, 1);
      assert used[0..] == used;
    }
  }

  lemma SuffixSet<T>(s: seq<T>, i: nat, j: nat)
    requires i <= j <= |s|
    ensures ToSet(s[j..]) <= ToSet(s[i..])
  {
    forall x | x in ToSet(s[j..])
      ensures x in ToSet(s[i..])
    {
      var k :| 0 <= k < |s[j..]| && s[j..][k] == x;
      assert s[i..][j - i + k] == x;
    }
  }

  lemma TouchSize(order: seq<Key>, key: Key)
    requires Distinct(order)
    ensures |Touch(order, key)| == if key in order then |order| else |order| + 1
    ensures ToSet(Touch(order, key)) == ToSet(order) + {key}
  {
    TouchMeans(order, key);
    InToSet(order);
    InToSet(Touch(order, key));
    ToSetSize(order);
    ToSetSize(Touch(order, key));
    assert ToSet(Touch(order, key)) == ToSet(order) + {key};
    if key in order {
      assert ToSet(order) + {key} == ToSet(order);
    }
  }

  lemma UseKeepsOrder(uses: seq<Key>, order: seq<Key>, key: Key)
    requires ByLastUse(uses, order)
    ensures ByLastUse(uses + [key], Last(Touch(order, key), 128))
  {
    hide LastUse, HasLastUse, PushedOut, Without, Touch, ToSet;
    var used, all := Touch(order, key), uses + [key];
    var after := Last(used, 128);
    TouchMeans(order, key);
    TouchSize(order, key);
    var d := |used| - |after|;
    assert after == used[d..];
    forall j | 0 <= j < |used|
      ensures HasLastUse(all, used, j)
    {
      TouchParts(order, key);
      if j < |used| - 1 {
        OthersStay(uses, order, key, j);
      } else {
        LastOneIsUsed(uses, order, key);
        IsLastUse(all, used, j, |uses|);
      }
    }
    forall j | 0 <= j < |after|
      ensures HasLastUse(all, after, j)
    {
      DropKeepsUses(all, used, d, j);
    }
    forall k | k in all && k !in after
      ensures PushedOut(all, after, k)
    {
      assert after[|after| - 1] == used[|used| - 1] == key;
      if k in order {
        assert k in used;
        assert d == 1 && used == [used[0]] + after;
        LeavesNow(all, used, k);
      } else {
        AfterSet(used, d);
        assert k in uses && PushedOut(uses, order, k);
        StaysOut(uses, order, key, after, k);
      }
    }
  }

  lemma AfterSet(used: seq<Key>, d: nat)
    requires d <= |used|
    ensures ToSet(used[d..]) <= ToSet(used)
  {
    SuffixSet(used, 0, d);
    assert used[0..] == used;
  }

  lemma TouchParts(order: seq<Key>, key: Key)
    ensures Touch(order, key) == Without(order, key) + [key]
  {
  }

  // A key that is found again is used without anybody leaving.
  lemma FoundKeepsOrder(order: seq<Key>, key: Key)
    requires Distinct(order) && |order| <= 128 && key in order
    ensures Last(Touch(order, key), 128) == Touch(order, key)
  {
    TouchSize(order, key);
  }

  lemma LookOrder(s: State, key: Key, read: Time)
    requires Valid(s)
    ensures
      var (t, hit) := Look(s, key, read);
      t.order == if hit.None? then s.order else Last(Touch(s.order, key), 128)
  {
    hide Touch, Last;
    MatchingSizes(s);
    if Fresh(s, key, read) {
      FoundKeepsOrder(s.order, key);
    }
  }

  lemma StoreOrder(s: State, key: Key, read: Time, result: seq<nat>)
    requires Valid(s)
    ensures Store(s, key, read, result).order
         == if Kept(key, read).None? then s.order else Last(Touch(s.order, key), 128)
  {
    hide Store, Deadline, Touch, Matches;
    StoreKeepsValid(s, key, read, result);
  }

  lemma TakeOrder(decide: Decision, s: State, step: Step)
    requires Valid(s) && StepTimed(step)
    ensures
      var used := UsedBy(decide, s, step);
      Take(decide, s, step).order == if used.None? then s.order else Last(Touch(s.order, used.value), 128)
  {
    hide Store, Look, Kept, Touch, FilterAlong, Last, Valid;
    match step {
      case Looking(key, read, _) => LookOrder(s, key, read);
      case Storing(key, read, clock, _) =>
        StoreOrder(s, key, read, FilterAlong(decide, key, key.catalog.candidates, clock));
    }
  }

  lemma {:induction false} RunIsByLastUse(decide: Decision, steps: seq<Step>)
    requires Timed(steps)
    ensures ByLastUse(Uses(decide, steps), Run(decide, steps).order)
    decreases |steps|
  {
    if steps != [] {
      hide Take, UsedBy, ByLastUse, Valid, Last, Touch;
      var n := |steps| - 1;
      assert Timed(steps[..n]) && StepTimed(steps[n]);
      RunIsByLastUse(decide, steps[..n]);
      RunIsTraced(decide, steps[..n]);
      TakeOrder(decide, Run(decide, steps[..n]), steps[n]);
      var used := UsedBy(decide, Run(decide, steps[..n]), steps[n]);
      var uses := Uses(decide, steps[..n]);
      if used.Some? {
        UseKeepsOrder(uses, Run(decide, steps[..n]).order, used.value);
      } else {
        assert uses + [] == uses;
      }
    }
  }

  lemma {:induction false} Subset<T>(a: set<T>, b: set<T>)
    requires a <= b
    ensures |a| <= |b|
    decreases a
  {
    if a != {} {
      var x :| x in a;
      Subset(a - {x}, b - {x});
    }
  }

  // What is in the cache: the 128 keys used last.
  lemma CachedExactly(uses: seq<Key>, order: seq<Key>, key: Key)
    requires ByLastUse(uses, order)
    ensures key in order <==> AmongLast(uses, key)
  {
    if key in order {
      var j :| 0 <= j < |order| && order[j] == key;
      assert HasLastUse(uses, order, j);
      var i :| LastUse(uses, order, j, i);
      ToSetSize(order[j..]);
    } else if AmongLast(uses, key) {
      var i :| 0 <= i < |uses| && uses[i] == key && |ToSet(uses[i..])| <= 128;
      assert PushedOut(uses, order, key);
      ToSetSize(order);
      InToSet(order);
      assert uses[i..][0] == key;
      Subset(ToSet(order) + {key}, ToSet(uses[i..]));
    }
  }

  // ----- deadlines -----

  // Every record is timed and was observed by then.
  predicate Keepable(records: seq<Record>, read: Time) {
    forall i | 0 <= i < |records| ::
      records[i].observed.Some? && records[i].expires.Some? && records[i].observed.value <= read
  }

  // Five seconds, and no longer than any record lasts.
  ghost predicate IsDeadline(records: seq<Record>, limit: Time, deadline: Time)
    requires forall i | 0 <= i < |records| :: records[i].expires.Some?
  {
    && deadline <= limit && (forall i | 0 <= i < |records| :: deadline <= records[i].expires.value)
    && (deadline == limit || exists i :: 0 <= i < |records| && records[i].expires.value == deadline)
  }

  lemma {:induction false} DeadlineExactly(records: seq<Record>, read: Time, limit: Time)
    ensures
      var d := Deadline(records, read, limit);
      && (d.Some? <==> Keepable(records, read))
      && (d.Some? ==> IsDeadline(records, limit, d.value))
    decreases |records|
  {
    if records != [] {
      var r := records[0];
      assert forall i | 0 < i < |records| :: records[i] == records[1..][i - 1];
      if r.observed.Some? && r.expires.Some? && r.observed.value <= read {
        var next := if r.expires.value < limit then r.expires.value else limit;
        DeadlineExactly(records[1..], read, next);
        var d := Deadline(records[1..], read, next);
        if d.Some? && d.value != limit {
          if d.value == next {
            assert records[0].expires.value == d.value;
          } else {
            var i :| 0 <= i < |records[1..]| && records[1..][i].expires.value == d.value;
            assert records[i + 1].expires.value == d.value;
          }
        }
      } else {
        assert !Keepable(records, read);
      }
    }
  }

  /** A request finds an answer in the cache exactly if a result that could be kept was stored for its key,
      the key is among the 128 used last, and the request's reading of the clock is before the deadline of
      the last such result: five seconds after its writer's reading, or the first expiry of a record. */
  lemma HitsExactly(decide: Decision, steps: seq<Step>, key: Key, read: Time)
    requires Timed(steps)
    ensures AmongLast(Uses(decide, steps), key) ==>
              && Writer(steps, key).Some? && Writer(steps, key).value.key == key
              && Keepable(key.catalog.records, Writer(steps, key).value.read)
    ensures Hits(decide, steps, key, read) <==>
              && AmongLast(Uses(decide, steps), key)
              && var limit := Writer(steps, key).value.read + 5_000_000;
                 forall deadline | IsDeadline(key.catalog.records, limit, deadline) :: read < deadline
  {
    hide Run, Writer, Uses, Deadline, AmongLast, FilterAlong, ByLastUse, IsDeadline, Keepable, Timed;
    var s := Run(decide, steps);
    RunIsTraced(decide, steps);
    RunIsByLastUse(decide, steps);
    CachedExactly(Uses(decide, steps), s.order, key);
    if key in s.order {
      WriterIsStep(steps, key);
      var w := Writer(steps, key).value;
      DeadlineExactly(key.catalog.records, w.read, w.read + KEEP);
      OneDeadline(key.catalog.records, w.read, w.read + KEEP, s.entries[key].deadline);
    }
  }

  lemma OneDeadline(records: seq<Record>, read: Time, limit: Time, one: Time)
    requires Keepable(records, read) && IsDeadline(records, limit, one)
    ensures forall other :: IsDeadline(records, limit, other) ==> other == one
  {
  }
  // ----- the filter -----

  // The first record of a candidate.
  ghost predicate IsRecordOf(records: seq<Record>, candidate: nat, r: Record) {
    exists i :: 0 <= i < |records| && records[i] == r && r.configuration == candidate
      && forall j | 0 <= j < i :: records[j].configuration != candidate
  }

  // It has a record that has started and not expired.
  ghost predicate IsCurrent(records: seq<Record>, candidate: nat, now: Time) {
    exists r :: IsRecordOf(records, candidate, r) && r.observed.Some? && r.expires.Some?
      && r.observed.value <= now && now < r.expires.value
  }

  lemma {:induction false} RecordExactly(records: seq<Record>, candidate: nat)
    ensures RecordOf(records, candidate).Some? ==> IsRecordOf(records, candidate, RecordOf(records, candidate).value)
    ensures forall r :: IsRecordOf(records, candidate, r) ==> RecordOf(records, candidate) == Some(r)
    decreases |records|
  {
    if records != [] {
      var rest := records[1..];
      assert forall i | 0 < i < |records| :: records[i] == rest[i - 1];
      RecordExactly(rest, candidate);
      if records[0].configuration == candidate {
        assert IsRecordOf(records, candidate, records[0]);
      } else {
        if RecordOf(rest, candidate).Some? {
          var r := RecordOf(rest, candidate).value;
          var i :| 0 <= i < |rest| && rest[i] == r && r.configuration == candidate
            && forall j | 0 <= j < i :: rest[j].configuration != candidate;
          assert records[i + 1] == r;
        }
        forall r | IsRecordOf(records, candidate, r)
          ensures IsRecordOf(rest, candidate, r)
        {
          var i :| 0 <= i < |records| && records[i] == r && r.configuration == candidate
            && forall j | 0 <= j < i :: records[j].configuration != candidate;
          assert rest[i - 1] == r;
          assert forall j | 0 <= j < i - 1 :: rest[j] == records[j + 1];
        }
      }
    }
  }

  lemma CurrentExactly(c: Catalog, candidate: nat, now: Time)
    ensures CurrentFor(c, candidate, now) <==> IsCurrent(c.records, candidate, now)
  {
    hide IsRecordOf, RecordOf;
    RecordExactly(c.records, candidate);
  }

  ghost predicate Admitted(decide: Decision, key: Key, candidate: nat, now: Time) {
    decide(key.workflow, key.catalog, candidate, IsCurrent(key.catalog.records, candidate, now))
  }

  // How many of the first n candidates are admitted.
  ghost function AdmittedAmong(decide: Decision, key: Key, candidates: seq<nat>, clock: seq<Time>, n: nat): nat
    requires n <= |clock| == |candidates|
  {
    if n == 0 then 0
    else
      AdmittedAmong(decide, key, candidates, clock, n - 1)
      + if Admitted(decide, key, candidates[n - 1], clock[n - 1]) then 1 else 0
  }

  lemma {:induction false} FilterFrom(decide: Decision, key: Key, candidates: seq<nat>, clock: seq<Time>, n: nat)
    returns (front: seq<nat>)
    requires n <= |clock| == |candidates|
    ensures FilterAlong(decide, key, candidates, clock) == front + FilterAlong(decide, key, candidates[n..], clock[n..])
    ensures |front| == AdmittedAmong(decide, key, candidates, clock, n)
    decreases n
  {
    hide FilterAlong, IsCurrent, CurrentFor;
    if n == 0 {
      front := [];
      assert candidates[0..] == candidates && clock[0..] == clock;
      assert [] + FilterAlong(decide, key, candidates, clock) == FilterAlong(decide, key, candidates, clock);
    } else {
      var before := FilterFrom(decide, key, candidates, clock, n - 1);
      var one := FilterNext(decide, key, candidates, clock, n - 1);
      Regroup(before, one, FilterAlong(decide, key, candidates[n..], clock[n..]));
      front := before + one;
    }
  }

  lemma FilterNext(decide: Decision, key: Key, candidates: seq<nat>, clock: seq<Time>, n: nat) returns (one: seq<nat>)
    requires n < |clock| == |candidates|
    ensures one == if Admitted(decide, key, candidates[n], clock[n]) then [candidates[n]] else []
    ensures FilterAlong(decide, key, candidates[n..], clock[n..])
         == one + FilterAlong(decide, key, candidates[n + 1..], clock[n + 1..])
  {
    hide IsCurrent, CurrentFor;
    CurrentExactly(key.catalog, candidates[n], clock[n]);
    assert candidates[n..][1..] == candidates[n + 1..] && clock[n..][1..] == clock[n + 1..];
    one := if Admitted(decide, key, candidates[n], clock[n]) then [candidates[n]] else [];
  }

  /** The filter keeps exactly the candidates that the hard rules admit, in their order, each judged by
      whether its record is current at its own reading of the clock. */
  lemma FilterExactly(decide: Decision, key: Key, candidates: seq<nat>, clock: seq<Time>)
    requires |clock| == |candidates|
    ensures
      var result := FilterAlong(decide, key, candidates, clock);
      && |result| == AdmittedAmong(decide, key, candidates, clock, |candidates|)
      && forall i | 0 <= i < |candidates| && Admitted(decide, key, candidates[i], clock[i]) ::
           var n := AdmittedAmong(decide, key, candidates, clock, i);
           n < |result| && result[n] == candidates[i]
  {
    hide FilterAlong, Admitted, AdmittedAmong;
    var all := FilterFrom(decide, key, candidates, clock, |candidates|);
    NothingFiltered(decide, key);
    forall i | 0 <= i < |candidates| && Admitted(decide, key, candidates[i], clock[i])
      ensures
        var n, result := AdmittedAmong(decide, key, candidates, clock, i), FilterAlong(decide, key, candidates, clock);
        n < |result| && result[n] == candidates[i]
    {
      var front := FilterFrom(decide, key, candidates, clock, i);
      var one := FilterNext(decide, key, candidates, clock, i);
    }
  }

  lemma NothingFiltered(decide: Decision, key: Key)
    ensures FilterAlong(decide, key, [], []) == []
  {
  }
}

/**
 The attempts that a stage may make at its targets, and the heaviest of them: every target once and
 all repairs at the target that weighs most.
 */
module WorstCase {

  // One attempt: at a target, for the first time or to repair.
  datatype Attempt = Attempt(target: nat, repair: bool)

  // Every target in `left` may have one first attempt, in whatever order; repairs may happen at any
  // target, so many times.
  predicate Sequence(attempts: seq<Attempt>, left: set<nat>, targets: nat, repairs: nat) {
    attempts == [] ||
    var a := attempts[0];
    && a.target < targets
    && (if a.repair then repairs > 0 && Sequence(attempts[1..], left, targets, repairs - 1)
        else a.target in left && Sequence(attempts[1..], left - {a.target}, targets, repairs))
  }

  // The order in which the targets of a stage are tried: after an attempt at `at`, a repair of the
  // same target or the next one.
  predicate Onward(attempts: seq<Attempt>, at: nat, targets: nat, repairs: nat) {
    attempts == [] ||
    if attempts[0].repair then
      attempts[0].target == at && repairs > 0 && Onward(attempts[1..], at, targets, repairs - 1)
    else
      attempts[0].target == at + 1 < targets && Onward(attempts[1..], at + 1, targets, repairs)
  }

  predicate Escalation(attempts: seq<Attempt>, targets: nat, repairs: nat) {
    attempts == [] || (attempts[0] == Attempt(0, false) && targets > 0 && Onward(attempts[1..], 0, targets, repairs))
  }

  function Upto(n: nat): (s: set<nat>)
    ensures forall i: nat :: i in s <==> i < n
  {
    if n == 0 then {} else Upto(n - 1) + {n - 1}
  }

  function Repeated<T>(x: T, n: nat): seq<T> { if n == 0 then [] else [x] + Repeated(x, n - 1) }

  // What the attempts weigh, target by target.
  function Weigh(attempts: seq<Attempt>, w: seq<real>): real {
    if attempts == [] then 0.0
    else (if attempts[0].target < |w| then w[attempts[0].target] else 0.0) + Weigh(attempts[1..], w)
  }

  function SumOf(w: seq<real>): real {
    if w == [] then 0.0 else w[0] + SumOf(w[1..])
  }

  function Each<T>(f: T -> real, cs: seq<T>): (w: seq<real>)
    ensures |w| == |cs| && forall i | 0 <= i < |w| :: w[i] == f(cs[i])
  {
    seq(|cs|, i requires 0 <= i < |cs| => f(cs[i]))
  }

  predicate Nonnegatives(w: seq<real>) {
    forall i | 0 <= i < |w| :: w[i] >= 0.0
  }

  // The heaviest target.
  predicate IsGreatest(w: seq<real>, k: nat) {
    k < |w| && forall i | 0 <= i < |w| :: w[i] <= w[k]
  }

  lemma {:induction false} OnwardIsSequence(attempts: seq<Attempt>, at: nat, targets: nat, repairs: nat, left: set<nat>)
    requires Onward(attempts, at, targets, repairs) && at < targets
    requires forall i | at < i < targets :: i in left
    ensures Sequence(attempts, left, targets, repairs)
    decreases |attempts|
  {
    if attempts != [] {
      if attempts[0].repair {
        OnwardIsSequence(attempts[1..], at, targets, repairs - 1, left);
      } else {
        OnwardIsSequence(attempts[1..], at + 1, targets, repairs, left - {at + 1});
      }
    }
  }

  lemma EscalationIsSequence(attempts: seq<Attempt>, targets: nat, repairs: nat)
    requires Escalation(attempts, targets, repairs)
    ensures Sequence(attempts, Upto(targets), targets, repairs)
  {
    hide Onward;
    if attempts != [] {
      OnwardIsSequence(attempts[1..], 0, targets, repairs, Upto(targets) - {0});
    }
  }

  // ----- no more than the heaviest -----

  // One first attempt at each target in `left`, from the k-th on.
  function SumLeft(w: seq<real>, left: set<nat>, k: nat): real
    requires k <= |w|
    decreases |w| - k
  {
    if k == |w| then 0.0 else (if k in left then w[k] else 0.0) + SumLeft(w, left, k + 1)
  }

  lemma {:induction false} SumLeftTakes(w: seq<real>, left: set<nat>, k: nat, a: nat)
    requires k <= |w| && a in left && a < |w|
    ensures SumLeft(w, left, k) == SumLeft(w, left - {a}, k) + (if k <= a then w[a] else 0.0)
    decreases |w| - k
  {
    if k < |w| {
      SumLeftTakes(w, left, k + 1, a);
    }
  }

  lemma {:induction false} SumLeftNonnegative(w: seq<real>, left: set<nat>, k: nat)
    requires k <= |w| && Nonnegatives(w)
    ensures SumLeft(w, left, k) >= 0.0
    decreases |w| - k
  {
    if k < |w| {
      SumLeftNonnegative(w, left, k + 1);
    }
  }

  lemma {:induction false} SumLeftAll(w: seq<real>, k: nat)
    requires k <= |w|
    ensures SumLeft(w, Upto(|w|), k) == SumOf(w[k..])
    decreases |w| - k
  {
    if k < |w| {
      SumLeftAll(w, k + 1);
      assert w[k..][0] == w[k] && w[k..][1..] == w[k + 1..];
    }
  }

  function Times(n: nat, x: real): real { n as real * x }

  lemma TimesStep(n: nat, x: real)
    ensures n > 0 ==> Times(n, x) == x + Times(n - 1, x)
    ensures n == 0 ==> Times(n, x) == 0.0
    ensures x >= 0.0 ==> Times(n, x) >= 0.0
  {
    if n > 0 {
      assert n as real == (n - 1) as real + 1.0;
    }
  }

  lemma {:induction false} WeighsBelow(attempts: seq<Attempt>, w: seq<real>, left: set<nat>, repairs: nat, k: nat)
    requires Nonnegatives(w) && IsGreatest(w, k) && Sequence(attempts, left, |w|, repairs)
    ensures Weigh(attempts, w) <= SumLeft(w, left, 0) + Times(repairs, w[k])
    decreases |attempts|
  {
    hide Times;
    SumLeftNonnegative(w, left, 0);
    TimesStep(repairs, w[k]);
    if attempts != [] {
      var a := attempts[0];
      if a.repair {
        WeighsBelow(attempts[1..], w, left, repairs - 1, k);
      } else {
        WeighsBelow(attempts[1..], w, left - {a.target}, repairs, k);
        SumLeftTakes(w, left, 0, a.target);
      }
    }
  }

  // ----- and as much as that -----

  // What follows an attempt at the target `at`: every later target once, and all repairs at the
  // target `k` when it is reached.
  function Heaviest(at: nat, targets: nat, repairs: nat, k: nat): seq<Attempt>
    requires at < targets
    decreases targets - at
  {
    (if at == k then Repeated(Attempt(k, true), repairs) else [])
    + if at + 1 < targets then [Attempt(at + 1, false)] + Heaviest(at + 1, targets, repairs, k) else []
  }

  // Repairs that are allowed, followed by whatever is allowed without them.
  lemma {:induction false} RepairsFirst(w: seq<real>, at: nat, repairs: nat, rest: seq<Attempt>)
    requires at < |w| && Onward(rest, at, |w|, 0)
    ensures
      var all := Repeated(Attempt(at, true), repairs) + rest;
      && Onward(all, at, |w|, repairs)
      && Weigh(all, w) == Times(repairs, w[at]) + Weigh(rest, w)
    decreases repairs
  {
    hide Times;
    var all := Repeated(Attempt(at, true), repairs) + rest;
    TimesStep(repairs, w[at]);
    if repairs == 0 {
      assert all == rest;
    } else {
      RepairsFirst(w, at, repairs - 1, rest);
      assert all[0] == Attempt(at, true) && all[1..] == Repeated(Attempt(at, true), repairs - 1) + rest;
    }
  }

  // No repairs so far, and then the next target or nothing.
  lemma NextOrNothing(w: seq<real>, at: nat, repairs: nat, rest: seq<Attempt>)
    requires at < |w|
    requires if at + 1 < |w| then rest != [] && rest[0] == Attempt(at + 1, false)
                                  && Onward(rest[1..], at + 1, |w|, repairs)
             else rest == []
    ensures Onward(rest, at, |w|, repairs)
    ensures Weigh(rest, w) == if at + 1 < |w| then w[at + 1] + Weigh(rest[1..], w) else 0.0
  {
  }

  lemma SumOfStep(w: seq<real>, k: nat)
    requires k <= |w|
    ensures SumOf(w[k..]) == if k < |w| then w[k] + SumOf(w[k + 1..]) else 0.0
  {
    if k < |w| {
      assert w[k..][0] == w[k] && w[k..][1..] == w[k + 1..];
    }
  }

  lemma {:induction false} HeaviestWeighs(w: seq<real>, at: nat, repairs: nat, k: nat)
    requires at < |w| && k < |w|
    ensures
      var all, left := Heaviest(at, |w|, repairs, k), if at <= k then repairs else 0;
      && Onward(all, at, |w|, left)
      && Weigh(all, w) == SumOf(w[at + 1..]) + Times(left, w[k])
    decreases |w| - at
  {
    hide Onward, Weigh, SumOf, Repeated, Times;
    var rest := if at + 1 < |w| then [Attempt(at + 1, false)] + Heaviest(at + 1, |w|, repairs, k) else [];
    var later := if at < k then repairs else 0;
    if at + 1 < |w| {
      HeaviestWeighs(w, at + 1, repairs, k);
      assert rest[1..] == Heaviest(at + 1, |w|, repairs, k);
    }
    NextOrNothing(w, at, later, rest);
    SumOfStep(w, at + 1);
    TimesStep(later, w[k]);
    if at == k {
      RepairsFirst(w, at, repairs, rest);
    } else {
      assert Heaviest(at, |w|, repairs, k) == rest;
    }
  }

  // The weight of every target once and of all repairs at the heaviest is the most that attempts in any
  // order weigh, and attempts in the order of the targets weigh as much.
  lemma HeaviestIsWorst(w: seq<real>, repairs: nat, k: nat)
    requires Nonnegatives(w) && IsGreatest(w, k)
    ensures forall attempts: seq<Attempt> | Sequence(attempts, Upto(|w|), |w|, repairs) ::
              Weigh(attempts, w) <= SumOf(w) + Times(repairs, w[k])
    ensures exists attempts: seq<Attempt> :: attempts != [] && Escalation(attempts, |w|, repairs)
              && Weigh(attempts, w) == SumOf(w) + Times(repairs, w[k])
  {
    hide Times, Onward, Sequence;
    assert w[0..] == w;
    SumLeftAll(w, 0);
    forall attempts: seq<Attempt> | Sequence(attempts, Upto(|w|), |w|, repairs)
      ensures Weigh(attempts, w) <= SumOf(w) + Times(repairs, w[k])
    {
      WeighsBelow(attempts, w, Upto(|w|), repairs, k);
    }
    HeaviestWeighs(w, 0, repairs, k);
    SumOfStep(w, 0);
    var all := [Attempt(0, false)] + Heaviest(0, |w|, repairs, k);
    assert all[1..] == Heaviest(0, |w|, repairs, k);
    assert Escalation(all, |w|, repairs) && Weigh(all, w) == SumOf(w) + Times(repairs, w[k]);
  }

  // ----- the order of the targets does not matter -----

  lemma WithoutOne<T>(s: seq<T>, k: nat)
    requires k < |s|
    ensures s == s[..k] + [s[k]] + s[k + 1..]
    ensures multiset(s[..k] + s[k + 1..]) == multiset(s) - multiset{s[k]}
  {
  }

  lemma HeadElsewhere<T>(a: seq<T>, b: seq<T>) returns (k: nat)
    requires a != [] && multiset(a) == multiset(b)
    ensures k < |b| && b[k] == a[0] && multiset(a[1..]) == multiset(b[..k] + b[k + 1..])
  {
    assert a[0] in multiset(a);
    k :| 0 <= k < |b| && b[k] == a[0];
    WithoutOne(a, 0);
    WithoutOne(b, k);
    assert a[..0] + a[0 + 1..] == a[1..];
  }

  lemma EachStep<T>(f: T -> real, cs: seq<T>)
    requires cs != []
    ensures Each(f, cs)[0] == f(cs[0]) && Each(f, cs)[1..] == Each(f, cs[1..])
  {
  }

  lemma {:induction false} SumOfPermutes<T>(f: T -> real, a: seq<T>, b: seq<T>)
    requires multiset(a) == multiset(b)
    ensures SumOf(Each(f, a)) == SumOf(Each(f, b))
    decreases |a|
  {
    if a == [] {
      assert |multiset(b)| == |b|;
    } else {
      var k := HeadElsewhere(a, b);
      EachStep(f, a);
      SumOfPermutes(f, a[1..], b[..k] + b[k + 1..]);
      SumOfMiddle(f, b[..k], b[k], b[k + 1..]);
      WithoutOne(b, k);
    }
  }

  lemma {:induction false} SumOfMiddle<T>(f: T -> real, a: seq<T>, c: T, b: seq<T>)
    ensures SumOf(Each(f, a + [c] + b)) == SumOf(Each(f, a + b)) + f(c)
    decreases |a|
  {
    EachStep(f, a + [c] + b);
    if a == [] {
      assert a + [c] + b == [c] + b && a + b == b;
      assert ([c] + b)[1..] == b;
    } else {
      SumOfMiddle(f, a[1..], c, b);
      EachStep(f, a + b);
      assert (a + [c] + b)[1..] == a[1..] + [c] + b && (a + b)[1..] == a[1..] + b;
    }
  }
}

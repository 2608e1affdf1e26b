/** Small vocabulary shared by the other modules. */
module Basics {

  datatype Option<+T> = None | Some(value: T)

  function Ceil(x: real): int { -(-x).Floor }

  function Sum(xs: seq<int>): int {
    if xs == [] then 0 else xs[0] + Sum(xs[1..])
  }

  function Flatten<T>(xss: seq<seq<T>>): seq<T> {
    if xss == [] then [] else xss[0] + Flatten(xss[1..])
  }

  lemma Regroup<T>(a: seq<T>, b: seq<T>, c: seq<T>)
    ensures a + (b + c) == a + b + c
  {
  }

  lemma FlattenAppend<T>(xss: seq<seq<T>>, yss: seq<seq<T>>)
    ensures Flatten(xss + yss) == Flatten(xss) + Flatten(yss)
  {
    if xss == [] {
      assert xss + yss == yss;
    } else {
      assert (xss + yss)[1..] == xss[1..] + yss;
      FlattenAppend(xss[1..], yss);
    }
  }

  ghost predicate Distinct<T>(s: seq<T>) {
    forall i, j | 0 <= i < j < |s| :: s[i] != s[j]
  }

  // No two elements with the same key.
  ghost predicate DistinctBy<T, K>(s: seq<T>, key: T -> K) {
    forall i, j | 0 <= i < j < |s| :: key(s[i]) != key(s[j])
  }

  lemma DistinctCons<T>(x: T, s: seq<T>)
    ensures Distinct([x] + s) <==> x !in s && Distinct(s)
  {
    var all := [x] + s;
    if Distinct(all) {
      forall i | 0 <= i < |s| ensures x != s[i] {
        assert all[0] != all[i + 1];
      }
      forall i, j | 0 <= i < j < |s| ensures s[i] != s[j] {
        assert all[i + 1] != all[j + 1];
      }
    }
  }

  lemma DistinctSnoc<T>(s: seq<T>, x: T)
    ensures Distinct(s + [x]) <==> x !in s && Distinct(s)
  {
    var all := s + [x];
    if Distinct(all) {
      forall i | 0 <= i < |s| ensures x != s[i] {
        assert all[i] != all[|s|];
      }
      forall i, j | 0 <= i < j < |s| ensures s[i] != s[j] {
        assert all[i] != all[j];
      }
    }
  }

  lemma DistinctAppend<T>(a: seq<T>, b: seq<T>)
    ensures Distinct(a + b) <==> Distinct(a) && Distinct(b) && forall i | 0 <= i < |a| :: a[i] !in b
  {
    var all := a + b;
    if Distinct(all) {
      forall i, j | 0 <= i < j < |b| ensures b[i] != b[j] {
        assert all[|a| + i] != all[|a| + j];
      }
      forall i, j | 0 <= i < |a| && 0 <= j < |b| ensures a[i] != b[j] {
        assert all[i] != all[|a| + j];
      }
      forall i, j | 0 <= i < j < |a| ensures a[i] != a[j] {
        assert all[i] != all[j];
      }
    }
  }

  lemma {:induction false} DistinctSize<T>(s: seq<T>, elements: set<T>)
    requires Distinct(s) && forall x :: x in s <==> x in elements
    ensures |s| == |elements|
    decreases |s|
  {
    if s == [] {
      assert elements == {};
    } else {
      assert s == [s[0]] + s[1..];
      DistinctCons(s[0], s[1..]);
      DistinctSize(s[1..], elements - {s[0]});
    }
  }

  function ToSet<T>(s: seq<T>): set<T> {
    set i | 0 <= i < |s| :: s[i]
  }

  lemma ToSetCons<T>(x: T, s: seq<T>)
    ensures ToSet([x] + s) == ToSet(s) + {x}
    ensures x in ToSet(s) <==> x in s
  {
    var all := [x] + s;
    assert all[0] == x;
    assert forall i | 0 <= i < |s| :: all[i + 1] == s[i];
  }

  lemma {:induction false} ToSetSize<T>(s: seq<T>)
    ensures |ToSet(s)| <= |s| && (|ToSet(s)| == |s| <==> Distinct(s))
    decreases |s|
  {
    hide ToSet, Distinct;
    if s == [] {
      NoElements<T>();
    } else {
      var x, rest := s[0], s[1..];
      assert s == [x] + rest;
      ToSetSize(rest);
      ToSetCons(x, rest);
      DistinctCons(x, rest);
    }
  }

  lemma NoElements<T>()
    ensures ToSet<T>([]) == {} && Distinct<T>([])
  {
  }
}

/** Insertion into an ordered sequence, before the first element that does not come earlier. */
module Sorting {
  import opened Basics

  function Insert<T>(x: T, xs: seq<T>, before: (T, T) -> bool): seq<T> {
    if xs == [] || before(x, xs[0]) then [x] + xs else [xs[0]] + Insert(x, xs[1..], before)
  }

  ghost predicate Ordered<T(!new)>(xs: seq<T>, before: (T, T) -> bool) {
    forall i, j | 0 <= i < j < |xs| :: before(xs[i], xs[j])
  }

  // The element can be compared with the others, and comparing leads on.
  ghost predicate Fits<T(!new)>(x: T, xs: seq<T>, before: (T, T) -> bool) {
    && (forall y | y in xs :: before(x, y) || before(y, x))
    && (forall y, z | y in xs && z in xs && before(x, y) && before(y, z) :: before(x, z))
  }

  lemma {:induction false} InsertMeans<T(!new)>(x: T, xs: seq<T>, before: (T, T) -> bool)
    ensures
      var r := Insert(x, xs, before);
      && |r| == |xs| + 1 && (forall y :: y in r <==> y == x || y in xs)
      && multiset(r) == multiset(xs) + multiset{x}
    decreases |xs|
  {
    if xs != [] && !before(x, xs[0]) {
      InsertMeans(x, xs[1..], before);
    }
    if xs != [] {
      assert xs == [xs[0]] + xs[1..];
    }
  }

  lemma {:induction false} InsertKeepsDistinct<T(!new)>(x: T, xs: seq<T>, before: (T, T) -> bool)
    requires Distinct(xs) && x !in xs
    ensures Distinct(Insert(x, xs, before))
    decreases |xs|
  {
    if xs == [] || before(x, xs[0]) {
      DistinctCons(x, xs);
    } else {
      assert xs == [xs[0]] + xs[1..];
      DistinctCons(xs[0], xs[1..]);
      InsertKeepsDistinct(x, xs[1..], before);
      InsertMeans(x, xs[1..], before);
      DistinctCons(xs[0], Insert(x, xs[1..], before));
    }
  }

  lemma OrderedCons<T(!new)>(x: T, xs: seq<T>, before: (T, T) -> bool)
    ensures Ordered([x] + xs, before) <==> (forall y | y in xs :: before(x, y)) && Ordered(xs, before)
  {
    var all := [x] + xs;
    assert forall i | 0 < i < |all| :: all[i] == xs[i - 1];
    if Ordered(all, before) {
      forall i, j | 0 <= i < j < |xs|
        ensures before(xs[i], xs[j])
      {
        assert before(all[i + 1], all[j + 1]);
      }
      forall y | y in xs
        ensures before(x, y)
      {
        var i :| 0 <= i < |xs| && xs[i] == y;
        assert before(all[0], all[i + 1]);
      }
    }
  }

  lemma {:induction false} InsertKeepsOrder<T(!new)>(x: T, xs: seq<T>, before: (T, T) -> bool)
    requires Ordered(xs, before) && Fits(x, xs, before)
    ensures Ordered(Insert(x, xs, before), before)
    decreases |xs|
  {
    hide Ordered;
    if xs != [] {
      var head, rest := xs[0], xs[1..];
      assert xs == [head] + rest;
      OrderedCons(head, rest, before);
      if before(x, head) {
        OrderedCons(x, xs, before);
      } else {
        InsertKeepsOrder(x, rest, before);
        InsertMeans(x, rest, before);
        OrderedCons(head, Insert(x, rest, before), before);
      }
    } else {
      OrderedCons(x, xs, before);
    }
  }
}

/** The types of values that workflows pass on. */
module ValueTypes {
  datatype ValueType = Text | Json | Boolean | Number
}

/** The failure taxonomy shared by the gateway, the circuit breaker and the stream. */
module Failures {
  // Why an attempt failed, as the source classifies it.
  datatype FailureKind =
    | ProviderFailure | RateLimit | Timeout | InvalidOutput | QualityValidation | CapabilityMismatch
    | ContextOverflow | BudgetViolation | Cancelled | CircuitOpen
}

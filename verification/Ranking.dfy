/**
 Ranking the deployments that may serve a stage: a weighted utility over normalized metrics, and
 Pareto dominance over the raw ones.

 Scores are exact reals and identifiers are naturals, ordered as the source orders strings. A
 metric that is absent from a candidate is unknown.
 */
module Ranking {
  import opened Basics
  import Sorting

  datatype Objective = Quality | Latency | Cost | Throughput | Privacy | Reliability | Capability

  const OBJECTIVES := [Quality, Latency, Cost, Throughput, Privacy, Reliability, Capability]

  datatype Candidate = Candidate(id: nat, eligible: bool, metrics: map<Objective, real>, estimated: set<Objective>)

  datatype Policy = Policy(weights: map<Objective, real>, unknownPenalty: real, estimatedDiscount: real)

  datatype Scored = Scored(candidate: Candidate, utility: Option<real>, pareto: bool)

  // What the contract of a router policy demands.
  ghost predicate Valid(p: Policy) {
    && (forall k | k in p.weights :: 0.0 <= p.weights[k] <= 1.0)
    && TotalWeight(p) > 0.0
    && 0.0 <= p.unknownPenalty <= 1.0
    && 0.0 <= p.estimatedDiscount <= 1.0
  }

  function Weight(p: Policy, k: Objective): real {
    if k in p.weights then p.weights[k] else 0.0
  }

  function Total(p: Policy, ks: seq<Objective>): real {
    if ks == [] then 0.0 else Weight(p, ks[0]) + Total(p, ks[1..])
  }

  function TotalWeight(p: Policy): real { Total(p, OBJECTIVES) }

  function Metric(c: Candidate, k: Objective): Option<real> {
    if k in c.metrics then Some(c.metrics[k]) else None
  }

  predicate LowerIsBetter(k: Objective) { k == Cost || k == Latency }

  function Eligible(rows: seq<Candidate>): seq<Candidate> {
    if rows == [] then []
    else (if rows[0].eligible then [rows[0]] else []) + Eligible(rows[1..])
  }

  // ----- normalization and utility -----

  ghost predicate Known(rows: seq<Candidate>, k: Objective, v: real) {
    exists c :: c in rows && c.eligible && Metric(c, k) == Some(v)
  }

  function Extreme(rows: seq<Candidate>, k: Objective, high: bool): (best: Option<real>)
    ensures best.Some? ==> Known(rows, k, best.value)
    ensures forall v | Known(rows, k, v) :: best.Some? && (if high then v <= best.value else best.value <= v)
  {
    if rows == [] then None
    else
      var rest := Extreme(rows[1..], k, high);
      var here := if rows[0].eligible then Metric(rows[0], k) else None;
      assert forall v | Known(rows[1..], k, v) :: Known(rows, k, v);
      assert forall v | Known(rows, k, v) :: Known(rows[1..], k, v) || here == Some(v);
      if here.None? then rest
      else if rest.None? then assert rows[0] in rows; here
      else if (if high then rest.value <= here.value else here.value <= rest.value) then assert rows[0] in rows; here
      else rest
  }

  function Scale(v: real, low: real, high: real): real {
    if low == high then 1.0 else (v - low) / (high - low)
  }

  function Normalized(rows: seq<Candidate>, p: Policy, c: Candidate, k: Objective): real {
    Normal(Metric(c, k), Extreme(rows, k, false), Extreme(rows, k, true), LowerIsBetter(k), k in c.estimated, p)
  }

  function Normal(value: Option<real>, low: Option<real>, high: Option<real>, reversed: bool, estimated: bool,
      p: Policy): real {
    if value.None? || low.None? || high.None? then -p.unknownPenalty - 0.001
    else
      var n := Scale(value.value, low.value, high.value);
      var oriented := if reversed && low != high then 1.0 - n else n;
      if estimated then oriented * (1.0 - p.estimatedDiscount) else oriented
  }

  function Utility(rows: seq<Candidate>, p: Policy, total: real, c: Candidate, ks: seq<Objective>): real
    requires total != 0.0
  {
    if ks == [] then 0.0 else Term(rows, p, total, c, ks[0]) + Utility(rows, p, total, c, ks[1..])
  }

  // Only objectives with a positive weight take part; weights are scaled to a total of one.
  function Term(rows: seq<Candidate>, p: Policy, total: real, c: Candidate, k: Objective): real
    requires total != 0.0
  {
    if Weight(p, k) > 0.0 then Scaled(Weight(p, k), total, Normalized(rows, p, c, k)) else 0.0
  }

  function Scaled(weight: real, total: real, n: real): real
    requires total != 0.0
  {
    weight / total * n
  }

  // ----- dominance -----

  // One metric compared: known beats unknown, and otherwise the better value wins.
  function Compare(a: Option<real>, b: Option<real>, k: Objective): int {
    match (a, b)
    case (None, None) => 0
    case (None, Some(_)) => -1
    case (Some(_), None) => 1
    case (Some(x), Some(y)) =>
      var delta := if LowerIsBetter(k) then y - x else x - y;
      if delta < 0.0 then -1 else if delta > 0.0 then 1 else 0
  }

  function Gain(a: Candidate, b: Candidate, k: Objective): int {
    Compare(Metric(a, k), Metric(b, k), k)
  }

  ghost predicate Dominates(p: Policy, other: Candidate, row: Candidate) {
    && (forall k | Weight(p, k) > 0.0 :: Gain(other, row, k) >= 0)
    && (exists k :: Weight(p, k) > 0.0 && Gain(other, row, k) > 0)
  }

  ghost predicate Efficient(rows: seq<Candidate>, p: Policy, c: Candidate) {
    forall other | other in rows && other.eligible && other.id != c.id :: !Dominates(p, other, c)
  }

  // The source's inner loop, with its early exits and its `strict` flag.
  method IsDominated(p: Policy, other: Candidate, row: Candidate) returns (dominates: bool)
    ensures dominates <==> Dominates(p, other, row)
  {
    var strict := false;
    for i := 0 to |OBJECTIVES|
      invariant forall k | Index(k) < i && Weight(p, k) > 0.0 :: Gain(other, row, k) >= 0
      invariant strict <==> exists k :: Index(k) < i && Weight(p, k) > 0.0 && Gain(other, row, k) > 0
    {
      var k := OBJECTIVES[i];
      assert forall j | Index(j) == i :: j == k;
      if Weight(p, k) > 0.0 {
        var a, b := Metric(other, k), Metric(row, k);
        if a.None? {
          if b.Some? {
            return false;
          }
        } else if b.None? {
          strict := true;
        } else {
          var delta := if LowerIsBetter(k) then b.value - a.value else a.value - b.value;
          if delta < 0.0 {
            return false;
          }
          strict := strict || delta > 0.0;
        }
      }
    }
    dominates := strict;
  }

  function Index(k: Objective): (i: nat)
    ensures i < |OBJECTIVES| && OBJECTIVES[i] == k
  {
    match k
    case Quality => 0
    case Latency => 1
    case Cost => 2
    case Throughput => 3
    case Privacy => 4
    case Reliability => 5
    case Capability => 6
  }

  /** Dominance is a strict partial order, unknown metrics included. */
  lemma DominanceIsStrictOrder(p: Policy, a: Candidate, b: Candidate, c: Candidate)
    ensures !Dominates(p, a, a)
    ensures Dominates(p, a, b) ==> !Dominates(p, b, a)
    ensures Dominates(p, a, b) && Dominates(p, b, c) ==> Dominates(p, a, c)
  {
    hide Gain;
    forall k
      ensures Gain(a, a, k) == 0 && Gain(a, b, k) == -Gain(b, a, k)
      ensures Gain(a, b, k) >= 0 && Gain(b, c, k) >= 0 ==>
        Gain(a, c, k) >= 0 && (Gain(a, b, k) > 0 || Gain(b, c, k) > 0 ==> Gain(a, c, k) > 0)
    {
      GainLaws(a, b, c, k);
    }
    if Dominates(p, a, b) && Dominates(p, b, c) {
      var k :| Weight(p, k) > 0.0 && Gain(a, b, k) > 0;
      assert Gain(a, c, k) > 0;
    }
  }

  lemma GainLaws(a: Candidate, b: Candidate, c: Candidate, k: Objective)
    ensures Gain(a, a, k) == 0 && Gain(a, b, k) == -Gain(b, a, k)
    ensures Gain(a, b, k) >= 0 && Gain(b, c, k) >= 0 ==>
      Gain(a, c, k) >= 0 && (Gain(a, b, k) > 0 || Gain(b, c, k) > 0 ==> Gain(a, c, k) > 0)
  {
  }

  // ----- the order -----

  // The sort key: eligible first, then the higher utility, then the smaller identifier.
  predicate Before(a: Scored, b: Scored) {
    if a.candidate.eligible != b.candidate.eligible then a.candidate.eligible
    else if a.utility.Some? != b.utility.Some? then a.utility.Some?
    else if a.utility.Some? && a.utility.value != b.utility.value then a.utility.value > b.utility.value
    else a.candidate.id <= b.candidate.id
  }

  ghost predicate Sorted(s: seq<Scored>) { Sorting.Ordered(s, Before) }

  ghost function Score(rows: seq<Candidate>, p: Policy, c: Candidate): Scored
    requires TotalWeight(p) != 0.0
  {
    if c.eligible then Scored(c, Some(Utility(rows, p, TotalWeight(p), c, OBJECTIVES)), Efficient(rows, p, c))
    else Scored(c, None, false)
  }

  ghost predicate DistinctIds(rows: seq<Candidate>) { DistinctBy(rows, (c: Candidate) => c.id) }

  // What a ranking is: every candidate with its score, in order.
  ghost predicate IsRanking(rows: seq<Candidate>, p: Policy, out: seq<Scored>)
    requires TotalWeight(p) != 0.0
  {
    Sorted(out) && multiset(out) == multiset(Scores(rows, p, rows))
  }

  ghost function Scores(rows: seq<Candidate>, p: Policy, cs: seq<Candidate>): (r: seq<Scored>)
    requires TotalWeight(p) != 0.0
    ensures |r| == |cs| && forall i | 0 <= i < |cs| :: r[i] == Score(rows, p, cs[i]) && r[i].candidate == cs[i]
  {
    if cs == [] then [] else [Score(rows, p, cs[0])] + Scores(rows, p, cs[1..])
  }

  lemma ScoresSnoc(rows: seq<Candidate>, p: Policy, cs: seq<Candidate>, c: Candidate)
    requires TotalWeight(p) != 0.0
    ensures Scores(rows, p, cs + [c]) == Scores(rows, p, cs) + [Score(rows, p, c)]
  {
  }

  lemma BeforeOrder(x: Scored, y: Scored, z: Scored)
    ensures Before(x, y) || Before(y, x)
    ensures Before(x, y) && Before(y, z) ==> Before(x, z)
    ensures Before(x, y) && Before(y, x) ==> x.candidate.id == y.candidate.id
  {
  }

  lemma InsertKeepsOrder(s: Scored, into: seq<Scored>)
    requires Sorted(into)
    ensures
      var r := Sorting.Insert(s, into, Before);
      Sorted(r) && multiset(r) == multiset(into) + multiset{s}
  {
    hide Sorting.Ordered, Before;
    Sorting.InsertMeans(s, into, Before);
    forall x, y, z
      ensures Before(x, y) || Before(y, x)
      ensures Before(x, y) && Before(y, z) ==> Before(x, z)
    {
      BeforeOrder(x, y, z);
    }
    Sorting.InsertKeepsOrder(s, into, Before);
  }

  method Assess(rows: seq<Candidate>, p: Policy, row: Candidate) returns (scored: Scored)
    requires Valid(p)
    ensures scored == Score(rows, p, row)
  {
    if !row.eligible {
      return Scored(row, None, false);
    }
    var efficient := true;
    for j := 0 to |rows|
      invariant efficient <==>
        forall h | 0 <= h < j && rows[h].eligible && rows[h].id != row.id :: !Dominates(p, rows[h], row)
    {
      if rows[j].eligible && rows[j].id != row.id {
        var dominated := IsDominated(p, rows[j], row);
        efficient := efficient && !dominated;
      }
    }
    assert efficient <==> Efficient(rows, p, row);
    scored := Scored(row, Some(Utility(rows, p, TotalWeight(p), row, OBJECTIVES)), efficient);
  }

  method Rank(rows: seq<Candidate>, p: Policy) returns (out: seq<Scored>)
    requires Valid(p)
    ensures IsRanking(rows, p, out)
  {
    out := [];
    for i := 0 to |rows|
      invariant Sorted(out) && multiset(out) == multiset(Scores(rows, p, rows[..i]))
    {
      var scored := Assess(rows, p, rows[i]);
      InsertKeepsOrder(scored, out);
      ScoresSnoc(rows, p, rows[..i], rows[i]);
      assert rows[..i + 1] == rows[..i] + [rows[i]];
      out := Sorting.Insert(scored, out, Before);
    }
    assert rows[..|rows|] == rows;
  }

  // ----- what a ranking depends on -----

  lemma SameElements<T>(a: seq<T>, b: seq<T>)
    requires multiset(a) == multiset(b)
    ensures forall x :: x in a <==> x in b
    ensures |a| == |b|
  {
    assert |multiset(a)| == |a| && |multiset(b)| == |b|;
    forall x
      ensures x in a <==> x in b
    {
      assert x in a <==> x in multiset(a);
      assert x in b <==> x in multiset(b);
    }
  }

  lemma ScoreDependsOnSet(rows: seq<Candidate>, others: seq<Candidate>, p: Policy, c: Candidate)
    requires TotalWeight(p) != 0.0
    requires forall r :: r in rows <==> r in others
    ensures Score(rows, p, c) == Score(others, p, c)
  {
    forall k
      ensures Term(rows, p, TotalWeight(p), c, k) == Term(others, p, TotalWeight(p), c, k)
    {
      SameExtremes(rows, others, k);
      assert Normalized(rows, p, c, k) == Normalized(others, p, c, k);
    }
    SameUtility(rows, others, p, TotalWeight(p), c, OBJECTIVES);
    assert Efficient(rows, p, c) <==> Efficient(others, p, c);
  }

  lemma SameExtremes(rows: seq<Candidate>, others: seq<Candidate>, k: Objective)
    requires forall r :: r in rows <==> r in others
    ensures Extreme(rows, k, true) == Extreme(others, k, true)
    ensures Extreme(rows, k, false) == Extreme(others, k, false)
  {
    assert forall v :: Known(rows, k, v) <==> Known(others, k, v);
  }

  lemma {:induction false} SameUtility(rows: seq<Candidate>, others: seq<Candidate>, p: Policy, total: real,
      c: Candidate, ks: seq<Objective>)
    requires total != 0.0
    requires forall k :: Term(rows, p, total, c, k) == Term(others, p, total, c, k)
    ensures Utility(rows, p, total, c, ks) == Utility(others, p, total, c, ks)
    decreases |ks|
  {
    if ks != [] {
      SameUtility(rows, others, p, total, c, ks[1..]);
    }
  }

  lemma {:induction false} Occurrences<T>(s: seq<T>)
    ensures Distinct(s) <==> (forall x :: multiset(s)[x] <= 1)
    decreases |s|
  {
    if s != [] {
      var rest := s[1..];
      Occurrences(rest);
      assert s == [s[0]] + rest;
      assert multiset(s) == multiset{s[0]} + multiset(rest);
      DistinctCons(s[0], rest);
      assert s[0] in rest <==> s[0] in multiset(rest);
      if forall x :: multiset(s)[x] <= 1 {
        assert multiset(s)[s[0]] <= 1;
        assert forall x :: multiset(rest)[x] <= multiset(s)[x];
      }
    }
  }

  ghost predicate DistinctScored(s: seq<Scored>) { DistinctBy(s, (x: Scored) => x.candidate.id) }

  lemma DistinctPermutes(a: seq<Scored>, b: seq<Scored>)
    requires multiset(a) == multiset(b) && DistinctScored(b)
    ensures DistinctScored(a)
  {
    SameElements(a, b);
    Occurrences(a);
    Occurrences(b);
    forall i, j | 0 <= i < j < |a|
      ensures a[i].candidate.id != a[j].candidate.id
    {
      assert a[i] in b && a[j] in b && a[i] != a[j];
    }
  }

  lemma FirstIsBefore(s: seq<Scored>, i: nat)
    requires Sorted(s) && i < |s|
    ensures s[i] == s[0] || Before(s[0], s[i])
  {
  }

  lemma SameHead(a: seq<Scored>, b: seq<Scored>)
    requires Sorted(a) && Sorted(b) && multiset(a) == multiset(b) && a != []
    requires DistinctScored(b)
    ensures b != [] && a[0] == b[0]
  {
    SameElements(a, b);
    assert a[0] in b && b[0] in a;
    var i :| 0 <= i < |b| && b[i] == a[0];
    var j :| 0 <= j < |a| && a[j] == b[0];
    BeforeOrder(a[0], b[0], a[0]);
    FirstIsBefore(a, j);
    FirstIsBefore(b, i);
    assert b[0].candidate.id == b[i].candidate.id;
  }

  lemma TailPermutes<T>(a: seq<T>, b: seq<T>)
    requires a != [] && b != [] && a[0] == b[0] && multiset(a) == multiset(b)
    ensures multiset(a[1..]) == multiset(b[1..])
  {
    assert a == [a[0]] + a[1..] && b == [b[0]] + b[1..];
    assert multiset(a[1..]) == multiset(a) - multiset{a[0]};
    assert multiset(b[1..]) == multiset(b) - multiset{b[0]};
  }

  lemma {:induction false} SortedUnique(a: seq<Scored>, b: seq<Scored>)
    requires Sorted(a) && Sorted(b) && multiset(a) == multiset(b)
    requires DistinctScored(b)
    ensures a == b
    decreases |a|
  {
    SameElements(a, b);
    if a != [] {
      SameHead(a, b);
      TailPermutes(a, b);
      SortedUnique(a[1..], b[1..]);
      assert a == [a[0]] + a[1..] && b == [b[0]] + b[1..];
    }
  }

  function RemoveAt<T>(s: seq<T>, i: nat): (r: seq<T>)
    requires i < |s|
    ensures |r| == |s| - 1 && forall j | 0 <= j < |r| :: r[j] == s[if j < i then j else j + 1]
  {
    s[..i] + s[i + 1..]
  }

  lemma TakeOut<T>(s: seq<T>, i: nat)
    requires i < |s|
    ensures multiset(s) == multiset{s[i]} + multiset(RemoveAt(s, i))
    ensures multiset(RemoveAt(s, i)) == multiset(s) - multiset{s[i]}
  {
    assert s == s[..i] + ([s[i]] + s[i + 1..]);
  }

  ghost predicate Image<A, B>(a: seq<A>, m: map<A, B>, fa: seq<B>) {
    |fa| == |a| && forall i | 0 <= i < |a| :: a[i] in m && fa[i] == m[a[i]]
  }

  lemma ImageTail<A, B>(a: seq<A>, m: map<A, B>, fa: seq<B>)
    requires Image(a, m, fa) && a != []
    ensures a[0] in m && fa != [] && fa[0] == m[a[0]] && Image(a[1..], m, fa[1..])
    ensures multiset(a) == multiset{a[0]} + multiset(a[1..]) && multiset(fa) == multiset{fa[0]} + multiset(fa[1..])
  {
    assert a == [a[0]] + a[1..] && fa == [fa[0]] + fa[1..];
  }

  lemma ImageTaken<A, B>(b: seq<A>, m: map<A, B>, fb: seq<B>, i: nat)
    requires Image(b, m, fb) && i < |b|
    ensures |fb| == |b| && b[i] in m && fb[i] == m[b[i]] && Image(RemoveAt(b, i), m, RemoveAt(fb, i))
    ensures multiset(b) == multiset{b[i]} + multiset(RemoveAt(b, i)) && multiset(fb) ==
        multiset{fb[i]} + multiset(RemoveAt(fb, i))
  {
    TakeOut(b, i);
    TakeOut(fb, i);
  }

  // Mapping two permutations of a list element by element gives two permutations of a list.
  lemma {:induction false} ImagesPermute<A, B>(a: seq<A>, b: seq<A>, m: map<A, B>, fa: seq<B>, fb: seq<B>)
    requires multiset(a) == multiset(b) && Image(a, m, fa) && Image(b, m, fb)
    ensures multiset(fa) == multiset(fb)
    decreases |a|
  {
    hide RemoveAt;
    SameElements(a, b);
    if a != [] {
      hide Image;
      assert a[0] in b;
      var i :| 0 <= i < |b| && b[i] == a[0];
      ImageTail(a, m, fa);
      ImageTaken(b, m, fb, i);
      SameRest(a[0], multiset(a[1..]), multiset(RemoveAt(b, i)));
      ImagesPermute(a[1..], RemoveAt(b, i), m, fa[1..], RemoveAt(fb, i));
    }
  }

  lemma SameRest<T>(x: T, a: multiset<T>, b: multiset<T>)
    requires multiset{x} + a == multiset{x} + b
    ensures a == b
  {
    assert a == (multiset{x} + a) - multiset{x};
    assert b == (multiset{x} + b) - multiset{x};
  }

  lemma ScoresPermute(rows: seq<Candidate>, p: Policy, others: seq<Candidate>)
    requires TotalWeight(p) != 0.0 && multiset(rows) == multiset(others)
    ensures multiset(Scores(rows, p, rows)) == multiset(Scores(rows, p, others))
  {
    SameElements(rows, others);
    var m := map c | c in rows :: Score(rows, p, c);
    ImagesPermute(rows, others, m, Scores(rows, p, rows), Scores(rows, p, others));
  }

  /** The order in which the candidates are given does not matter. */
  lemma RankingIgnoresOrder(rows: seq<Candidate>, others: seq<Candidate>, p: Policy, one: seq<Scored>, two: seq<Scored>)
    requires Valid(p) && DistinctIds(rows) && multiset(rows) == multiset(others)
    requires IsRanking(rows, p, one) && IsRanking(others, p, two)
    ensures one == two
  {
    SameElements(rows, others);
    var here, there := Scores(rows, p, rows), Scores(others, p, others);
    assert Scores(rows, p, others) == there by {
      forall i | 0 <= i < |others|
        ensures Scores(rows, p, others)[i] == there[i]
      {
        ScoreDependsOnSet(rows, others, p, others[i]);
      }
    }
    ScoresPermute(rows, p, others);
    assert DistinctScored(here);
    DistinctPermutes(two, here);
    SortedUnique(one, two);
  }

  // ----- the winner -----

  lemma ScaleMonotone(a: real, b: real, low: real, high: real)
    requires low <= a <= b <= high
    ensures 0.0 <= Scale(a, low, high) <= Scale(b, low, high) <= 1.0
    ensures a < b ==> Scale(a, low, high) < Scale(b, low, high)
  {
    if low != high {
      var d := high - low;
      DivideKeepsOrder(0.0, a - low, d);
      DivideKeepsOrder(a - low, b - low, d);
      DivideKeepsOrder(b - low, d, d);
      DivideEnds(d);
    }
  }

  lemma DivideEnds(d: real)
    requires d > 0.0
    ensures 0.0 / d == 0.0 && d / d == 1.0
  {
  }

  lemma DivideKeepsOrder(x: real, y: real, d: real)
    requires d > 0.0 && x <= y
    ensures x / d <= y / d
    ensures x < y ==> x / d < y / d
  {
    var u, v := x / d, y / d;
    DivideBack(x, d);
    DivideBack(y, d);
    ScaleUp(d, v, u);
  }

  lemma DivideBack(x: real, d: real)
    requires d > 0.0
    ensures d * (x / d) == x
  {
  }

  // Without a discount, a better known value is worth more, and any known value beats an unknown.
  lemma NormalMonotone(x: Option<real>, y: Option<real>, low: Option<real>, high: Option<real>, k: Objective,
      ex: bool, ey: bool, p: Policy)
    requires p.unknownPenalty >= 0.0
    requires x.Some? ==> low.Some? && high.Some? && low.value <= x.value <= high.value
    requires y.Some? ==> low.Some? && high.Some? && low.value <= y.value <= high.value
    requires p.estimatedDiscount == 0.0 || ((x.Some? ==> !ex) && (y.Some? ==> !ey))
    ensures
      var nx, ny := Normal(x, low, high, LowerIsBetter(k), ex, p), Normal(y, low, high, LowerIsBetter(k), ey, p);
      && (Compare(x, y, k) >= 0 ==> nx >= ny)
      && (Compare(x, y, k) > 0 ==> nx > ny)
  {
    if x.Some? {
      ScaleMonotone(x.value, x.value, low.value, high.value);
    }
    if y.Some? {
      ScaleMonotone(y.value, y.value, low.value, high.value);
    }
    if x.Some? && y.Some? {
      if x.value <= y.value {
        ScaleMonotone(x.value, y.value, low.value, high.value);
      } else {
        ScaleMonotone(y.value, x.value, low.value, high.value);
      }
    }
  }

  lemma MetricInRange(rows: seq<Candidate>, c: Candidate, k: Objective)
    requires c in rows && c.eligible
    ensures
      var v, low, high := Metric(c, k), Extreme(rows, k, false), Extreme(rows, k, true);
      v.Some? ==> low.Some? && high.Some? && low.value <= v.value <= high.value
  {
    if Metric(c, k).Some? {
      assert Known(rows, k, Metric(c, k).value);
    }
  }

  lemma GainRaisesNormalized(rows: seq<Candidate>, p: Policy, a: Candidate, b: Candidate, k: Objective)
    requires p.unknownPenalty >= 0.0 && a in rows && b in rows && a.eligible && b.eligible
    requires p.estimatedDiscount == 0.0 || (k in a.metrics ==> k !in a.estimated)
    requires p.estimatedDiscount == 0.0 || (k in b.metrics ==> k !in b.estimated)
    ensures Gain(a, b, k) >= 0 ==> Normalized(rows, p, a, k) >= Normalized(rows, p, b, k)
    ensures Gain(a, b, k) > 0 ==> Normalized(rows, p, a, k) > Normalized(rows, p, b, k)
  {
    MetricInRange(rows, a, k);
    MetricInRange(rows, b, k);
    NormalMonotone(Metric(a, k), Metric(b, k), Extreme(rows, k, false), Extreme(rows, k, true), k,
                   k in a.estimated, k in b.estimated, p);
  }

  // No eligible candidate is scored with a discount.
  ghost predicate Undiscounted(rows: seq<Candidate>, p: Policy) {
    p.estimatedDiscount == 0.0 ||
    forall c, k | c in rows && c.eligible && Weight(p, k) > 0.0 && k in c.metrics :: k !in c.estimated
  }

  // Termwise at least as good, and better in one objective, is better in the sum.
  lemma {:induction false} UtilityMonotone(rows: seq<Candidate>, p: Policy, total: real, a: Candidate, b: Candidate,
      ks: seq<Objective>)
    requires total != 0.0
    requires forall k :: Term(rows, p, total, a, k) >= Term(rows, p, total, b, k)
    ensures Utility(rows, p, total, a, ks) >= Utility(rows, p, total, b, ks)
    ensures (exists k :: k in ks && Term(rows, p, total, a, k) > Term(rows, p, total, b, k)) ==>
      Utility(rows, p, total, a, ks) > Utility(rows, p, total, b, ks)
    decreases |ks|
  {
    if ks != [] {
      UtilityMonotone(rows, p, total, a, b, ks[1..]);
      assert forall k | k in ks :: k == ks[0] || k in ks[1..];
    }
  }

  lemma ScaledMonotone(weight: real, total: real, x: real, y: real)
    requires weight > 0.0 && total > 0.0
    ensures x <= y ==> Scaled(weight, total, x) <= Scaled(weight, total, y)
    ensures x < y ==> Scaled(weight, total, x) < Scaled(weight, total, y)
  {
    var share := weight / total;
    assert share > 0.0;
    ScaleUp(share, x, y);
  }

  lemma ScaleUp(share: real, x: real, y: real)
    requires share > 0.0
    ensures x <= y ==> share * x <= share * y
    ensures x < y ==> share * x < share * y
  {
  }

  lemma TermMonotone(rows: seq<Candidate>, p: Policy, total: real, a: Candidate, b: Candidate, k: Objective)
    requires total > 0.0
    ensures Normalized(rows, p, a, k) >= Normalized(rows, p, b, k) ==>
        Term(rows, p, total, a, k) >= Term(rows, p, total, b, k)
    ensures Weight(p, k) > 0.0 && Normalized(rows, p, a, k) > Normalized(rows, p, b, k) ==>
      Term(rows, p, total, a, k) > Term(rows, p, total, b, k)
  {
    if Weight(p, k) > 0.0 {
      ScaledMonotone(Weight(p, k), total, Normalized(rows, p, b, k), Normalized(rows, p, a, k));
    }
  }

  lemma GainRaisesTerm(rows: seq<Candidate>, p: Policy, total: real, a: Candidate, b: Candidate, k: Objective)
    requires Valid(p) && Undiscounted(rows, p) && total > 0.0
    requires a in rows && b in rows && a.eligible && b.eligible && Weight(p, k) > 0.0
    ensures Gain(a, b, k) >= 0 ==> Term(rows, p, total, a, k) >= Term(rows, p, total, b, k)
    ensures Gain(a, b, k) > 0 ==> Term(rows, p, total, a, k) > Term(rows, p, total, b, k)
  {
    GainRaisesNormalized(rows, p, a, b, k);
    TermMonotone(rows, p, total, a, b, k);
  }

  lemma DominanceRaisesUtility(rows: seq<Candidate>, p: Policy, total: real, a: Candidate, b: Candidate)
    requires Valid(p) && Undiscounted(rows, p) && total > 0.0
    requires a in rows && b in rows && a.eligible && b.eligible && Dominates(p, a, b)
    ensures Utility(rows, p, total, a, OBJECTIVES) > Utility(rows, p, total, b, OBJECTIVES)
  {
    forall k
      ensures Term(rows, p, total, a, k) >= Term(rows, p, total, b, k)
    {
      if Weight(p, k) > 0.0 {
        GainRaisesTerm(rows, p, total, a, b, k);
      }
    }
    var k :| Weight(p, k) > 0.0 && Gain(a, b, k) > 0;
    GainRaisesTerm(rows, p, total, a, b, k);
    assert OBJECTIVES[Index(k)] == k;
    UtilityMonotone(rows, p, total, a, b, OBJECTIVES);
  }

  /** The first eligible candidate is Pareto-efficient whenever no weighted metric that decides the
      ranking is discounted as estimated. */
  lemma WinnerIsEfficient(rows: seq<Candidate>, p: Policy, out: seq<Scored>)
    requires Valid(p) && IsRanking(rows, p, out) && Undiscounted(rows, p)
    requires out != [] && out[0].candidate.eligible
    ensures out[0].pareto && Efficient(rows, p, out[0].candidate)
  {
    hide Dominates, Utility, Undiscounted;
    SameElements(out, Scores(rows, p, rows));
    var winner := out[0].candidate;
    assert out[0] in Scores(rows, p, rows);
    var w :| 0 <= w < |rows| && Scores(rows, p, rows)[w] == out[0];
    forall other | other in rows && other.eligible && other.id != winner.id
      ensures !Dominates(p, other, winner)
    {
      var i :| 0 <= i < |rows| && rows[i] == other;
      assert Scores(rows, p, rows)[i] in out;
      var j :| 0 <= j < |out| && out[j] == Score(rows, p, other);
      assert j == 0 || Before(out[0], out[j]);
      if Dominates(p, other, winner) {
        DominanceRaisesUtility(rows, p, TotalWeight(p), other, winner);
        assert false;
      }
    }
  }

  // The metrics taken from observations, the only ones that the assessment may label as estimated.
  const OBSERVED := {Latency, Throughput, Reliability}

  const FRACTIONS := {Quality, Privacy, Reliability, Capability}

  // What the assessment makes of a deployment.
  ghost predicate Assessed(c: Candidate) {
    && c.estimated <= OBSERVED && c.estimated <= c.metrics.Keys
    && (forall k | k in c.metrics :: c.metrics[k] >= 0.0 && (k in FRACTIONS ==> c.metrics[k] <= 1.0))
  }

  ghost predicate Wins(rows: seq<Candidate>, p: Policy, out: seq<Scored>)
    requires Valid(p)
  {
    && DistinctIds(rows) && (forall c | c in rows :: Assessed(c))
    && IsRanking(rows, p, out) && out != [] && out[0].candidate.eligible
  }

  ghost predicate WinnersEfficient(p: Policy)
    requires Valid(p)
  {
    forall rows: seq<Candidate>, out: seq<Scored> | Wins(rows, p, out) :: out[0].pareto
  }

  // No metric that may be estimated counts.
  ghost predicate ObservationsIdle(p: Policy) {
    forall k | k in OBSERVED :: Weight(p, k) == 0.0
  }

  lemma IdleIsUndiscounted(rows: seq<Candidate>, p: Policy)
    requires p.estimatedDiscount == 0.0 || ObservationsIdle(p)
    requires forall c | c in rows :: Assessed(c)
    ensures Undiscounted(rows, p)
  {
    if p.estimatedDiscount != 0.0 {
      forall c, k | c in rows && c.eligible && Weight(p, k) > 0.0 && k in c.metrics
        ensures k !in c.estimated
      {
        assert Assessed(c);
      }
    }
  }

  /** With a discount on a metric that counts the winner may be dominated, for every discount and
      every weight: take three candidates that differ in that metric, of which the best is only
      estimated. So the winner of every assessed candidate list is efficient exactly when there is
      no discount or when none of the metrics that can be estimated has any weight. */
  lemma WinnersEfficientExactly(p: Policy)
    requires Valid(p)
    ensures WinnersEfficient(p) <==> p.estimatedDiscount == 0.0 || ObservationsIdle(p)
  {
    hide Undiscounted, Assessed, IsRanking;
    if p.estimatedDiscount == 0.0 || ObservationsIdle(p) {
      forall rows: seq<Candidate>, out: seq<Scored> | Wins(rows, p, out)
        ensures out[0].pareto
      {
        IdleIsUndiscounted(rows, p);
        WinnerIsEfficient(rows, p, out);
      }
    } else {
      var k :| k in OBSERVED && Weight(p, k) != 0.0;
      var rows := Trio(k, p.estimatedDiscount);
      var out := Arrange(Scores(rows, p, rows));
      RankingBySorting(rows, p, out);
      TrioWinner(p, k, out);
    }
  }

  /** So the cheapest deployment that a stage starts with before it escalates is never dominated,
      whatever the discount. */
  lemma CheapestIsEfficient(p: Policy)
    requires Valid(p) && p.weights == map[Cost := 1.0]
    ensures WinnersEfficient(p)
  {
    hide WinnersEfficient;
    WinnersEfficientExactly(p);
  }

  lemma RankingBySorting(rows: seq<Candidate>, p: Policy, out: seq<Scored>)
    requires Valid(p) && Sorted(out) && multiset(out) == multiset(Scores(rows, p, rows))
    ensures IsRanking(rows, p, out)
  {
  }

  lemma Arrange(scores: seq<Scored>) returns (out: seq<Scored>)
    ensures Sorted(out) && multiset(out) == multiset(scores)
  {
    if scores == [] {
      out := [];
    } else {
      var rest := Arrange(scores[1..]);
      InsertKeepsOrder(scores[0], rest);
      out := Sorting.Insert(scores[0], rest, Before);
      assert scores == [scores[0]] + scores[1..];
    }
  }

  // The best value is estimated, the second differs from it by half the discount.
  function Trio(k: Objective, discount: real): seq<Candidate> {
    var worst := if LowerIsBetter(k) then 1.0 else 0.0;
    var best := 1.0 - worst;
    var second := if LowerIsBetter(k) then discount / 2.0 else 1.0 - discount / 2.0;
    [Candidate(0, true, map[k := best], {k}),
     Candidate(1, true, map[k := second], {}),
     Candidate(2, true, map[k := worst], {})]
  }

  lemma ExtremeIs(rows: seq<Candidate>, k: Objective, v: real, high: bool)
    requires Known(rows, k, v)
    requires forall u | Known(rows, k, u) :: if high then u <= v else v <= u
    ensures Extreme(rows, k, high) == Some(v)
  {
  }

  lemma TrioExtremes(k: Objective, discount: real)
    requires 0.0 < discount <= 1.0
    ensures Extreme(Trio(k, discount), k, false) == Some(0.0)
    ensures Extreme(Trio(k, discount), k, true) == Some(1.0)
  {
    hide Trio, Known, Extreme;
    TrioKnown(k, discount);
    TrioRange(k, discount);
    ExtremeIs(Trio(k, discount), k, 0.0, false);
    ExtremeIs(Trio(k, discount), k, 1.0, true);
  }

  lemma TrioKnown(k: Objective, discount: real)
    ensures Known(Trio(k, discount), k, 0.0) && Known(Trio(k, discount), k, 1.0)
  {
    var rows := Trio(k, discount);
    assert rows[0] in rows && Metric(rows[0], k) == Some(rows[0].metrics[k]);
    assert rows[2] in rows && Metric(rows[2], k) == Some(rows[2].metrics[k]);
  }

  lemma TrioRange(k: Objective, discount: real)
    requires 0.0 < discount <= 1.0
    ensures forall u | Known(Trio(k, discount), k, u) :: 0.0 <= u <= 1.0
  {
    hide LowerIsBetter;
    var rows := Trio(k, discount);
    forall u | Known(rows, k, u)
      ensures 0.0 <= u <= 1.0
    {
      var c :| c in rows && c.eligible && Metric(c, k) == Some(u);
    }
  }

  function TrioScore(discount: real, i: nat): real {
    if i == 0 then 1.0 - discount else if i == 1 then 1.0 - discount / 2.0 else 0.0
  }

  lemma TrioNormalized(p: Policy, k: Objective, i: nat)
    requires 0.0 < p.estimatedDiscount <= 1.0 && i < 3
    ensures
      var rows := Trio(k, p.estimatedDiscount);
      Normalized(rows, p, rows[i], k) == TrioScore(p.estimatedDiscount, i)
  {
    var d := p.estimatedDiscount;
    var c := Trio(k, d)[i];
    var n := if i == 0 then 1.0 else TrioScore(d, i);
    TrioExtremes(k, d);
    assert Metric(c, k) == Some(if LowerIsBetter(k) then 1.0 - n else n);
    assert (k in c.estimated) == (i == 0);
    NormalUnit(p, LowerIsBetter(k), n, i == 0);
  }

  // On the range from 0 to 1 normalization only turns a cost or a latency around.
  lemma NormalUnit(p: Policy, reversed: bool, n: real, estimated: bool)
    ensures Normal(Some(if reversed then 1.0 - n else n), Some(0.0), Some(1.0), reversed, estimated, p)
         == if estimated then n * (1.0 - p.estimatedDiscount) else n
  {
  }

  lemma TrioDominates(p: Policy, k: Objective)
    requires 0.0 < p.estimatedDiscount && Weight(p, k) > 0.0
    ensures
      var rows := Trio(k, p.estimatedDiscount);
      Dominates(p, rows[0], rows[1])
  {
    var rows := Trio(k, p.estimatedDiscount);
    var a, b := rows[0], rows[1];
    assert Metric(a, k) == Some(a.metrics[k]) && Metric(b, k) == Some(b.metrics[k]);
    assert Gain(a, b, k) > 0;
    forall j | j != k
      ensures Gain(a, b, j) == 0
    {
      assert Metric(a, j) == Metric(b, j) == None;
    }
  }

  // In another metric the trio does not differ.
  lemma TrioElsewhere(p: Policy, k: Objective, i: nat, j: Objective)
    requires i < 3 && j != k
    ensures
      var rows := Trio(k, p.estimatedDiscount);
      Normalized(rows, p, rows[1], j) == Normalized(rows, p, rows[i], j)
  {
    var rows := Trio(k, p.estimatedDiscount);
    assert Metric(rows[1], j) == Metric(rows[i], j) == None;
  }

  // The second of the trio has the highest utility.
  lemma TrioUtility(p: Policy, k: Objective, total: real, i: nat)
    requires 0.0 < p.estimatedDiscount <= 1.0 && Weight(p, k) > 0.0 && total > 0.0
    requires i == 0 || i == 2
    ensures
      var rows := Trio(k, p.estimatedDiscount);
      Utility(rows, p, total, rows[1], OBJECTIVES) > Utility(rows, p, total, rows[i], OBJECTIVES)
  {
    hide Trio, Term, Normalized, Utility;
    var rows := Trio(k, p.estimatedDiscount);
    TrioLength(k, p.estimatedDiscount);
    TrioNormalized(p, k, 1);
    TrioNormalized(p, k, i);
    assert OBJECTIVES[Index(k)] == k;
    forall j
      ensures Term(rows, p, total, rows[1], j) >= Term(rows, p, total, rows[i], j)
    {
      TermMonotone(rows, p, total, rows[1], rows[i], j);
      if j != k {
        TrioElsewhere(p, k, i, j);
      }
    }
    TermMonotone(rows, p, total, rows[1], rows[i], k);
    UtilityMonotone(rows, p, total, rows[1], rows[i], OBJECTIVES);
  }

  lemma TrioLength(k: Objective, discount: real)
    ensures
      var rows := Trio(k, discount);
      |rows| == 3 && forall i | 0 <= i < 3 :: rows[i].eligible && rows[i].id == i
  {
  }

  lemma TrioFirst(p: Policy, k: Objective, out: seq<Scored>)
    requires Valid(p) && p.estimatedDiscount > 0.0 && Weight(p, k) > 0.0
    requires IsRanking(Trio(k, p.estimatedDiscount), p, out)
    ensures
      var rows := Trio(k, p.estimatedDiscount);
      out != [] && out[0] == Score(rows, p, rows[1])
  {
    hide Utility, Trio, TotalWeight;
    var rows := Trio(k, p.estimatedDiscount);
    TrioLength(k, p.estimatedDiscount);
    var scores := Scores(rows, p, rows);
    TrioUtility(p, k, TotalWeight(p), 0);
    TrioUtility(p, k, TotalWeight(p), 2);
    SameElements(out, scores);
    assert scores[1] in out && out[0] in scores;
    var i :| 0 <= i < |out| && out[i] == scores[1];
    FirstIsBefore(out, i);
    var j :| 0 <= j < 3 && scores[j] == out[0];
  }

  lemma TrioAssessed(k: Objective, discount: real)
    requires k in OBSERVED && 0.0 <= discount <= 1.0
    ensures forall c | c in Trio(k, discount) :: Assessed(c)
  {
  }

  lemma TrioWinner(p: Policy, k: Objective, out: seq<Scored>)
    requires Valid(p) && p.estimatedDiscount > 0.0 && Weight(p, k) > 0.0 && k in OBSERVED
    requires IsRanking(Trio(k, p.estimatedDiscount), p, out)
    ensures !WinnersEfficient(p)
  {
    hide Trio, IsRanking, Assessed, Dominates, Utility, TotalWeight;
    var rows := Trio(k, p.estimatedDiscount);
    TrioLength(k, p.estimatedDiscount);
    TrioAssessed(k, p.estimatedDiscount);
    TrioFirst(p, k, out);
    TrioDominates(p, k);
    assert rows[0] in rows && !Efficient(rows, p, rows[1]);
    assert Wins(rows, p, out) && !out[0].pareto;
  }
}

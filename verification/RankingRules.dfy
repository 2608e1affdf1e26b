/**
 What a ranking says of each candidate: its utility as a weighted mean, and dominance metric by metric.
 */
module RankingRules {
  import opened Basics
  import opened Ranking
  import Sorting

  // The lowest and the highest value that an eligible candidate has for the metric.
  ghost predicate IsLowest(rows: seq<Candidate>, k: Objective, low: real) {
    Known(rows, k, low) && forall v | Known(rows, k, v) :: low <= v
  }

  ghost predicate IsHighest(rows: seq<Candidate>, k: Objective, high: real) {
    Known(rows, k, high) && forall v | Known(rows, k, v) :: v <= high
  }

  // What a metric contributes: below any known value if it is unknown, and otherwise its place between
  // the worst and the best value, less the discount if it is only estimated.
  ghost predicate IsPart(rows: seq<Candidate>, p: Policy, c: Candidate, k: Objective, n: real) {
    && (k !in c.metrics ==> n == -p.unknownPenalty - 0.001)
    && (k in c.metrics ==> forall low, high | IsLowest(rows, k, low) && IsHighest(rows, k, high) ::
          InPlace(c.metrics[k], low, high, k == Cost || k == Latency,
                  if k in c.estimated then 1.0 - p.estimatedDiscount else 1.0, n))
  }

  // On the scale from the worst to the best value.
  predicate InPlace(v: real, low: real, high: real, lowerIsBetter: bool, keep: real, n: real) {
    if low == high then n == keep
    else n * (high - low) == keep * (if lowerIsBetter then high - v else v - low)
  }

  // The mean of the parts by the weights of the policy.
  ghost predicate IsMean(p: Policy, parts: map<Objective, real>, u: real) {
    && parts.Keys == {Quality, Latency, Cost, Throughput, Privacy, Reliability, Capability}
    && u * (Weight(p, Quality) + Weight(p, Latency) + Weight(p, Cost) + Weight(p, Throughput) + Weight(p, Privacy)
            + Weight(p, Reliability) + Weight(p, Capability))
       == Weight(p, Quality) * parts[Quality] + Weight(p, Latency) * parts[Latency] + Weight(p, Cost) * parts[Cost]
          + Weight(p, Throughput) * parts[Throughput] + Weight(p, Privacy) * parts[Privacy]
          + Weight(p, Reliability) * parts[Reliability] + Weight(p, Capability) * parts[Capability]
  }

  lemma ExtremesExactly(rows: seq<Candidate>, k: Objective, low: real, high: real)
    requires IsLowest(rows, k, low) && IsHighest(rows, k, high)
    ensures Extreme(rows, k, false) == Some(low) && Extreme(rows, k, true) == Some(high)
  {
    hide Known;
  }

  lemma ScaleInPlace(v: real, low: real, high: real)
    requires low != high
    ensures Scale(v, low, high) * (high - low) == v - low
  {
  }

  lemma Product(keep: real, n: real, d: real, x: real)
    requires n * d == x
    ensures n * keep * d == keep * x && keep * (1.0 - n) * d == keep * (d - x) && (1.0 - n) * keep * d == keep * (d - x)
  {
    assert n * keep * d == keep * (n * d);
    assert (1.0 - n) * d == d - n * d;
    assert keep * (1.0 - n) * d == keep * ((1.0 - n) * d);
    assert (1.0 - n) * keep * d == keep * ((1.0 - n) * d);
  }

  lemma NormalInPlace(v: real, low: real, high: real, reversed: bool, estimated: bool, p: Policy)
    ensures InPlace(v, low, high, reversed, if estimated then 1.0 - p.estimatedDiscount else 1.0,
        Normal(Some(v), Some(low), Some(high), reversed, estimated, p))
  {
    if low != high {
      hide Scale;
      ScaleInPlace(v, low, high);
      var keep := if estimated then 1.0 - p.estimatedDiscount else 1.0;
      Product(keep, Scale(v, low, high), high - low, v - low);
    }
  }

  lemma NormalizedIsPart(rows: seq<Candidate>, p: Policy, c: Candidate, k: Objective)
    ensures IsPart(rows, p, c, k, Normalized(rows, p, c, k))
  {
    hide Known, InPlace;
    forall low, high | k in c.metrics && IsLowest(rows, k, low) && IsHighest(rows, k, high)
      ensures InPlace(c.metrics[k], low, high, k == Cost || k == Latency,
                if k in c.estimated then 1.0 - p.estimatedDiscount else 1.0, Normalized(rows, p, c, k))
    {
      ExtremesExactly(rows, k, low, high);
      NormalInPlace(c.metrics[k], low, high, k == Cost || k == Latency, k in c.estimated, p);
    }
  }

  lemma TermScales(rows: seq<Candidate>, p: Policy, total: real, c: Candidate, k: Objective)
    requires Valid(p) && total > 0.0
    ensures Term(rows, p, total, c, k) * total == Weight(p, k) * Normalized(rows, p, c, k)
  {
    hide Normalized;
    if Weight(p, k) > 0.0 {
      ScaledBack(Weight(p, k), total, Normalized(rows, p, c, k));
    }
  }

  lemma ScaledBack(weight: real, total: real, n: real)
    requires total > 0.0
    ensures Scaled(weight, total, n) * total == weight * n
  {
    var share := weight / total;
    assert share * total == weight;
    assert share * n * total == (share * total) * n;
  }

  lemma {:induction false} UtilityScales(rows: seq<Candidate>, p: Policy, total: real, c: Candidate, ks: seq<Objective>)
    requires Valid(p) && total > 0.0
    ensures Utility(rows, p, total, c, ks) * total == Weighted(rows, p, c, ks)
    decreases |ks|
  {
    hide Term, Weight, Normalized;
    if ks != [] {
      TermScales(rows, p, total, c, ks[0]);
      UtilityScales(rows, p, total, c, ks[1..]);
      var a, b := Term(rows, p, total, c, ks[0]), Utility(rows, p, total, c, ks[1..]);
      assert (a + b) * total == a * total + b * total;
    }
  }

  function Weighted(rows: seq<Candidate>, p: Policy, c: Candidate, ks: seq<Objective>): real {
    if ks == [] then 0.0 else Weight(p, ks[0]) * Normalized(rows, p, c, ks[0]) + Weighted(rows, p, c, ks[1..])
  }

  lemma AllWeighted(rows: seq<Candidate>, p: Policy, c: Candidate, parts: map<Objective, real>)
    requires parts.Keys == {Quality, Latency, Cost, Throughput, Privacy, Reliability, Capability}
    requires forall k :: k in parts && parts[k] == Normalized(rows, p, c, k)
    ensures Weighted(rows, p, c, OBJECTIVES)
         == Weight(p, Quality) * parts[Quality] + Weight(p, Latency) * parts[Latency] + Weight(p, Cost) * parts[Cost]
            + Weight(p, Throughput) * parts[Throughput] + Weight(p, Privacy) * parts[Privacy]
            + Weight(p, Reliability) * parts[Reliability] + Weight(p, Capability) * parts[Capability]
  {
    hide Normalized, Weight;
    var a, b, c_ := OBJECTIVES[1..], OBJECTIVES[2..], OBJECTIVES[3..];
    var d, e, f := OBJECTIVES[4..], OBJECTIVES[5..], OBJECTIVES[6..];
    assert a[1..] == b && b[1..] == c_ && c_[1..] == d && d[1..] == e && e[1..] == f && f[1..] == [];
    assert Weighted(rows, p, c, f) == Weight(p, Capability) * parts[Capability];
    assert Weighted(rows, p, c, e) == Weight(p, Reliability) * parts[Reliability] + Weighted(rows, p, c, f);
    assert Weighted(rows, p, c, d) == Weight(p, Privacy) * parts[Privacy] + Weighted(rows, p, c, e);
    assert Weighted(rows, p, c, c_) == Weight(p, Throughput) * parts[Throughput] + Weighted(rows, p, c, d);
    assert Weighted(rows, p, c, b) == Weight(p, Cost) * parts[Cost] + Weighted(rows, p, c, c_);
    assert Weighted(rows, p, c, a) == Weight(p, Latency) * parts[Latency] + Weighted(rows, p, c, b);
  }

  lemma AllTotal(p: Policy)
    ensures TotalWeight(p)
         == Weight(p, Quality) + Weight(p, Latency) + Weight(p, Cost) + Weight(p, Throughput) + Weight(p, Privacy)
            + Weight(p, Reliability) + Weight(p, Capability)
  {
    hide Weight;
    var a, b, c := OBJECTIVES[1..], OBJECTIVES[2..], OBJECTIVES[3..];
    var d, e, f := OBJECTIVES[4..], OBJECTIVES[5..], OBJECTIVES[6..];
    assert a[1..] == b && b[1..] == c && c[1..] == d && d[1..] == e && e[1..] == f && f[1..] == [];
    assert Total(p, f) == Weight(p, Capability);
    assert Total(p, e) == Weight(p, Reliability) + Total(p, f);
    assert Total(p, d) == Weight(p, Privacy) + Total(p, e);
    assert Total(p, c) == Weight(p, Throughput) + Total(p, d);
    assert Total(p, b) == Weight(p, Cost) + Total(p, c);
    assert Total(p, a) == Weight(p, Latency) + Total(p, b);
  }

  /** The utility of a candidate is the mean of what its metrics contribute, by the weights of the policy. */
  lemma UtilityExactly(rows: seq<Candidate>, p: Policy, c: Candidate) returns (parts: map<Objective, real>)
    requires Valid(p)
    ensures IsMean(p, parts, Utility(rows, p, TotalWeight(p), c, OBJECTIVES))
    ensures forall k | k in parts :: IsPart(rows, p, c, k, parts[k])
  {
    hide IsPart, Normalized, Weight, Utility;
    var all := {Quality, Latency, Cost, Throughput, Privacy, Reliability, Capability};
    parts := map k | k in all :: Normalized(rows, p, c, k);
    forall k: Objective
      ensures k in all
    {
      assert k == OBJECTIVES[Index(k)];
    }
    UtilityScales(rows, p, TotalWeight(p), c, OBJECTIVES);
    AllWeighted(rows, p, c, parts);
    AllTotal(p);
    forall k | k in parts
      ensures IsPart(rows, p, c, k, parts[k])
    {
      NormalizedIsPart(rows, p, c, k);
    }
  }

  // At least as good in every metric that counts, an unknown one being the worst, and better in one.
  ghost predicate Beats(p: Policy, a: Candidate, b: Candidate) {
    && (forall k | Weight(p, k) > 0.0 && k in b.metrics ::
          k in a.metrics && (if k == Cost || k == Latency then a.metrics[k] <= b.metrics[k]
                             else a.metrics[k] >= b.metrics[k]))
    && (exists k :: Weight(p, k) > 0.0 && k in a.metrics && (k in b.metrics ==> a.metrics[k] != b.metrics[k]))
  }

  lemma GainExactly(a: Candidate, b: Candidate, k: Objective)
    ensures Gain(a, b, k) >= 0 <==>
      (k in b.metrics ==> k in a.metrics && (if k == Cost || k == Latency then a.metrics[k] <= b.metrics[k]
                                             else a.metrics[k] >= b.metrics[k]))
    ensures Gain(a, b, k) >= 0 ==>
      (Gain(a, b, k) > 0 <==> k in a.metrics && (k in b.metrics ==> a.metrics[k] != b.metrics[k]))
  {
  }

  lemma DominatesExactly(p: Policy, a: Candidate, b: Candidate)
    ensures Dominates(p, a, b) <==> Beats(p, a, b)
  {
    hide Weight, Gain;
    forall k
      ensures Gain(a, b, k) >= 0 <==>
        (k in b.metrics ==> k in a.metrics && (if k == Cost || k == Latency then a.metrics[k] <= b.metrics[k]
                                               else a.metrics[k] >= b.metrics[k]))
      ensures Gain(a, b, k) >= 0 ==>
        (Gain(a, b, k) > 0 <==> k in a.metrics && (k in b.metrics ==> a.metrics[k] != b.metrics[k]))
    {
      GainExactly(a, b, k);
    }
  }

  // What a ranking says of one candidate.
  ghost predicate IsAssessed(rows: seq<Candidate>, p: Policy, s: Scored) {
    && s.candidate in rows
    && (!s.candidate.eligible ==> s.utility.None? && !s.pareto)
    && (s.candidate.eligible ==>
          && s.utility.Some?
          && (s.pareto <==> forall other | other in rows && other.eligible && other.id != s.candidate.id ::
                !Beats(p, other, s.candidate))
          && exists parts :: IsMean(p, parts, s.utility.value)
               && forall k | k in parts :: IsPart(rows, p, s.candidate, k, parts[k]))
  }

  // Eligible candidates first, by falling utility and then by identifier; the others by identifier.
  predicate InOrder(a: Scored, b: Scored) {
    && (b.candidate.eligible ==> a.candidate.eligible)
    && (a.candidate.eligible && b.candidate.eligible && a.utility.Some? && b.utility.Some? ==>
          a.utility.value > b.utility.value
          || (a.utility.value == b.utility.value && a.candidate.id <= b.candidate.id))
    && (!a.candidate.eligible && !b.candidate.eligible && a.utility.None? && b.utility.None? ==>
          a.candidate.id <= b.candidate.id)
  }

  lemma ScoreIsAssessed(rows: seq<Candidate>, p: Policy, c: Candidate)
    requires Valid(p) && c in rows
    ensures IsAssessed(rows, p, Score(rows, p, c))
  {
    hide Utility, IsMean, IsPart, Beats, Dominates;
    if c.eligible {
      var parts := UtilityExactly(rows, p, c);
      forall other
        ensures Dominates(p, other, c) <==> Beats(p, other, c)
      {
        DominatesExactly(p, other, c);
      }
      assert Efficient(rows, p, c) <==>
             forall other | other in rows && other.eligible && other.id != c.id :: !Beats(p, other, c);
    }
  }

  /** A ranking holds every candidate once, with its utility and whether no other beats it, in order. */
  lemma RankedExactly(rows: seq<Candidate>, p: Policy, out: seq<Scored>)
    requires Valid(p) && IsRanking(rows, p, out)
    ensures |out| == |rows| && forall i | 0 <= i < |out| :: IsAssessed(rows, p, out[i])
    ensures forall c | c in rows :: exists i :: 0 <= i < |out| && out[i].candidate == c
    ensures forall i, j | 0 <= i < j < |out| :: InOrder(out[i], out[j])
  {
    hide IsAssessed, Score;
    var scores := Scores(rows, p, rows);
    SameElements(out, scores);
    forall i | 0 <= i < |out|
      ensures IsAssessed(rows, p, out[i])
    {
      assert out[i] in scores;
      var j :| 0 <= j < |scores| && scores[j] == out[i];
      ScoreIsAssessed(rows, p, rows[j]);
    }
    forall c | c in rows
      ensures exists i :: 0 <= i < |out| && out[i].candidate == c
    {
      var j :| 0 <= j < |rows| && rows[j] == c;
      assert scores[j] in out;
    }
  }
}

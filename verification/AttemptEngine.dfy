/**
 One stage of a run: what an attempt may cost at most, and the bounded loop of pinned fallbacks and
 repairs.

 Everything the outside world decides about an attempt is an oracle, indexed by the attempt's
 number: whether the circuit or a ledger stops it before anything is reserved, how it ends, and how
 long the prompt of a repair after it would be. Prices are exact reals.
 */
module AttemptEngine {
  import opened Basics
  import opened Failures

  // ----- the cost bound -----

  datatype Component = Prompt | Completion | Request | Other(name: string)
  datatype Unit = Token | PerRequest | Image | Search | UnknownUnit

  datatype Price = Price(component: Component, amount: real, usd: bool, unit: Unit)

  datatype Target =
    | Local
    | Endpoint(prices: seq<Price>, unconditional: bool)

  const MICRO: real := 1000000.0

  function Times(rate: real, tokens: nat): real { rate * tokens as real }

  // What one price adds to the bound; None where the source refuses the target.
  function Charge(p: Price, input: nat, output: nat): Option<real> {
    if !p.usd then None
    else if p.component == Prompt && p.unit == Token then Some(Times(p.amount, input))
    else if p.component == Completion && p.unit == Token then Some(Times(p.amount, output))
    else if p.component == Request && p.unit == PerRequest then if p.amount != 0.0 then None else Some(0.0)
    else if p.amount != 0.0 || p.unit == UnknownUnit then None
    else Some(0.0)
  }

  function Charges(prices: seq<Price>, input: nat, output: nat): Option<real> {
    if prices == [] then Some(0.0)
    else Both(Charge(prices[0], input, output), Charges(prices[1..], input, output))
  }

  function Components(prices: seq<Price>): set<Component> {
    set i | 0 <= i < |prices| :: prices[i].component
  }

  predicate Priced(t: Target) {
    t.Endpoint? && |Components(t.prices)| == |t.prices| && {Prompt, Completion, Request} <= Components(t.prices)
        && t.unconditional
  }

  // Prices are nonnegative by the contract of a price record.
  ghost predicate ValidTarget(t: Target) {
    t.Endpoint? ==> forall i | 0 <= i < |t.prices| :: t.prices[i].amount >= 0.0
  }

  function CostBound(t: Target, input: nat, output: nat): Option<int> {
    if t.Local? then Some(0)
    else if !Priced(t) then None
    else
      match Charges(t.prices, input, output)
      case Some(total) => Some(Ceil(total * MICRO))
      case None => None
  }

  method BoundCost(t: Target, input: nat, output: nat) returns (bound: Option<int>)
    ensures bound == CostBound(t, input, output)
  {
    if t.Local? {
      return Some(0);
    }
    if !Priced(t) {
      return None;
    }
    var total := 0.0;
    ghost var all := Charges(t.prices, input, output);
    for i := 0 to |t.prices|
      invariant all == Plus(total, Charges(t.prices[i..], input, output))
    {
      var p := t.prices[i];
      ghost var rest := Charges(t.prices[i + 1..], input, output);
      assert t.prices[i..][0] == p && t.prices[i..][1..] == t.prices[i + 1..];
      PlusTwice(total, Charge(p, input, output), rest);
      if !p.usd {
        return None;
      } else if (p.component == Prompt || p.component == Completion) && p.unit == Token {
        total := total + Times(p.amount, if p.component == Prompt then input else output);
      } else if p.component == Request && p.unit == PerRequest {
        if p.amount != 0.0 {
          return None;
        }
      } else if p.amount != 0.0 || p.unit == UnknownUnit {
        return None;
      }
    }
    bound := Some(Ceil(total * MICRO));
  }

  function Plus(x: real, y: Option<real>): Option<real> {
    if y.None? then None else Some(x + y.value)
  }

  function Both(x: Option<real>, y: Option<real>): Option<real> {
    if x.None? || y.None? then None else Some(x.value + y.value)
  }

  lemma PlusTwice(total: real, x: Option<real>, y: Option<real>)
    ensures Plus(total, Both(x, y)) == if x.Some? then Plus(total + x.value, y) else None
  {
  }

  function RateOf(prices: seq<Price>, c: Component): real {
    if prices == [] then 0.0
    else TokenRate(prices[0], c) + RateOf(prices[1..], c)
  }

  lemma {:induction false} ChargesClosed(prices: seq<Price>, input: nat, output: nat)
    ensures
      var total := Charges(prices, input, output);
      total.Some? ==> total.value == Times(RateOf(prices, Prompt), input) + Times(RateOf(prices, Completion), output)
    decreases |prices|
  {
    hide Times;
    if prices != [] {
      ChargesClosed(prices[1..], input, output);
      var p := prices[0];
      Distribute(p, Prompt, RateOf(prices[1..], Prompt), input);
      Distribute(p, Completion, RateOf(prices[1..], Completion), output);
    } else {
      NothingTimes(input);
      NothingTimes(output);
    }
  }

  function TokenRate(p: Price, c: Component): real {
    if p.component == c && p.unit == Token then p.amount else 0.0
  }

  lemma Distribute(p: Price, c: Component, rest: real, tokens: nat)
    ensures Times(TokenRate(p, c) + rest, tokens)
      == (if p.component == c && p.unit == Token then Times(p.amount, tokens) else 0.0) + Times(rest, tokens)
  {
    var x, z := TokenRate(p, c), tokens as real;
    assert (x + rest) * z == x * z + rest * z;
  }

  lemma NothingTimes(tokens: nat)
    ensures Times(0.0, tokens) == 0.0
  {
  }

  lemma {:induction false} ChargesSome(prices: seq<Price>, input: nat, output: nat, input': nat, output': nat)
    ensures Charges(prices, input, output).Some? <==> Charges(prices, input', output').Some?
    decreases |prices|
  {
    if prices != [] {
      ChargesSome(prices[1..], input, output, input', output');
    }
  }

  lemma {:induction false} RateNonnegative(prices: seq<Price>, c: Component)
    requires forall i | 0 <= i < |prices| :: prices[i].amount >= 0.0
    ensures RateOf(prices, c) >= 0.0
    decreases |prices|
  {
    if prices != [] {
      RateNonnegative(prices[1..], c);
    }
  }

  /** The bound is the two token rates times the token counts, rounded up to a whole micro-USD. It is
      never below that price and less than one micro-USD above it. */
  lemma CostBoundIsPrice(t: Target, input: nat, output: nat)
    requires ValidTarget(t)
    ensures
      var bound := CostBound(t, input, output);
      bound.Some? && t.Endpoint? ==>
        var price := (Times(RateOf(t.prices, Prompt), input) + Times(RateOf(t.prices, Completion), output)) * MICRO;
        bound.value >= 0 && price <= bound.value as real < price + 1.0
  {
    if t.Endpoint? && CostBound(t, input, output).Some? {
      ChargesClosed(t.prices, input, output);
      RateNonnegative(t.prices, Prompt);
      RateNonnegative(t.prices, Completion);
      TimesMonotone(RateOf(t.prices, Prompt), 0, input);
      TimesMonotone(RateOf(t.prices, Completion), 0, output);
    }
  }

  // ----- what is billed -----

  // Only the two token prices may ask for money; any other price has to be zero, in a known unit.
  predicate Bounded(p: Price) {
    p.usd && ((p.unit == Token && p.component in {Prompt, Completion}) || (p.amount == 0.0 && p.unit != UnknownUnit))
  }

  predicate Lists(prices: seq<Price>, c: Component) {
    exists i | 0 <= i < |prices| :: prices[i].component == c
  }

  /** A bound exists exactly for a local target, and for an endpoint whose unconditional price list names
      every component once, the three basic ones among them, and asks for nothing that cannot be
      bounded by the token counts. */
  lemma BoundExistsExactly(t: Target, input: nat, output: nat)
    ensures t.Local? ==> CostBound(t, input, output) == Some(0)
    ensures CostBound(t, input, output).Some? <==>
      t.Local? ||
      (&& t.unconditional && DistinctBy(t.prices, (p: Price) => p.component)
       && Lists(t.prices, Prompt) && Lists(t.prices, Completion) && Lists(t.prices, Request)
       && forall i | 0 <= i < |t.prices| :: Bounded(t.prices[i]))
  {
    if t.Endpoint? {
      ComponentsOnce(t.prices);
      ChargesExist(t.prices, input, output);
    }
  }

  lemma ComponentsOnce(prices: seq<Price>)
    ensures |Components(prices)| == |prices| <==> DistinctBy(prices, (p: Price) => p.component)
    ensures forall c :: c in Components(prices) <==> Lists(prices, c)
  {
    var names := seq(|prices|, i requires 0 <= i < |prices| => prices[i].component);
    assert ToSet(names) == Components(prices) by {
      assert forall i | 0 <= i < |prices| :: names[i] == prices[i].component;
    }
    ToSetSize(names);
    if DistinctBy(prices, (p: Price) => p.component) {
      forall i, j | 0 <= i < j < |names|
        ensures names[i] != names[j]
      {
        assert ((p: Price) => p.component)(prices[i]) == names[i];
      }
    }
    if Distinct(names) {
      forall i, j | 0 <= i < j < |prices|
        ensures prices[i].component != prices[j].component
      {
        assert names[i] != names[j];
      }
    }
  }

  lemma {:induction false} ChargesExist(prices: seq<Price>, input: nat, output: nat)
    ensures Charges(prices, input, output).Some? <==> forall i | 0 <= i < |prices| :: Bounded(prices[i])
    decreases |prices|
  {
    if prices != [] {
      ChargesExist(prices[1..], input, output);
      assert forall i | 0 < i < |prices| :: prices[i] == prices[1..][i - 1];
    }
  }

  // How much of each priced component the attempt uses; nothing is known but the token counts.
  ghost predicate Quantities(used: Price -> nat, prices: seq<Price>, input: nat, output: nat) {
    forall i | 0 <= i < |prices| && prices[i].unit == Token ::
      && (prices[i].component == Prompt ==> used(prices[i]) == input)
      && (prices[i].component == Completion ==> used(prices[i]) == output)
  }

  function Bill(prices: seq<Price>, used: Price -> nat): real {
    if prices == [] then 0.0 else Times(prices[0].amount, used(prices[0])) + Bill(prices[1..], used)
  }

  lemma {:induction false} ChargesAreBill(prices: seq<Price>, used: Price -> nat, input: nat, output: nat)
    requires Quantities(used, prices, input, output) && Charges(prices, input, output).Some?
    ensures Charges(prices, input, output) == Some(Bill(prices, used))
    decreases |prices|
  {
    hide Times;
    if prices != [] {
      assert forall i | 0 < i < |prices| :: prices[i] == prices[1..][i - 1];
      ChargesAreBill(prices[1..], used, input, output);
      NothingTimes(used(prices[0]));
    }
  }

  /** A bound covers the whole bill, every price of the list included, for whatever quantities of the
      other components, by less than one micro-USD too much. */
  lemma BoundCoversBill(t: Target, used: Price -> nat, input: nat, output: nat)
    requires t.Endpoint? && CostBound(t, input, output).Some? && Quantities(used, t.prices, input, output)
    ensures
      var bill, bound := Bill(t.prices, used) * MICRO, CostBound(t, input, output).value as real;
      bill <= bound < bill + 1.0
  {
    ChargesAreBill(t.prices, used, input, output);
  }

  lemma TimesMonotone(rate: real, x: nat, y: nat)
    requires rate >= 0.0 && x <= y
    ensures Times(rate, x) <= Times(rate, y)
  {
  }

  lemma CeilMonotone(x: real, y: real)
    requires x <= y
    ensures Ceil(x * MICRO) <= Ceil(y * MICRO)
  {
    assert x * MICRO <= y * MICRO;
  }

  /** More input never costs less, and whether a target can be priced does not depend on the counts. */
  lemma CostBoundMonotone(t: Target, input: nat, more: nat, output: nat)
    requires ValidTarget(t) && input <= more
    ensures CostBound(t, input, output).Some? <==> CostBound(t, more, output).Some?
    ensures CostBound(t, input, output).Some? ==>
      0 <= CostBound(t, input, output).value <= CostBound(t, more, output).value
  {
    if t.Endpoint? {
      ChargesSome(t.prices, input, output, more, output);
      RateNonnegative(t.prices, Prompt);
      CostBoundIsPrice(t, input, output);
      if Priced(t) && Charges(t.prices, input, output).Some? {
        ChargesMonotone(t.prices, input, more, output);
        CeilMonotone(Charges(t.prices, input, output).value, Charges(t.prices, more, output).value);
      }
    }
  }

  lemma ChargesMonotone(prices: seq<Price>, input: nat, more: nat, output: nat)
    requires input <= more && RateOf(prices, Prompt) >= 0.0
    requires Charges(prices, input, output).Some? && Charges(prices, more, output).Some?
    ensures Charges(prices, input, output).value <= Charges(prices, more, output).value
  {
    var rate := RateOf(prices, Prompt);
    ChargesClosed(prices, input, output);
    ChargesClosed(prices, more, output);
    TimesMonotone(rate, input, more);
  }

  // ----- one attempt -----

  // The fields of a stage and its budget that the loop reads. An empty set of fallback reasons
  // stands for "any".
  datatype Stage = Stage(maxCost: int, maxInput: nat, maxOutput: nat, maxAttempts: nat, maxRepairs: nat,
      fallbackOn: set<FailureKind>)

  datatype Call = Call(input: nat, maxTokens: nat, tools: bool)

  // `accepts` is what the source's preflight asks about a target besides size and price: parameters,
  // context and output limits, privacy, region.
  datatype Candidate = Candidate(target: Target, accepts: (nat, nat) -> bool)

  // The charge to reserve for this input, or None where the request is refused.
  function Preflight(stage: Stage, c: Candidate, input: nat, maxTokens: nat): Option<int> {
    var bound := CostBound(c.target, input, maxTokens);
    if input > stage.maxInput || maxTokens > stage.maxOutput || !c.accepts(input, maxTokens) then None
    else if bound.None? || bound.value > stage.maxCost then None
    else bound
  }

  // What the world answers to the attempt with a given number: `blocked` by the circuit or by a
  // ledger before anything is reserved; `failure` None for success; the size of the next prompt, if
  // the invalid output can be read back; and whether the request turns out to be cancelled.
  datatype Reply = Reply(blocked: Option<FailureKind>, failure: Option<FailureKind>, repairInput: Option<nat>,
      cancelled: bool)

  type World = nat -> Reply

  datatype Entry = Entry(candidate: nat, repairing: bool, input: nat, reserved: Option<int>,
      failure: Option<FailureKind>)

  function Attempt(stage: Stage, cs: seq<Candidate>, maxTokens: nat, at: Cursor, reply: Reply): Entry
    requires at.candidate < |cs|
  {
    var bound := Preflight(stage, cs[at.candidate], at.input, maxTokens);
    if reply.blocked.Some? then Entry(at.candidate, at.repairing, at.input, None, reply.blocked)
    else if bound.None? then Entry(at.candidate, at.repairing, at.input, None, Some(CapabilityMismatch))
    else Entry(at.candidate, at.repairing, at.input, bound, reply.failure)
  }

  // ----- the loop -----

  datatype Cursor = Cursor(candidate: nat, repairs: nat, repairing: bool, input: nat)

  datatype Outcome = Succeeded | Stopped(kind: FailureKind)

  // Where the loop goes after a failed attempt; None where it raises.
  function Next(stage: Stage, n: nat, input: nat, at: Cursor, failure: FailureKind, reply: Reply): Option<Cursor> {
    if reply.cancelled then None
    else if (failure == QualityValidation || failure == InvalidOutput) && at.repairs > 0 then
      match reply.repairInput
      case Some(size) => Some(Cursor(at.candidate, at.repairs - 1, true, size))
      case None => None
    else if stage.fallbackOn != {} && failure !in stage.fallbackOn then None
    else if at.candidate + 1 >= n then None
    else Some(Cursor(at.candidate + 1, at.repairs, false, input))
  }

  function Play(stage: Stage, cs: seq<Candidate>, call: Call, at: Cursor, index: nat, limit: nat,
      world: World): seq<Entry>
    requires at.candidate < |cs|
    decreases limit - index
  {
    if index >= limit then []
    else
      var reply := world(index);
      var entry := Attempt(stage, cs, call.maxTokens, at, reply);
      if entry.failure.None? then [entry]
      else
        match Next(stage, |cs|, call.input, at, entry.failure.value, reply)
        case None => [entry]
        case Some(next) =>
          assert next.candidate < |cs|;
          [entry] + Play(stage, cs, call, next, index + 1, limit, world)
  }

  function Bounds(stage: Stage, cs: seq<Candidate>, input: nat, maxTokens: nat): Option<seq<int>> {
    if cs == [] then Some([])
    else
      match (Preflight(stage, cs[0], input, maxTokens), Bounds(stage, cs[1..], input, maxTokens))
      case (Some(x), Some(rest)) => Some([x] + rest)
      case _ => None
  }

  // With repairs, every candidate is charged for the whole approved input.
  function FullBounds(cs: seq<Candidate>, maxInput: nat, maxTokens: nat): Option<seq<int>> {
    if cs == [] then Some([])
    else
      match (CostBound(cs[0].target, maxInput, maxTokens), FullBounds(cs[1..], maxInput, maxTokens))
      case (Some(x), Some(rest)) => Some([x] + rest)
      case _ => None
  }

  function Max(xs: seq<int>): int
    requires xs != []
  {
    if |xs| == 1 || xs[0] >= Max(xs[1..]) then xs[0] else Max(xs[1..])
  }

  function Min(x: nat, y: nat): nat { if x < y then x else y }

  // The checks before the first attempt: None when they pass.
  function Refused(stage: Stage, cs: seq<Candidate>, call: Call, retained: bool): Option<FailureKind>
    requires cs != []
  {
    var repairs := stage.maxRepairs;
    var bounds := Bounds(stage, cs, call.input, call.maxTokens);
    if bounds.None? then Some(CapabilityMismatch)
    else if Sum(bounds.value) > stage.maxCost then Some(RateLimit)
    else if repairs > 0 && (!retained || call.tools) then Some(CapabilityMismatch)
    else
      var envelopes := if repairs > 0 then FullBounds(cs, stage.maxInput, call.maxTokens) else bounds;
      if envelopes.None? then Some(CapabilityMismatch)
      else
        BoundsLength(stage, cs, call.input, call.maxTokens);
        FullBoundsLength(cs, stage.maxInput, call.maxTokens);
        if Sum(envelopes.value) + repairs * Max(envelopes.value) > stage.maxCost then Some(BudgetViolation)
        else None
  }

  lemma {:induction false} BoundsLength(stage: Stage, cs: seq<Candidate>, input: nat, maxTokens: nat)
    ensures
      var b := Bounds(stage, cs, input, maxTokens);
      b.Some? ==> |b.value| == |cs| && forall i | 0 <= i < |cs| ::
        Preflight(stage, cs[i], input, maxTokens) == Some(b.value[i])
    decreases |cs|
  {
    if cs != [] {
      BoundsLength(stage, cs[1..], input, maxTokens);
    }
  }

  lemma {:induction false} FullBoundsLength(cs: seq<Candidate>, input: nat, maxTokens: nat)
    ensures
      var b := FullBounds(cs, input, maxTokens);
      b.Some? ==> |b.value| == |cs| && forall i | 0 <= i < |cs| ::
        CostBound(cs[i].target, input, maxTokens) == Some(b.value[i])
    decreases |cs|
  {
    if cs != [] {
      FullBoundsLength(cs[1..], input, maxTokens);
    }
  }

  // What one call of `infer` attempts, in order.
  function Trace(stage: Stage, cs: seq<Candidate>, call: Call, retained: bool, world: World): seq<Entry>
    requires cs != []
  {
    if Refused(stage, cs, call, retained).Some? then []
    else Play(stage, cs, call, Cursor(0, stage.maxRepairs, false, call.input), 0,
        Min(stage.maxAttempts, |cs| + stage.maxRepairs), world)
  }

  // One turn of the loop.
  lemma PlayStep(stage: Stage, cs: seq<Candidate>, call: Call, at: Cursor, index: nat, limit: nat, world: World)
    requires at.candidate < |cs| && index < limit
    ensures
      var entry := Attempt(stage, cs, call.maxTokens, at, world(index));
      var play := Play(stage, cs, call, at, index, limit, world);
      if entry.failure.None? then play == [entry]
      else
        var next := Next(stage, |cs|, call.input, at, entry.failure.value, world(index));
        if next.None? then play == [entry]
        else next.value.candidate < |cs| && play == [entry] + Play(stage, cs, call, next.value, index + 1, limit, world)
  {
    hide Attempt;
  }

  method Infer(stage: Stage, cs: seq<Candidate>, call: Call, retained: bool, world: World)
      returns (outcome: Outcome, trace: seq<Entry>)
    requires cs != [] && stage.maxAttempts >= 1
    ensures trace == Trace(stage, cs, call, retained, world)
    ensures trace == [] <==> Refused(stage, cs, call, retained).Some?
    ensures trace == [] ==> outcome == Stopped(Refused(stage, cs, call, retained).value)
    ensures trace != [] ==>
      var last := trace[|trace| - 1].failure;
      outcome == if last.None? then Succeeded else Stopped(last.value)
  {
    hide Play, Attempt, Refused, Trace;
    trace := [];
    var refused := Refused(stage, cs, call, retained);
    if refused.Some? {
      NothingReserved(stage, cs, call, retained, world);
      return Stopped(refused.value), [];
    }
    TraceIsPlay(stage, cs, call, retained, world);
    var candidate, repairs, repairing, input := 0, stage.maxRepairs, false, call.input;
    var limit := Min(stage.maxAttempts, |cs| + repairs);
    var last := CapabilityMismatch;
    var index := 0;
    NothingLeft(stage, cs, call, Cursor(candidate, repairs, repairing, input), limit, world);
    while index < limit
      invariant candidate < |cs| && index <= limit
      invariant Trace(stage, cs, call, retained, world)
        == trace + Play(stage, cs, call, Cursor(candidate, repairs, repairing, input), index, limit, world)
      invariant |trace| == index && (index > 0 ==> trace[index - 1].failure == Some(last))
    {
      var reply := world(index);
      ghost var at := Cursor(candidate, repairs, repairing, input);
      PlayStep(stage, cs, call, at, index, limit, world);
      var entry := Attempt(stage, cs, call.maxTokens, Cursor(candidate, repairs, repairing, input), reply);
      ghost var before := trace;
      trace := trace + [entry];
      if entry.failure.None? {
        return Succeeded, trace;
      }
      last := entry.failure.value;
      if reply.cancelled {
        return Stopped(last), trace;
      }
      if (last == QualityValidation || last == InvalidOutput) && repairs > 0 {
        if reply.repairInput.None? {
          return Stopped(last), trace;
        }
        input := reply.repairInput.value;
        repairs := repairs - 1;
        repairing := true;
      } else {
        if stage.fallbackOn != {} && last !in stage.fallbackOn {
          return Stopped(last), trace;
        }
        candidate := candidate + 1;
        if candidate >= |cs| {
          return Stopped(last), trace;
        }
        input := call.input;
        repairing := false;
      }
      assert Next(stage, |cs|, call.input, at, last, reply) == Some(Cursor(candidate, repairs, repairing, input));
      index := index + 1;
      Regroup(before, [entry],
        Play(stage, cs, call, Cursor(candidate, repairs, repairing, input), index, limit, world));
    }
    NothingLeft(stage, cs, call, Cursor(candidate, repairs, repairing, input), limit, world);
    assert trace + [] == trace;
    outcome := Stopped(last);
  }

  lemma NothingLeft(stage: Stage, cs: seq<Candidate>, call: Call, at: Cursor, limit: nat, world: World)
    requires at.candidate < |cs|
    ensures Play(stage, cs, call, at, limit, limit, world) == []
    ensures limit > 0 ==> Play(stage, cs, call, at, 0, limit, world) != []
  {
  }

  // ----- bounds -----

  function Reserved(trace: seq<Entry>): int {
    if trace == [] then 0
    else (if trace[0].reserved.Some? then trace[0].reserved.value else 0) + Reserved(trace[1..])
  }

  function From(xs: seq<int>, k: nat): int {
    if k <= |xs| then Sum(xs[k..]) else 0
  }

  // What may still be reserved from here: every candidate not yet tried, and every repair, at the
  // largest envelope.
  ghost function Potential(envelopes: seq<int>, at: Cursor): int
    requires envelopes != []
  {
    From(envelopes, if at.repairing then at.candidate + 1 else at.candidate)
    + (at.repairs + (if at.repairing then 1 else 0)) * Max(envelopes)
  }

  // The envelopes bound every attempt the loop can make.
  ghost predicate Covers(stage: Stage, cs: seq<Candidate>, call: Call, envelopes: seq<int>) {
    && |envelopes| == |cs|
    && (forall i | 0 <= i < |cs| :: ValidTarget(cs[i].target) && envelopes[i] >= 0)
    && (forall i | 0 <= i < |cs| && Preflight(stage, cs[i], call.input, call.maxTokens).Some? ::
         Preflight(stage, cs[i], call.input, call.maxTokens).value <= envelopes[i])
    && (stage.maxRepairs > 0 ==>
         forall i, input: nat | 0 <= i < |cs| && Preflight(stage, cs[i], input, call.maxTokens).Some? ::
           Preflight(stage, cs[i], input, call.maxTokens).value <= envelopes[i])
  }

  lemma {:induction false} MaxIsMax(xs: seq<int>, i: nat)
    requires i < |xs|
    ensures xs[i] <= Max(xs)
    decreases |xs|
  {
    if i > 0 {
      MaxIsMax(xs[1..], i - 1);
    }
  }

  lemma FromStep(xs: seq<int>, k: nat)
    requires k < |xs|
    ensures From(xs, k) == xs[k] + From(xs, k + 1)
  {
    assert xs[k..][1..] == xs[k + 1..];
  }

  ghost predicate Fits(stage: Stage, call: Call, at: Cursor) {
    && at.repairs + (if at.repairing then 1 else 0) <= stage.maxRepairs
    && (!at.repairing ==> at.input == call.input)
  }

  function Left(at: Cursor): nat { at.repairs + (if at.repairing then 1 else 0) }

  // An attempt uses up at least what it reserves: its own envelope, or one repair.
  lemma AttemptUsesPotential(stage: Stage, input: nat, envelopes: seq<int>, at: Cursor, next: Cursor,
      failure: FailureKind, reply: Reply)
    requires at.candidate < |envelopes| && forall i | 0 <= i < |envelopes| :: envelopes[i] >= 0
    requires Next(stage, |envelopes|, input, at, failure, reply) == Some(next)
    ensures Potential(envelopes, next) + envelopes[at.candidate] <= Potential(envelopes, at)
  {
    var big := Max(envelopes);
    MaxIsMax(envelopes, at.candidate);
    FromStep(envelopes, at.candidate);
    if at.repairing {
      assert Left(next) == Left(at) - 1;
      Less(Left(at), big);
    } else {
      assert Left(next) == Left(at);
    }
  }

  lemma Less(n: nat, x: int)
    ensures (n - 1) * x == n * x - x
  {
  }

  lemma PotentialCoversAttempt(envelopes: seq<int>, at: Cursor)
    requires at.candidate < |envelopes| && forall i | 0 <= i < |envelopes| :: envelopes[i] >= 0
    ensures 0 <= envelopes[at.candidate] <= Potential(envelopes, at)
  {
    MaxIsMax(envelopes, at.candidate);
    SumNonnegative(envelopes, at.candidate);
    SumNonnegative(envelopes, at.candidate + 1);
    FromStep(envelopes, at.candidate);
    Product(Left(at), Max(envelopes));
  }

  lemma Product(n: nat, x: int)
    requires x >= 0
    ensures n * x >= 0 && (n >= 1 ==> n * x >= x)
  {
  }

  function CostOf(e: Entry): int {
    if e.reserved.Some? then e.reserved.value else 0
  }

  lemma AttemptWithinEnvelope(stage: Stage, cs: seq<Candidate>, call: Call, at: Cursor, reply: Reply,
      envelopes: seq<int>)
    requires at.candidate < |cs| && Covers(stage, cs, call, envelopes) && Fits(stage, call, at)
    ensures 0 <= CostOf(Attempt(stage, cs, call.maxTokens, at, reply)) <= envelopes[at.candidate]
  {
    var entry := Attempt(stage, cs, call.maxTokens, at, reply);
    if entry.reserved.Some? {
      CostBoundMonotone(cs[at.candidate].target, at.input, at.input, call.maxTokens);
      assert stage.maxRepairs > 0 || at.input == call.input;
    }
  }

  lemma {:induction false} PlayWithinPotential(stage: Stage, cs: seq<Candidate>, call: Call, at: Cursor, index: nat,
      limit: nat, world: World, envelopes: seq<int>)
    requires at.candidate < |cs| && Covers(stage, cs, call, envelopes) && Fits(stage, call, at)
    ensures 0 <= Reserved(Play(stage, cs, call, at, index, limit, world)) <= Potential(envelopes, at)
    decreases limit - index
  {
    PotentialCoversAttempt(envelopes, at);
    if index < limit {
      var reply := world(index);
      var entry := Attempt(stage, cs, call.maxTokens, at, reply);
      AttemptWithinEnvelope(stage, cs, call, at, reply, envelopes);
      if entry.failure.Some? {
        var next := Next(stage, |cs|, call.input, at, entry.failure.value, reply);
        if next.Some? {
          PlayWithinPotential(stage, cs, call, next.value, index + 1, limit, world, envelopes);
          AttemptUsesPotential(stage, call.input, envelopes, at, next.value, entry.failure.value, reply);
        }
      }
    }
  }

  lemma {:induction false} SumNonnegative(xs: seq<int>, k: nat)
    requires forall i | 0 <= i < |xs| :: xs[i] >= 0
    ensures From(xs, k) >= 0
    decreases |xs| - k
  {
    if k < |xs| {
      FromStep(xs, k);
      SumNonnegative(xs, k + 1);
    }
  }

  ghost predicate ValidCandidates(cs: seq<Candidate>) {
    forall i | 0 <= i < |cs| :: ValidTarget(cs[i].target)
  }

  lemma EnvelopesCover(stage: Stage, cs: seq<Candidate>, call: Call, retained: bool)
    requires cs != [] && ValidCandidates(cs) && Refused(stage, cs, call, retained).None?
    ensures
      var envelopes := (if stage.maxRepairs > 0 then FullBounds(cs, stage.maxInput, call.maxTokens)
                        else Bounds(stage, cs, call.input, call.maxTokens));
      && envelopes.Some? && Covers(stage, cs, call, envelopes.value)
      && Sum(envelopes.value) + stage.maxRepairs * Max(envelopes.value) <= stage.maxCost
  {
    BoundsLength(stage, cs, call.input, call.maxTokens);
    FullBoundsLength(cs, stage.maxInput, call.maxTokens);
    var envelopes := if stage.maxRepairs > 0 then FullBounds(cs, stage.maxInput, call.maxTokens)
                     else Bounds(stage, cs, call.input, call.maxTokens);
    forall i | 0 <= i < |cs|
      ensures envelopes.value[i] >= 0
    {
      CostBoundMonotone(cs[i].target, call.input, call.input, call.maxTokens);
      CostBoundMonotone(cs[i].target, stage.maxInput, stage.maxInput, call.maxTokens);
    }
    if stage.maxRepairs > 0 {
      forall i, input: nat | 0 <= i < |cs| && Preflight(stage, cs[i], input, call.maxTokens).Some?
        ensures Preflight(stage, cs[i], input, call.maxTokens).value <= envelopes.value[i]
      {
        CostBoundMonotone(cs[i].target, input, stage.maxInput, call.maxTokens);
      }
    }
  }

  /** For every list of outcomes, the attempts of one stage reserve together at most the stage's cap.
      With repairs this rests on the bound being monotone: a repair's prompt is longer than the first
      one, but never longer than the input the envelope was computed for. */
  lemma StageSpendBounded(stage: Stage, cs: seq<Candidate>, call: Call, retained: bool, world: World)
    requires cs != [] && ValidCandidates(cs) && stage.maxCost >= 0
    ensures 0 <= Reserved(Trace(stage, cs, call, retained, world)) <= stage.maxCost
  {
    hide Refused, Covers, Play, Trace, FullBounds, Bounds, Potential, Reserved, Max, ValidCandidates;
    if Refused(stage, cs, call, retained).None? {
      EnvelopesCover(stage, cs, call, retained);
      TraceIsPlay(stage, cs, call, retained, world);
      var envelopes := (if stage.maxRepairs > 0 then FullBounds(cs, stage.maxInput, call.maxTokens)
                        else Bounds(stage, cs, call.input, call.maxTokens)).value;
      var at := Cursor(0, stage.maxRepairs, false, call.input);
      PlayWithinPotential(stage, cs, call, at, 0, Min(stage.maxAttempts, |cs| + stage.maxRepairs), world, envelopes);
      CoversSize(stage, cs, call, envelopes);
      PotentialAtStart(envelopes, at);
    } else {
      NothingReserved(stage, cs, call, retained, world);
    }
  }

  lemma CoversSize(stage: Stage, cs: seq<Candidate>, call: Call, envelopes: seq<int>)
    requires Covers(stage, cs, call, envelopes)
    ensures |envelopes| == |cs|
  {
  }

  lemma PotentialAtStart(envelopes: seq<int>, at: Cursor)
    requires envelopes != [] && at.candidate == 0 && !at.repairing
    ensures Potential(envelopes, at) == Sum(envelopes) + at.repairs * Max(envelopes)
  {
    assert envelopes[0..] == envelopes;
  }

  lemma TraceIsPlay(stage: Stage, cs: seq<Candidate>, call: Call, retained: bool, world: World)
    requires cs != [] && Refused(stage, cs, call, retained).None?
    ensures Trace(stage, cs, call, retained, world)
         == Play(stage, cs, call, Cursor(0, stage.maxRepairs, false, call.input), 0,
              Min(stage.maxAttempts, |cs| + stage.maxRepairs), world)
  {
    hide Refused, Play;
  }

  lemma NothingReserved(stage: Stage, cs: seq<Candidate>, call: Call, retained: bool, world: World)
    requires cs != [] && Refused(stage, cs, call, retained).Some?
    ensures Trace(stage, cs, call, retained, world) == [] && Reserved([]) == 0
  {
    hide Refused;
  }

  // ----- the shape of a trace -----

  function Repairs(trace: seq<Entry>): nat {
    if trace == [] then 0 else (if trace[0].repairing then 1 else 0) + Repairs(trace[1..])
  }

  // A trace moves on by one candidate or repairs the same one, after a failure that allows it.
  ghost predicate Follows(stage: Stage, input: nat, a: Entry, b: Entry) {
    && a.failure.Some?
    && (b.repairing ==>
      && b.candidate == a.candidate
      && (a.failure == Some(QualityValidation) || a.failure == Some(InvalidOutput)))
    && (!b.repairing ==>
      && b.candidate == a.candidate + 1
      && b.input == input
      && (stage.fallbackOn == {} || a.failure.value in stage.fallbackOn))
  }

  ghost predicate Orderly(stage: Stage, cs: seq<Candidate>, call: Call, trace: seq<Entry>) {
    && (forall i | 0 <= i < |trace| - 1 :: Follows(stage, call.input, trace[i], trace[i + 1]))
    && (forall i | 0 <= i < |trace| :: trace[i].candidate < |cs|)
    && (forall i | 0 <= i < |trace| && trace[i].reserved.Some? ::
         trace[i].reserved == CostBound(cs[trace[i].candidate].target, trace[i].input, call.maxTokens)
         && trace[i].input <= stage.maxInput)
  }

  ghost predicate StartsAt(trace: seq<Entry>, at: Cursor) {
    trace != [] ==>
      trace[0].candidate == at.candidate && trace[0].repairing == at.repairing && trace[0].input == at.input
  }

  lemma {:induction false} PlayIsOrderly(stage: Stage, cs: seq<Candidate>, call: Call, at: Cursor, index: nat,
      limit: nat, world: World)
    requires at.candidate < |cs|
    ensures
      var trace := Play(stage, cs, call, at, index, limit, world);
      && Orderly(stage, cs, call, trace)
      && |trace| <= (if index <= limit then limit - index else 0)
      && Repairs(trace) <= Left(at)
      && (index < limit ==> trace != [])
      && StartsAt(trace, at)
    decreases limit - index
  {
    hide Orderly, Follows, Attempt, Next, Play, Repairs, Left;
    if index >= limit {
      NothingPlayed(stage, cs, call, at, index, limit, world);
    } else {
      var reply := world(index);
      var entry := Attempt(stage, cs, call.maxTokens, at, reply);
      PlayStep(stage, cs, call, at, index, limit, world);
      AttemptIsOrderly(stage, cs, call, at, reply);
      if entry.failure.Some? {
        var next := Next(stage, |cs|, call.input, at, entry.failure.value, reply);
        if next.Some? {
          PlayIsOrderly(stage, cs, call, next.value, index + 1, limit, world);
          var rest := Play(stage, cs, call, next.value, index + 1, limit, world);
          NextFollows(stage, cs, call, at, reply, next.value, rest);
          Prepended(stage, cs, call, entry, rest);
        }
      }
    }
  }

  lemma NothingPlayed(stage: Stage, cs: seq<Candidate>, call: Call, at: Cursor, index: nat, limit: nat, world: World)
    requires at.candidate < |cs| && index >= limit
    ensures Play(stage, cs, call, at, index, limit, world) == [] && Orderly(stage, cs, call, []) && Repairs([]) == 0
  {
  }

  lemma AttemptIsOrderly(stage: Stage, cs: seq<Candidate>, call: Call, at: Cursor, reply: Reply)
    requires at.candidate < |cs|
    ensures
      var entry := Attempt(stage, cs, call.maxTokens, at, reply);
      && Orderly(stage, cs, call, [entry]) && StartsAt([entry], at)
      && Repairs([entry]) == (if at.repairing then 1 else 0) <= Left(at)
  {
    var entry := Attempt(stage, cs, call.maxTokens, at, reply);
    assert [entry][1..] == [];
  }

  lemma NextFollows(stage: Stage, cs: seq<Candidate>, call: Call, at: Cursor, reply: Reply, next: Cursor,
      rest: seq<Entry>)
    requires at.candidate < |cs| && StartsAt(rest, next)
    requires
      var entry := Attempt(stage, cs, call.maxTokens, at, reply);
      entry.failure.Some? && Next(stage, |cs|, call.input, at, entry.failure.value, reply) == Some(next)
    ensures rest != [] ==> Follows(stage, call.input, Attempt(stage, cs, call.maxTokens, at, reply), rest[0])
    ensures (if at.repairing then 1 else 0) + Left(next) <= Left(at)
  {
    hide Preflight;
  }

  lemma Prepended(stage: Stage, cs: seq<Candidate>, call: Call, entry: Entry, rest: seq<Entry>)
    requires Orderly(stage, cs, call, [entry]) && Orderly(stage, cs, call, rest)
    requires rest != [] ==> Follows(stage, call.input, entry, rest[0])
    ensures Orderly(stage, cs, call, [entry] + rest)
    ensures Repairs([entry] + rest) == (if entry.repairing then 1 else 0) + Repairs(rest)
  {
    hide Follows;
    var all := [entry] + rest;
    assert all[1..] == rest;
    forall i | 0 <= i < |all| - 1
      ensures Follows(stage, call.input, all[i], all[i + 1])
    {
      if i > 0 {
        assert all[i] == rest[i - 1] && all[i + 1] == rest[i - 1 + 1];
      }
    }
    forall i | 0 <= i < |all|
      ensures all[i].candidate < |cs|
      ensures all[i].reserved.Some? ==>
        all[i].reserved == CostBound(cs[all[i].candidate].target, all[i].input, call.maxTokens)
            && all[i].input <= stage.maxInput
    {
      if i == 0 {
        assert all[i] == [entry][0];
      } else {
        assert all[i] == rest[i - 1];
      }
    }
  }

  // Never back to an earlier candidate, and on only after a failure.
  predicate Onward(a: Entry, b: Entry) { a.candidate <= b.candidate && a.failure.Some? }

  ghost predicate Advancing(trace: seq<Entry>) {
    forall i, j | 0 <= i < j < |trace| :: Onward(trace[i], trace[j])
  }

  lemma OrderlyAdvances(stage: Stage, cs: seq<Candidate>, call: Call, trace: seq<Entry>)
    requires Orderly(stage, cs, call, trace)
    ensures Advancing(trace)
  {
    hide Orderly, Onward;
    forall i, j | 0 <= i < j < |trace|
      ensures Onward(trace[i], trace[j])
    {
      NeverBack(stage, cs, call, trace, i, j);
    }
  }

  /** The loop makes at most min(max attempts, candidates + repairs) attempts, repairs at most as
      often as allowed, never goes back to an earlier candidate, and stops at the first success. Each
      attempt that gets that far reserves exactly the bound of its own prompt. */
  lemma StageAttemptsBounded(stage: Stage, cs: seq<Candidate>, call: Call, retained: bool, world: World)
    requires cs != []
    ensures
      var trace := Trace(stage, cs, call, retained, world);
      && |trace| <= stage.maxAttempts && |trace| <= |cs| + stage.maxRepairs
      && Repairs(trace) <= stage.maxRepairs
      && Orderly(stage, cs, call, trace)
      && (trace != [] ==> trace[0].candidate == 0 && !trace[0].repairing && trace[0].input == call.input)
      && Advancing(trace)
  {
    hide Refused, Play, Trace, Orderly, Advancing;
    var trace := Trace(stage, cs, call, retained, world);
    var start := Cursor(0, stage.maxRepairs, false, call.input);
    if Refused(stage, cs, call, retained).None? {
      TraceIsPlay(stage, cs, call, retained, world);
      PlayIsOrderly(stage, cs, call, start, 0, Min(stage.maxAttempts, |cs| + stage.maxRepairs), world);
    } else {
      NothingTried(stage, cs, call, retained, world);
    }
    OrderlyAdvances(stage, cs, call, trace);
  }

  lemma NothingTried(stage: Stage, cs: seq<Candidate>, call: Call, retained: bool, world: World)
    requires cs != [] && Refused(stage, cs, call, retained).Some?
    ensures Trace(stage, cs, call, retained, world) == [] && Orderly(stage, cs, call, [])
  {
    hide Refused;
  }

  lemma {:induction false} NeverBack(stage: Stage, cs: seq<Candidate>, call: Call, trace: seq<Entry>, i: nat, j: nat)
    requires Orderly(stage, cs, call, trace) && i < j < |trace|
    ensures Onward(trace[i], trace[j])
    decreases j
  {
    assert Follows(stage, call.input, trace[j - 1], trace[j - 1 + 1]);
    if i < j - 1 {
      NeverBack(stage, cs, call, trace, i, j - 1);
    }
  }

  // ----- every step of a trace -----

  // What is asked of a target before an attempt at it.
  predicate Admissible(stage: Stage, c: Candidate, input: nat, maxTokens: nat) {
    && input <= stage.maxInput && maxTokens <= stage.maxOutput && c.accepts(input, maxTokens)
    && CostBound(c.target, input, maxTokens).Some? && CostBound(c.target, input, maxTokens).value <= stage.maxCost
  }

  // One attempt told from its answer: blocked before it reserves, not admissible, or reserved and then
  // as the provider lets it end.
  ghost predicate Answers(stage: Stage, cs: seq<Candidate>, call: Call, e: Entry, reply: Reply) {
    && e.candidate < |cs|
    && if reply.blocked.Some? then e.reserved.None? && e.failure == reply.blocked
       else if Admissible(stage, cs[e.candidate], e.input, call.maxTokens) then
         e.reserved == CostBound(cs[e.candidate].target, e.input, call.maxTokens) && e.failure == reply.failure
       else e.reserved.None? && e.failure == Some(CapabilityMismatch)
  }

  predicate Repairable(e: Entry, left: int) {
    left > 0 && (e.failure == Some(QualityValidation) || e.failure == Some(InvalidOutput))
  }

  // Whether anything may follow a failed attempt: never once the request is cancelled; a repair if one
  // is left and the bad output can be read back, and otherwise the next target if the failure allows it.
  predicate GoesOn(stage: Stage, targets: nat, e: Entry, reply: Reply, left: int) {
    && e.failure.Some? && !reply.cancelled
    && if Repairable(e, left) then reply.repairInput.Some?
       else (stage.fallbackOn == {} || e.failure.value in stage.fallbackOn) && e.candidate + 1 < targets
  }

  predicate Leads(call: Call, e: Entry, next: Entry, reply: Reply, left: int) {
    if Repairable(e, left) then
      next.repairing && next.candidate == e.candidate && reply.repairInput == Some(next.input)
    else !next.repairing && next.candidate == e.candidate + 1 && next.input == call.input
  }

  lemma RepairsUpTo(trace: seq<Entry>, i: nat)
    requires 0 < i <= |trace|
    ensures Repairs(trace[..i]) == (if trace[0].repairing then 1 else 0) + Repairs(trace[1..][..i - 1])
  {
    assert trace[..i][1..] == trace[1..][..i - 1];
  }

  lemma {:induction false} PlayExactly(stage: Stage, cs: seq<Candidate>, call: Call, at: Cursor, index: nat,
      limit: nat, world: World, i: nat)
    requires at.candidate < |cs| && i < |Play(stage, cs, call, at, index, limit, world)|
    ensures
      var trace := Play(stage, cs, call, at, index, limit, world);
      var left := Left(at) - Repairs(trace[..i + 1]);
      && StartsAt(trace, at) && index + i < limit
      && Answers(stage, cs, call, trace[i], world(index + i))
      && (i + 1 < |trace| <==> index + i + 1 < limit && GoesOn(stage, |cs|, trace[i], world(index + i), left))
      && (i + 1 < |trace| ==> Leads(call, trace[i], trace[i + 1], world(index + i), left))
    decreases limit - index
  {
    hide Attempt, Play, Next, Answers, GoesOn, Leads, Repairs;
    var reply := world(index);
    var trace := Play(stage, cs, call, at, index, limit, world);
    PlayIsOrderly(stage, cs, call, at, index, limit, world);
    PlayStep(stage, cs, call, at, index, limit, world);
    var entry := Attempt(stage, cs, call.maxTokens, at, reply);
    AttemptAnswers(stage, cs, call, at, reply);
    RepairsUpTo(trace, i + 1);
    if i > 0 {
      var next := Next(stage, |cs|, call.input, at, entry.failure.value, reply).value;
      var rest := Play(stage, cs, call, next, index + 1, limit, world);
      assert trace[1..] == rest && trace[i] == rest[i - 1];
      NextExactly(stage, |cs|, call, at, entry, reply);
      PlayExactly(stage, cs, call, next, index + 1, limit, world, i - 1);
      assert i + 1 < |trace| ==> trace[i + 1] == rest[i];
    } else {
      NoRepairs();
      assert trace[1..][..0] == [];
      NextExactly(stage, |cs|, call, at, entry, reply);
      if entry.failure.Some? && Next(stage, |cs|, call.input, at, entry.failure.value, reply).Some? {
        var next := Next(stage, |cs|, call.input, at, entry.failure.value, reply).value;
        PlayIsOrderly(stage, cs, call, next, index + 1, limit, world);
        assert |trace| > 1 ==> trace[1] == trace[1..][0];
        NextLeads(stage, |cs|, call, at, entry, reply, trace[1..]);
      }
    }
  }

  lemma NoRepairs()
    ensures Repairs([]) == 0
  {
  }

  lemma AttemptAnswers(stage: Stage, cs: seq<Candidate>, call: Call, at: Cursor, reply: Reply)
    requires at.candidate < |cs|
    ensures
      var entry := Attempt(stage, cs, call.maxTokens, at, reply);
      Answers(stage, cs, call, entry, reply) && StartsAt([entry], at)
  {
    hide CostBound;
  }

  lemma NextExactly(stage: Stage, targets: nat, call: Call, at: Cursor, entry: Entry, reply: Reply)
    requires StartsAt([entry], at)
    ensures entry.failure.Some? ==>
      var next := Next(stage, targets, call.input, at, entry.failure.value, reply);
      && (next.Some? <==> GoesOn(stage, targets, entry, reply, at.repairs))
      && (next.Some? ==> Left(next.value) == at.repairs && Left(at) == at.repairs + if at.repairing then 1 else 0)
    ensures GoesOn(stage, targets, entry, reply, at.repairs) ==> entry.failure.Some?
  {
    assert [entry][0] == entry;
  }

  lemma NextLeads(stage: Stage, targets: nat, call: Call, at: Cursor, entry: Entry, reply: Reply, rest: seq<Entry>)
    requires StartsAt([entry], at) && entry.failure.Some?
    requires
      var next := Next(stage, targets, call.input, at, entry.failure.value, reply);
      next.Some? && StartsAt(rest, next.value)
    ensures rest != [] ==> Leads(call, entry, rest[0], reply, at.repairs)
  {
    assert [entry][0] == entry;
  }

  /** Every attempt of a trace and every step from one to the next: each attempt is what its answer makes
      of it, another one follows exactly if a limit on the number, a cancellation, a used-up repair, a
      failure that allows no fallback or the end of the targets does not stop it, and then it is the
      repair or the fallback that the failure calls for. */
  lemma TraceExactly(stage: Stage, cs: seq<Candidate>, call: Call, retained: bool, world: World, i: nat)
    requires cs != [] && i < |Trace(stage, cs, call, retained, world)|
    ensures
      var trace := Trace(stage, cs, call, retained, world);
      var left := stage.maxRepairs - Repairs(trace[..i + 1]);
      && Answers(stage, cs, call, trace[i], world(i))
      && (i + 1 < |trace| <==>
        i + 1 < stage.maxAttempts && i + 1 < |cs| + stage.maxRepairs && GoesOn(stage, |cs|, trace[i], world(i), left))
      && (i + 1 < |trace| ==> Leads(call, trace[i], trace[i + 1], world(i), left))
  {
    hide Refused, Play, Answers, GoesOn, Leads, Repairs;
    PlayExactly(stage, cs, call, Cursor(0, stage.maxRepairs, false, call.input), 0,
        Min(stage.maxAttempts, |cs| + stage.maxRepairs), world, i);
  }

  // ----- the checks before the first attempt -----

  ghost function FirstBound(cs: seq<Candidate>, call: Call, i: nat): int
    requires i < |cs|
  {
    var bound := CostBound(cs[i].target, call.input, call.maxTokens);
    if bound.Some? then bound.value else 0
  }

  // With repairs, the charge for the whole input that a stage approves.
  ghost function FullBound(stage: Stage, cs: seq<Candidate>, call: Call, i: nat): int
    requires i < |cs|
  {
    var bound := CostBound(cs[i].target, stage.maxInput, call.maxTokens);
    if bound.Some? then bound.value else 0
  }

  ghost predicate AllAdmissible(stage: Stage, cs: seq<Candidate>, call: Call) {
    forall i | 0 <= i < |cs| :: Admissible(stage, cs[i], call.input, call.maxTokens)
  }

  ghost predicate FullyPriced(stage: Stage, cs: seq<Candidate>, call: Call) {
    forall i | 0 <= i < |cs| :: CostBound(cs[i].target, stage.maxInput, call.maxTokens).Some?
  }

  ghost predicate EnvelopeFits(stage: Stage, cs: seq<Candidate>, call: Call) {
    forall i | 0 <= i < |cs| ::
      Sum(seq(|cs|, j requires 0 <= j < |cs| => FullBound(stage, cs, call, j)))
      + stage.maxRepairs * FullBound(stage, cs, call, i) <= stage.maxCost
  }

  ghost function FirstSum(cs: seq<Candidate>, call: Call): int {
    Sum(seq(|cs|, j requires 0 <= j < |cs| => FirstBound(cs, call, j)))
  }

  lemma {:induction false} BoundsExactly(stage: Stage, cs: seq<Candidate>, call: Call)
    ensures
      var b := Bounds(stage, cs, call.input, call.maxTokens);
      && (b.Some? <==> AllAdmissible(stage, cs, call))
      && (b.Some? ==> b.value == seq(|cs|, j requires 0 <= j < |cs| => FirstBound(cs, call, j)))
    decreases |cs|
  {
    hide CostBound;
    if cs != [] {
      BoundsExactly(stage, cs[1..], call);
      assert forall i | 0 < i < |cs| :: cs[i] == cs[1..][i - 1];
    }
  }

  lemma {:induction false} FullBoundsExactly(stage: Stage, cs: seq<Candidate>, call: Call)
    ensures
      var b := FullBounds(cs, stage.maxInput, call.maxTokens);
      && (b.Some? <==> FullyPriced(stage, cs, call))
      && (b.Some? ==> b.value == seq(|cs|, j requires 0 <= j < |cs| => FullBound(stage, cs, call, j)))
    decreases |cs|
  {
    hide CostBound;
    if cs != [] {
      FullBoundsExactly(stage, cs[1..], call);
      assert forall i | 0 < i < |cs| :: cs[i] == cs[1..][i - 1];
    }
  }

  lemma {:induction false} MaxIsThere(xs: seq<int>)
    requires xs != []
    ensures exists i :: 0 <= i < |xs| && xs[i] == Max(xs)
    decreases |xs|
  {
    if |xs| > 1 && xs[0] < Max(xs[1..]) {
      MaxIsThere(xs[1..]);
      var i :| 0 <= i < |xs[1..]| && xs[1..][i] == Max(xs[1..]);
      assert xs[i + 1] == Max(xs);
    } else {
      assert xs[0] == Max(xs);
    }
  }

  /** The first checks refuse, in this order: a target that is not admissible; first attempts that
      together exceed the stage's cap; repairs without kept output or with tools; a target without a
      price for the whole approved input; and that price for all targets, with every repair at whichever
      target is dearest, over the cap. */
  lemma RefusedExactly(stage: Stage, cs: seq<Candidate>, call: Call, retained: bool)
    requires cs != [] && stage.maxCost >= 0
    ensures Refused(stage, cs, call, retained) ==
      if !AllAdmissible(stage, cs, call) then Some(CapabilityMismatch)
      else if FirstSum(cs, call) > stage.maxCost then Some(RateLimit)
      else if stage.maxRepairs == 0 then None
      else if !retained || call.tools || !FullyPriced(stage, cs, call) then Some(CapabilityMismatch)
      else if !EnvelopeFits(stage, cs, call) then Some(BudgetViolation)
      else None
  {
    hide CostBound, Admissible, Bounds, FullBounds, Sum, Max, EnvelopeFits, FullyPriced, AllAdmissible;
    BoundsExactly(stage, cs, call);
    FullBoundsExactly(stage, cs, call);
    if FullyPriced(stage, cs, call) {
      EnvelopeIsMax(stage, cs, call);
    }
  }

  lemma EnvelopeIsMax(stage: Stage, cs: seq<Candidate>, call: Call)
    requires cs != [] && FullyPriced(stage, cs, call)
    ensures
      var full := FullBounds(cs, stage.maxInput, call.maxTokens);
      && full.Some? && |full.value| == |cs|
      && (EnvelopeFits(stage, cs, call) <==> Sum(full.value) + stage.maxRepairs * Max(full.value) <= stage.maxCost)
  {
    hide FullBound, FullBounds, FullyPriced, Sum, Max;
    FullBoundsExactly(stage, cs, call);
    var full := FullBounds(cs, stage.maxInput, call.maxTokens).value;
    MaxIsThere(full);
    var k :| 0 <= k < |full| && full[k] == Max(full);
    assert full[k] == FullBound(stage, cs, call, k);
    forall i | 0 <= i < |cs|
      ensures stage.maxRepairs * FullBound(stage, cs, call, i) <= stage.maxRepairs * Max(full)
    {
      MaxIsMax(full, i);
      Scaled(stage.maxRepairs, full[i], Max(full));
    }
  }

  lemma Scaled(n: nat, x: int, y: int)
    requires x <= y
    ensures n * x <= n * y
  {
  }

  /** An inference attempts something exactly when those checks pass. */
  lemma TraceBegins(stage: Stage, cs: seq<Candidate>, call: Call, retained: bool, world: World)
    requires cs != [] && stage.maxAttempts >= 1
    ensures
      var trace := Trace(stage, cs, call, retained, world);
      && (trace != [] <==> Refused(stage, cs, call, retained).None?)
      && (trace != [] ==> trace[0].candidate == 0 && !trace[0].repairing && trace[0].input == call.input)
  {
    hide Refused, Play;
    PlayIsOrderly(stage, cs, call, Cursor(0, stage.maxRepairs, false, call.input), 0,
        Min(stage.maxAttempts, |cs| + stage.maxRepairs), world);
  }
}

/**
 Streaming: the collector that rebuilds the completion from the chunks, and the gateway's loop over
 candidates that decides what the client may see.

 What the provider, the client and the other services do is one script per candidate: the events that
 arrive, and at each point where the source can raise, whether it does and with what.
 */
module StreamDelivery {
  import opened Basics
  import opened Failures

  // ----- chunks -----

  type Index = k: nat | k < 8

  datatype Finish = Stop | Length | ContentFilter | ToolCalls

  datatype Usage = Usage(prompt: nat, completion: nat)

  datatype Function = Function(name: Option<string>, arguments: Option<string>)

  datatype Part = Part(index: Index, id: Option<string>, function_: Option<Function>)

  // No tool calls and an absent list are the same to the source; a present list is not empty.
  datatype Delta = Delta(role: bool, content: Option<string>, parts: seq<Part>)

  datatype Choice = Choice(delta: Delta, finish: Option<Finish>)

  datatype Chunk = Chunk(model: nat, choice: Option<Choice>, usage: Option<Usage>)

  datatype ToolCall = ToolCall(id: string, name: string, arguments: string)

  datatype Completion = Completion(content: Option<string>, calls: seq<ToolCall>, finish: Finish, usage: Option<Usage>)

  const LIMIT := 1_048_576

  function Text(o: Option<string>): string { if o.Some? then o.value else "" }

  // The length of the UTF-8 encoding.
  function Bytes(s: string): nat {
    if s == [] then 0 else Width(s[0]) + Bytes(s[1..])
  }

  function Width(c: char): nat {
    if c < '\U{80}' then 1 else if c < '\U{800}' then 2 else if c < '\U{10000}' then 3 else 4
  }

  function Name(p: Part): string {
    if p.function_.Some? then Text(p.function_.value.name) else ""
  }

  function Arguments(p: Part): string {
    if p.function_.Some? then Text(p.function_.value.arguments) else ""
  }

  // What a function call may be: a name of up to 64 letters, digits, underscores and hyphens, and
  // arguments of bounded length.
  const ARGUMENTS := 65_536

  predicate NameChar(c: char) {
    'A' <= c <= 'Z' || 'a' <= c <= 'z' || '0' <= c <= '9' || c == '_' || c == '-'
  }

  predicate CallFits(name: string, arguments: string) {
    1 <= |name| <= 64 && (forall i | 0 <= i < |name| :: NameChar(name[i])) && |arguments| <= ARGUMENTS
  }

  // ----- the collector -----

  datatype Collected = Collected(text: string, calls: map<Index, ToolCall>, usage: Option<Usage>,
      finish: Option<Finish>)

  const NOTHING := Collected("", map[], None, None)

  // What one tool delta makes of the calls; None where the source raises.
  function AcceptPart(calls: map<Index, ToolCall>, p: Part): Option<map<Index, ToolCall>> {
    if p.index !in calls then
      if Text(p.id) == "" || Name(p) == "" || !CallFits(Name(p), Arguments(p)) then None
      else Some(calls[p.index := ToolCall(p.id.value, Name(p), Arguments(p))])
    else
      var previous := calls[p.index];
      var arguments := previous.arguments + Arguments(p);
      if (p.id.Some? && p.id.value != previous.id) || (Name(p) != "" && Name(p) != previous.name) then None
      else if !CallFits(previous.name, arguments) then None
      else Some(calls[p.index := previous.(arguments := arguments)])
  }

  function AcceptParts(calls: map<Index, ToolCall>, parts: seq<Part>): Option<map<Index, ToolCall>>
    decreases |parts|
  {
    if parts == [] then Some(calls)
    else
      match AcceptPart(calls, parts[0])
      case Some(next) => AcceptParts(next, parts[1..])
      case None => None
  }

  function ArgumentBytes(calls: map<Index, ToolCall>, k: nat): nat
    requires k <= 8
    decreases 8 - k
  {
    if k == 8 then 0 else (if k in calls then Bytes(calls[k].arguments) else 0) + ArgumentBytes(calls, k + 1)
  }

  function AcceptChoice(s: Collected, c: Choice): Option<Collected> {
    if s.finish.Some? && (Text(c.delta.content) != "" || c.delta.parts != []) then None
    else if s.finish.Some? && c.finish.Some? && c.finish != s.finish then None
    else
      match AcceptParts(s.calls, c.delta.parts)
      case None => None
      case Some(calls) =>
        var text := s.text + Text(c.delta.content);
        if Bytes(text) + ArgumentBytes(calls, 0) > LIMIT then None
        else Some(Collected(text, calls, s.usage, if c.finish.Some? then c.finish else s.finish))
  }

  function Accepted(s: Collected, chunk: Chunk): Option<Collected> {
    if chunk.usage.Some? && s.usage.Some? && s.usage != chunk.usage then None
    else
      var t := if chunk.usage.Some? then s.(usage := chunk.usage) else s;
      if chunk.choice.Some? then AcceptChoice(t, chunk.choice.value) else Some(t)
  }

  // The calls in the order of their indices.
  function Ordered(calls: map<Index, ToolCall>, k: nat): seq<ToolCall>
    requires k <= 8
    decreases 8 - k
  {
    if k == 8 then [] else (if k in calls then [calls[k]] else []) + Ordered(calls, k + 1)
  }

  lemma OrderedStep(calls: map<Index, ToolCall>, k: nat)
    requires k <= 8
    ensures Ordered(calls, k) == if k == 8 then [] else (if k in calls then [calls[k]] else []) + Ordered(calls, k + 1)
  {
  }

  function Completed(s: Collected): Option<Completion> {
    if s.finish.None? then None
    else Some(Completion(if s.text == "" then None else Some(s.text), Ordered(s.calls, 0), s.finish.value, s.usage))
  }

  class StreamCollector {
    var text: string
    var calls: map<Index, ToolCall>
    var usage: Option<Usage>
    var finish: Option<Finish>

    constructor ()
      ensures View() == NOTHING
    {
      text, calls, usage, finish := "", map[], None, None;
    }

    ghost function View(): Collected
      reads this
    {
      Collected(text, calls, usage, finish)
    }

    // After a refusal the collector is abandoned.
    method Accept(chunk: Chunk) returns (ok: bool)
      modifies this
      ensures ok <==> Accepted(old(View()), chunk).Some?
      ensures ok ==> View() == Accepted(old(View()), chunk).value
    {
      if chunk.usage.Some? {
        if usage.Some? && usage != chunk.usage {
          return false;
        }
        usage := chunk.usage;
      }
      if chunk.choice.None? {
        return true;
      }
      var choice := chunk.choice.value;
      var delta := choice.delta;
      if finish.Some? && (Text(delta.content) != "" || delta.parts != []) {
        return false;
      }
      if choice.finish.Some? {
        if finish.Some? && choice.finish != finish {
          return false;
        }
        finish := choice.finish;
      }
      text := text + Text(delta.content);
      ghost var all := AcceptParts(calls, delta.parts);
      for i := 0 to |delta.parts|
        invariant AcceptParts(calls, delta.parts[i..]) == all
        invariant text == old(text) + Text(delta.content)
        invariant usage == (if chunk.usage.Some? then chunk.usage else old(usage))
        invariant finish == (if choice.finish.Some? then choice.finish else old(finish))
      {
        var part := delta.parts[i];
        assert delta.parts[i..][0] == part && delta.parts[i..][1..] == delta.parts[i + 1..];
        if part.index !in calls {
          if Text(part.id) == "" || Name(part) == "" || !CallFits(Name(part), Arguments(part)) {
            return false;
          }
          calls := calls[part.index := ToolCall(part.id.value, Name(part), Arguments(part))];
        } else {
          var previous := calls[part.index];
          if (part.id.Some? && part.id.value != previous.id) || (Name(part) != "" && Name(part) != previous.name) {
            return false;
          }
          var arguments := previous.arguments + Arguments(part);
          if !CallFits(previous.name, arguments) {
            return false;
          }
          calls := calls[part.index := previous.(arguments := arguments)];
        }
      }
      ok := Bytes(text) + ArgumentBytes(calls, 0) <= LIMIT;
    }

    method ToCompletion() returns (c: Option<Completion>)
      ensures c == Completed(View())
    {
      hide Ordered;
      if finish.None? {
        return None;
      }
      var ordered: seq<ToolCall> := [];
      for k := 0 to 8
        invariant Ordered(calls, 0) == ordered + Ordered(calls, k)
      {
        OrderedStep(calls, k);
        if k in calls {
          ordered := ordered + [calls[k]];
        }
      }
      OrderedStep(calls, 8);
      assert Ordered(calls, 0) == ordered;
      c := Some(Completion(if text == "" then None else Some(text), ordered, finish.value, usage));
    }
  }

  // ----- one candidate -----

  // Why a candidate ends early: an error of some kind, or the client or the server going away.
  datatype Halt = Error(kind: FailureKind) | Interrupted

  datatype Observation = Observation(usage: Option<Usage>, actual: Option<nat>)

  datatype Event = Data(chunk: Chunk) | Observed(observation: Observation) | UpstreamError

  // `before`: raised by the checks made when the event arrives; `after`: raised where the chunk is
  // handed to the client.
  datatype Arrival = Arrival(event: Event, before: Option<Halt>, after: Option<Halt>)

  // `refused`: before an attempt is recorded; `dropped`: after that, before the first event; `ends`: in
  // place of the end of the stream; `valid`: the request's own demands on the completion; `unsettled`
  // and `overage`: how accounting goes; `unsaved`: when the output is kept; `leaves`: at the last chunk;
  // `cancelled`: the request turns out to be cancelled before the next candidate.
  datatype Script = Script(
    refused: Option<Halt>, dropped: Option<Halt>, arrivals: seq<Arrival>, ends: Option<Halt>,
    valid: Completion -> bool, unsettled: Option<Halt>, overage: bool, unsaved: Option<Halt>, leaves: bool,
    cancelled: bool)

  // What happens outside, in order. The client sees all but the accounting.
  datatype Act =
    | Exposed(candidate: nat, chunk: Chunk)
    | Accounted(candidate: nat, settled: bool)
    | Finished(candidate: nat, finish: Finish, usage: Option<Usage>)
    | Failed(partial: bool)

  datatype Reading = Reading(acts: seq<Act>, collected: Collected, observation: Option<Observation>, halt: Option<Halt>)

  predicate Visible(d: Delta) {
    d.content.Some? || d.parts != [] || d.role
  }

  // The chunk as the client gets it: without the finish reason.
  function Shown(chunk: Chunk): Chunk
    requires chunk.choice.Some?
  {
    chunk.(choice := Some(chunk.choice.value.(finish := None)))
  }

  const BAD := Some(Error(ProviderFailure))

  function Read(i: nat, alias: nat, r: Reading, a: Arrival): Reading {
    if a.before.Some? then r.(halt := a.before)
    else
      match a.event
      case UpstreamError => r.(halt := BAD)
      case Observed(o) => if r.observation.Some? then r.(halt := BAD) else r.(observation := Some(o))
      case Data(chunk) =>
        if r.observation.Some? || chunk.model != alias then r.(halt := BAD)
        else
          match Accepted(r.collected, chunk)
          case None => r.(halt := BAD)
          case Some(next) =>
            if chunk.choice.Some? && Visible(chunk.choice.value.delta) then
              r.(acts := r.acts + [Exposed(i, Shown(chunk))], collected := next, halt := a.after)
            else r.(collected := next)
  }

  function ReadAll(i: nat, alias: nat, r: Reading, arrivals: seq<Arrival>): Reading
    decreases arrivals
  {
    if arrivals == [] || r.halt.Some? then r else ReadAll(i, alias, Read(i, alias, r, arrivals[0]), arrivals[1..])
  }

  // What one candidate leads to: the acts, whether its attempt still has to be accounted for, and why
  // it halted. None: the answer was delivered.
  datatype Tried = Tried(acts: seq<Act>, pending: bool, halt: Option<Halt>)

  function FinalUsage(r: Reading): Option<Usage> {
    if r.observation.Some? then r.observation.value.usage else r.collected.usage
  }

  // From the end of the stream to the last chunk.
  function Conclude(i: nat, maxTokens: nat, script: Script, r: Reading): Tried {
    if r.halt.Some? then Tried(r.acts, true, r.halt)
    else if script.ends.Some? then Tried(r.acts, true, script.ends)
    else
      match Completed(r.collected)
      case None => Tried(r.acts, true, BAD)
      case Some(completion) =>
        var usage := FinalUsage(r);
        if !script.valid(completion) then Tried(r.acts, true, BAD)
        else if usage.Some? && usage.value.completion > maxTokens then Tried(r.acts, true, BAD)
        else if script.unsettled.Some? then Tried(r.acts, true, script.unsettled)
        else
          var acts := r.acts + [Accounted(i, true)];
          if script.overage then Tried(acts, false, BAD)
          else if script.unsaved.Some? then Tried(acts, false, script.unsaved)
          else Tried(acts + [Finished(i, completion.finish, usage)], false,
              if script.leaves then Some(Interrupted) else None)
  }

  const START := Reading([], NOTHING, None, None)

  function Try(i: nat, alias: nat, maxTokens: nat, script: Script): Tried {
    if script.refused.Some? then Tried([], false, script.refused)
    else if script.dropped.Some? then Tried([], true, script.dropped)
    else Conclude(i, maxTokens, script, ReadAll(i, alias, START, script.arrivals))
  }

  predicate HasExposed(acts: seq<Act>) {
    exists j | 0 <= j < |acts| :: acts[j].Exposed?
  }

  // The acts of a candidate with those of the error handler, and whether the next one may be tried.
  function Handled(i: nat, last: bool, fallbackOn: set<FailureKind>, cancelled: bool, tried: Tried): (seq<Act>, bool) {
    if tried.halt.None? then (tried.acts, false)
    else
      var acts := tried.acts + if tried.pending then [Accounted(i, false)] else [];
      var exposed := HasExposed(tried.acts);
      if tried.halt.value == Interrupted then (acts, false)
      else if exposed || last || (fallbackOn != {} && tried.halt.value.kind !in fallbackOn) then
        (acts + [Failed(exposed)], false)
      else (acts, !cancelled)
  }

  // ----- all candidates -----

  datatype Setup = Setup(alias: nat, maxTokens: nat, fallbackOn: set<FailureKind>)

  function Step(setup: Setup, scripts: seq<Script>, i: nat): (seq<Act>, bool)
    requires i < |scripts|
  {
    Handled(i, i + 1 == |scripts|, setup.fallbackOn, scripts[i].cancelled,
        Try(i, setup.alias, setup.maxTokens, scripts[i]))
  }

  // Everything from candidate `i` on.
  function Log(setup: Setup, scripts: seq<Script>, i: nat): seq<Act>
    decreases |scripts| - i
  {
    if i >= |scripts| then []
    else
      var (acts, more) := Step(setup, scripts, i);
      acts + if more then Log(setup, scripts, i + 1) else []
  }

  method ReadStream(i: nat, alias: nat, script: Script, collector: StreamCollector)
    returns (exposed: bool, observation: Option<Observation>, halt: Option<Halt>, acts: seq<Act>)
    requires collector.View() == NOTHING
    modifies collector
    ensures
      var r := ReadAll(i, alias, START, script.arrivals);
      && acts == r.acts && observation == r.observation && halt == r.halt && exposed == HasExposed(r.acts)
      && (halt.None? ==> collector.View() == r.collected)
  {
    exposed, observation, halt, acts := false, None, None, [];
    var n := 0;
    while n < |script.arrivals|
      invariant n <= |script.arrivals| && halt.None? && exposed == HasExposed(acts)
      invariant ReadAll(i, alias, START, script.arrivals)
        == ReadAll(i, alias, Reading(acts, collector.View(), observation, None), script.arrivals[n..])
    {
      var arrival := script.arrivals[n];
      assert script.arrivals[n..][0] == arrival && script.arrivals[n..][1..] == script.arrivals[n + 1..];
      n := n + 1;
      if arrival.before.Some? {
        halt := arrival.before;
        return;
      }
      match arrival.event {
        case UpstreamError =>
          halt := BAD;
          return;
        case Observed(o) =>
          if observation.Some? {
            halt := BAD;
            return;
          }
          observation := Some(o);
        case Data(chunk) =>
          if observation.Some? || chunk.model != alias {
            halt := BAD;
            return;
          }
          var ok := collector.Accept(chunk);
          if !ok {
            halt := BAD;
            return;
          }
          if chunk.choice.Some? && Visible(chunk.choice.value.delta) {
            acts, exposed := acts + [Exposed(i, Shown(chunk))], true;
            assert acts[|acts| - 1].Exposed?;
            if arrival.after.Some? {
              halt := arrival.after;
              return;
            }
          }
      }
    }
  }

  method TryCandidate(i: nat, setup: Setup, script: Script)
      returns (acts: seq<Act>, pending: bool, exposed: bool, halt: Option<Halt>)
    ensures Tried(acts, pending, halt) == Try(i, setup.alias, setup.maxTokens, script)
    ensures exposed == HasExposed(acts)
  {
    hide Ordered, ReadAll, AcceptChoice;
    acts, pending, exposed, halt := [], false, false, script.refused;
    if halt.Some? {
      return;
    }
    pending, halt := true, script.dropped;
    if halt.Some? {
      return;
    }
    var collector := new StreamCollector();
    var observation;
    exposed, observation, halt, acts := ReadStream(i, setup.alias, script, collector);
    if halt.Some? {
      return;
    }
    halt := script.ends;
    if halt.Some? {
      return;
    }
    var completion := collector.ToCompletion();
    var usage := if observation.Some? then observation.value.usage else collector.usage;
    if completion.None? || !script.valid(completion.value)
        || (usage.Some? && usage.value.completion > setup.maxTokens) {
      halt := BAD;
      return;
    }
    halt := script.unsettled;
    if halt.Some? {
      return;
    }
    ExposedPrefix(acts, [Accounted(i, true)]);
    acts, pending := acts + [Accounted(i, true)], false;
    if script.overage {
      halt := BAD;
      return;
    }
    halt := script.unsaved;
    if halt.Some? {
      return;
    }
    ExposedPrefix(acts, [Finished(i, completion.value.finish, usage)]);
    acts := acts + [Finished(i, completion.value.finish, usage)];
    halt := if script.leaves then Some(Interrupted) else None;
  }

  lemma ExposedPrefix(acts: seq<Act>, more: seq<Act>)
    requires forall j | 0 <= j < |more| :: !more[j].Exposed?
    ensures HasExposed(acts + more) == HasExposed(acts)
  {
    if HasExposed(acts) {
      var j :| 0 <= j < |acts| && acts[j].Exposed?;
      assert (acts + more)[j].Exposed?;
    }
  }

  method Handle(i: nat, last: bool, setup: Setup, cancelled: bool, tried: seq<Act>, pending: bool, exposed: bool,
      halt: Option<Halt>)
    returns (acts: seq<Act>, more: bool)
    requires exposed == HasExposed(tried)
    ensures (acts, more) == Handled(i, last, setup.fallbackOn, cancelled, Tried(tried, pending, halt))
  {
    hide HasExposed;
    acts, more := tried, false;
    if halt.None? {
      return;
    }
    acts := acts + if pending then [Accounted(i, false)] else [];
    if halt.value == Interrupted {
      return;
    }
    if exposed || last || (setup.fallbackOn != {} && halt.value.kind !in setup.fallbackOn) {
      acts := acts + [Failed(exposed)];
      return;
    }
    more := !cancelled;
  }

  lemma LogStep(setup: Setup, scripts: seq<Script>, log: seq<Act>, i: nat)
    requires i < |scripts|
    ensures
      var (acts, more) := Step(setup, scripts, i);
      log + Log(setup, scripts, i) == log + acts + if more then Log(setup, scripts, i + 1) else []
  {
    hide Step;
  }

  method Stream(setup: Setup, scripts: seq<Script>) returns (log: seq<Act>)
    ensures log == Log(setup, scripts, 0)
  {
    hide Try, Handled, HasExposed;
    log := [];
    var i := 0;
    while i < |scripts|
      invariant i <= |scripts|
      invariant Log(setup, scripts, 0) == log + Log(setup, scripts, i)
    {
      hide Log;
      LogStep(setup, scripts, log, i);
      var acts, pending, exposed, halt := TryCandidate(i, setup, scripts[i]);
      var more;
      acts, more := Handle(i, i + 1 == |scripts|, setup, scripts[i].cancelled, acts, pending, exposed, halt);
      log := log + acts;
      if !more {
        return;
      }
      i := i + 1;
    }
  }

  // ----- what the shown chunks add up to -----

  function TextIn(a: Act): string {
    if a.Exposed? && a.chunk.choice.Some? then Text(a.chunk.choice.value.delta.content) else ""
  }

  function PartsIn(a: Act): seq<Part> {
    if a.Exposed? && a.chunk.choice.Some? then a.chunk.choice.value.delta.parts else []
  }

  function AllText(acts: seq<Act>): string {
    if acts == [] then "" else TextIn(acts[0]) + AllText(acts[1..])
  }

  function AllParts(acts: seq<Act>): seq<Part> {
    if acts == [] then [] else PartsIn(acts[0]) + AllParts(acts[1..])
  }

  function At(parts: seq<Part>, k: Index): seq<Part> {
    if parts == [] then []
    else (if parts[0].index == k then [parts[0]] else []) + At(parts[1..], k)
  }

  function Join(parts: seq<Part>): string {
    if parts == [] then "" else Arguments(parts[0]) + Join(parts[1..])
  }

  // One call from its deltas: identified by the first, its arguments in pieces.
  function CallOf(parts: seq<Part>): ToolCall
    requires parts != []
  {
    ToolCall(Text(parts[0].id), Name(parts[0]), Join(parts))
  }

  function CallsOf(parts: seq<Part>, k: nat): seq<ToolCall>
    requires k <= 8
    decreases 8 - k
  {
    if k == 8 then [] else (if At(parts, k) != [] then [CallOf(At(parts, k))] else []) + CallsOf(parts, k + 1)
  }

  // The completion a client reads off the chunks it was shown.
  function Reassembled(acts: seq<Act>, finish: Finish, usage: Option<Usage>): Completion {
    Completion(if AllText(acts) == "" then None else Some(AllText(acts)), CallsOf(AllParts(acts), 0), finish, usage)
  }

  ghost predicate Matches(calls: map<Index, ToolCall>, parts: seq<Part>) {
    forall k: Index ::
      && (k in calls <==> At(parts, k) != [])
      && (k in calls ==> calls[k] == CallOf(At(parts, k)))
  }

  lemma {:induction false} TextAppend(acts: seq<Act>, a: Act)
    ensures AllText(acts + [a]) == AllText(acts) + TextIn(a)
    decreases |acts|
  {
    hide TextIn;
    if acts == [] {
      assert acts + [a] == [a] && [a][1..] == [];
    } else {
      assert (acts + [a])[0] == acts[0] && (acts + [a])[1..] == acts[1..] + [a];
      TextAppend(acts[1..], a);
      assert TextIn(acts[0]) + (AllText(acts[1..]) + TextIn(a)) == TextIn(acts[0]) + AllText(acts[1..]) + TextIn(a);
    }
  }

  lemma {:induction false} PartsAppend(acts: seq<Act>, a: Act)
    ensures AllParts(acts + [a]) == AllParts(acts) + PartsIn(a)
    decreases |acts|
  {
    hide PartsIn;
    if acts == [] {
      assert acts + [a] == [a] && [a][1..] == [];
    } else {
      assert (acts + [a])[0] == acts[0] && (acts + [a])[1..] == acts[1..] + [a];
      PartsAppend(acts[1..], a);
      assert PartsIn(acts[0]) + (AllParts(acts[1..]) + PartsIn(a)) ==
          PartsIn(acts[0]) + AllParts(acts[1..]) + PartsIn(a);
    }
  }

  lemma {:induction false} AtAppend(parts: seq<Part>, p: Part, k: Index)
    ensures At(parts + [p], k) == At(parts, k) + (if p.index == k then [p] else [])
    decreases |parts|
  {
    if parts != [] {
      assert (parts + [p])[1..] == parts[1..] + [p];
      AtAppend(parts[1..], p, k);
    } else {
      assert (parts + [p])[1..] == [];
    }
  }

  lemma {:induction false} JoinAppend(parts: seq<Part>, p: Part)
    ensures Join(parts + [p]) == Join(parts) + Arguments(p)
    decreases |parts|
  {
    if parts != [] {
      assert (parts + [p])[1..] == parts[1..] + [p];
      JoinAppend(parts[1..], p);
    } else {
      assert (parts + [p])[1..] == [];
    }
  }

  lemma CallAppend(parts: seq<Part>, p: Part)
    requires parts != []
    ensures CallOf(parts + [p]) == CallOf(parts).(arguments := CallOf(parts).arguments + Arguments(p))
  {
    JoinAppend(parts, p);
  }

  lemma PartMatches(calls: map<Index, ToolCall>, before: seq<Part>, p: Part)
    requires Matches(calls, before) && AcceptPart(calls, p).Some?
    ensures Matches(AcceptPart(calls, p).value, before + [p])
  {
    var after := AcceptPart(calls, p).value;
    forall k: Index
      ensures k in after <==> At(before + [p], k) != []
      ensures k in after ==> after[k] == CallOf(At(before + [p], k))
    {
      hide CallOf;
      AtAppend(before, p, k);
      if k == p.index {
        if k in calls {
          CallAppend(At(before, k), p);
        } else {
          assert At(before + [p], k) == [p];
          SingleCall(p);
        }
      } else {
        assert At(before + [p], k) == At(before, k);
      }
    }
  }

  lemma SingleCall(p: Part)
    ensures CallOf([p]) == ToolCall(Text(p.id), Name(p), Arguments(p))
  {
    assert Join([p]) == Arguments(p) + Join([]);
  }

  lemma {:induction false} PartsMatch(calls: map<Index, ToolCall>, before: seq<Part>, parts: seq<Part>)
    requires Matches(calls, before) && AcceptParts(calls, parts).Some?
    ensures Matches(AcceptParts(calls, parts).value, before + parts)
    decreases |parts|
  {
    hide Matches, AcceptPart;
    if parts == [] {
      assert before + parts == before;
    } else {
      PartMatches(calls, before, parts[0]);
      PartsMatch(AcceptPart(calls, parts[0]).value, before + [parts[0]], parts[1..]);
      assert before + [parts[0]] + parts[1..] == before + parts;
    }
  }

  lemma {:induction false} OrderedMatches(calls: map<Index, ToolCall>, parts: seq<Part>, k: nat)
    requires Matches(calls, parts) && k <= 8
    ensures Ordered(calls, k) == CallsOf(parts, k)
    decreases 8 - k
  {
    if k < 8 {
      OrderedMatches(calls, parts, k + 1);
    }
  }

  // ----- one candidate -----

  // All acts show chunks of candidate `i`, without a finish reason, and the collector has exactly what
  // they show.
  ghost predicate Showing(i: nat, acts: seq<Act>) {
    forall j | 0 <= j < |acts| ::
      acts[j].Exposed? && acts[j].candidate == i && acts[j].chunk.choice.Some?
          && acts[j].chunk.choice.value.finish.None?
  }

  ghost predicate Faithful(i: nat, r: Reading) {
    Showing(i, r.acts) && r.collected.text == AllText(r.acts) && Matches(r.collected.calls, AllParts(r.acts))
  }

  lemma AcceptedGrows(s: Collected, chunk: Chunk, parts: seq<Part>)
    requires Matches(s.calls, parts) && Accepted(s, chunk).Some?
    ensures
      var next := Accepted(s, chunk).value;
      if chunk.choice.Some? then
        next.text == s.text + Text(chunk.choice.value.delta.content)
            && Matches(next.calls, parts + chunk.choice.value.delta.parts)
      else next.text == s.text && next.calls == s.calls
  {
    hide Matches;
    if chunk.choice.Some? {
      PartsMatch(s.calls, parts, chunk.choice.value.delta.parts);
    }
  }

  lemma ShowOne(i: nat, acts: seq<Act>, chunk: Chunk)
    requires Showing(i, acts) && chunk.choice.Some?
    ensures
      var more := acts + [Exposed(i, Shown(chunk))];
      && Showing(i, more)
      && AllText(more) == AllText(acts) + Text(chunk.choice.value.delta.content)
      && AllParts(more) == AllParts(acts) + chunk.choice.value.delta.parts
  {
    TextAppend(acts, Exposed(i, Shown(chunk)));
    PartsAppend(acts, Exposed(i, Shown(chunk)));
  }

  lemma ReadStaysFaithful(i: nat, alias: nat, r: Reading, a: Arrival)
    requires Faithful(i, r)
    ensures Faithful(i, Read(i, alias, r, a))
  {
    hide Matches, Showing, Accepted, AllText, AllParts;
    if a.event.Data? && Accepted(r.collected, a.event.chunk).Some? {
      var chunk := a.event.chunk;
      AcceptedGrows(r.collected, chunk, AllParts(r.acts));
      if chunk.choice.Some? {
        var delta := chunk.choice.value.delta;
        if Visible(delta) {
          ShowOne(i, r.acts, chunk);
        } else {
          assert AllParts(r.acts) + delta.parts == AllParts(r.acts);
          assert r.collected.text + Text(delta.content) == r.collected.text;
        }
      }
    }
  }

  lemma {:induction false} ReadingIsFaithful(i: nat, alias: nat, r: Reading, arrivals: seq<Arrival>)
    requires Faithful(i, r)
    ensures Faithful(i, ReadAll(i, alias, r, arrivals))
    decreases |arrivals|
  {
    if arrivals != [] && r.halt.None? {
      hide Faithful, Read;
      ReadStaysFaithful(i, alias, r, arrivals[0]);
      ReadingIsFaithful(i, alias, Read(i, alias, r, arrivals[0]), arrivals[1..]);
    }
  }

  // What may follow the `shown` exposures of candidate `i`.
  ghost predicate Ending(i: nat, exposed: bool, tail: seq<Act>, more: bool) {
    || (tail == [] && !exposed)
    || (|tail| == 1 && tail[0].Accounted? && tail[0].candidate == i && (exposed ==> !more))
    || (tail == [Failed(exposed)] && !exposed && !more)
    || (|tail| == 2 && tail[0] == Accounted(i, true) && tail[1].Finished? && tail[1].candidate == i && !more)
    || (|tail| == 2 && tail[0].Accounted? && tail[0].candidate == i && tail[1] == Failed(exposed) && !more)
  }

  // What concluding adds to the exposures: nothing, the accounting, or the accounting and the end.
  ghost predicate Concluded(i: nat, exposed: bool, tried: Tried, rest: seq<Act>) {
    || (rest == [] && tried.halt.Some? && (exposed ==> tried.pending))
    || (rest == [Accounted(i, true)] && !tried.pending && tried.halt.Some?)
    || (&& |rest| == 2 && rest[0] == Accounted(i, true) && rest[1].Finished? && rest[1].candidate == i
        && !tried.pending && (tried.halt.Some? ==> tried.halt == Some(Interrupted)))
  }

  // If a last chunk is sent, the completion the shown chunks add up to is one that passed validation.
  ghost predicate Checked(script: Script, shown: seq<Act>, tail: seq<Act>, usage: Option<Usage>) {
    tail != [] && tail[|tail| - 1].Finished? ==> script.valid(Reassembled(shown, tail[|tail| - 1].finish, usage))
  }

  // Nothing but what was read to its end is closed by a last chunk.
  ghost predicate Heard(alias: nat, c: nat, script: Script, shown: seq<Act>, tail: seq<Act>) {
    tail != [] && tail[|tail| - 1].Finished? ==>
      var r := ReadAll(c, alias, START, script.arrivals);
      r.halt.None? && script.ends.None? && shown == r.acts && r.collected.finish == Some(tail[|tail| - 1].finish)
  }

  lemma ConclusionIsFaithful(i: nat, maxTokens: nat, script: Script, r: Reading) returns (rest: seq<Act>)
    requires Faithful(i, r)
    ensures Conclude(i, maxTokens, script, r).acts == r.acts + rest
    ensures Concluded(i, r.acts != [], Conclude(i, maxTokens, script, r), rest)
    ensures Checked(script, r.acts, rest, r.collected.usage)
    ensures rest != [] && rest[|rest| - 1].Finished? ==>
      r.halt.None? && script.ends.None? && r.collected.finish == Some(rest[|rest| - 1].finish)
  {
    hide Showing, Ordered, CallsOf, AllText, AllParts;
    OrderedMatches(r.collected.calls, AllParts(r.acts), 0);
    var tried := Conclude(i, maxTokens, script, r);
    rest := tried.acts[|r.acts|..];
  }

  lemma HandledEnding(i: nat, last: bool, fallbackOn: set<FailureKind>, cancelled: bool, tried: Tried,
      shown: seq<Act>, rest: seq<Act>)
    returns (tail: seq<Act>)
    requires tried.acts == shown + rest && Concluded(i, shown != [], tried, rest)
        && (HasExposed(tried.acts) <==> shown != [])
    ensures
      var (acts, more) := Handled(i, last, fallbackOn, cancelled, tried);
      acts == shown + tail && Ending(i, shown != [], tail, more)
    ensures tail != [] && tail[|tail| - 1].Finished? ==> tail == rest
  {
    hide HasExposed;
    var exposed := HasExposed(tried.acts);
    tail := rest;
    if tried.halt.Some? {
      tail := tail + if tried.pending then [Accounted(i, false)] else [];
      if tried.halt.value != Interrupted
          && (exposed || last || (fallbackOn != {} && tried.halt.value.kind !in fallbackOn)) {
        tail := tail + [Failed(exposed)];
      }
    }
  }

  lemma NothingIsFaithful(i: nat)
    ensures Faithful(i, START)
  {
  }

  // The acts of one candidate: exposures, then a fitting end.
  lemma StepShape(setup: Setup, scripts: seq<Script>, i: nat)
      returns (shown: seq<Act>, tail: seq<Act>, usage: Option<Usage>)
    requires i < |scripts|
    ensures
      var (acts, more) := Step(setup, scripts, i);
      acts == shown + tail && Showing(i, shown) && Ending(i, shown != [], tail, more)
          && Checked(scripts[i], shown, tail, usage)
    ensures Heard(setup.alias, i, scripts[i], shown, tail)
  {
    var script := scripts[i];
    var tried := Try(i, setup.alias, setup.maxTokens, script);
    var rest: seq<Act> := [];
    shown, usage := [], None;
    if script.refused.None? && script.dropped.None? {
      hide Conclude, ReadAll, Concluded, Faithful, Checked;
      NothingIsFaithful(i);
      ReadingIsFaithful(i, setup.alias, START, script.arrivals);
      var r := ReadAll(i, setup.alias, START, script.arrivals);
      rest := ConclusionIsFaithful(i, setup.maxTokens, script, r);
      FaithfulShows(i, r);
      shown, usage := r.acts, r.collected.usage;
    }
    assert Concluded(i, shown != [], tried, rest) && Checked(script, shown, rest, usage) && Showing(i, shown);
    assert tried.acts == shown + rest;
    hide Try, Concluded, Handled, Ending, Reassembled;
    NothingExposed(i, shown != [], tried, rest);
    ShownExposes(i, shown, rest);
    tail := HandledEnding(i, i + 1 == |scripts|, setup.fallbackOn, script.cancelled, tried, shown, rest);
  }

  lemma NothingExposed(i: nat, exposed: bool, tried: Tried, rest: seq<Act>)
    requires Concluded(i, exposed, tried, rest)
    ensures forall j | 0 <= j < |rest| :: !rest[j].Exposed?
  {
  }

  lemma FaithfulShows(i: nat, r: Reading)
    requires Faithful(i, r)
    ensures Showing(i, r.acts)
  {
  }

  lemma ShownExposes(i: nat, shown: seq<Act>, rest: seq<Act>)
    requires Showing(i, shown) && forall j | 0 <= j < |rest| :: !rest[j].Exposed?
    ensures HasExposed(shown + rest) <==> shown != []
  {
    if shown != [] {
      assert (shown + rest)[0].Exposed?;
    }
  }

  // ----- the whole answer -----

  // Attempts that came to nothing, one after the other.
  ghost predicate Fruitless(acts: seq<Act>, from: nat, to: nat) {
    && (forall j | 0 <= j < |acts| :: acts[j].Accounted? && from <= acts[j].candidate < to)
    && (forall j, k | 0 <= j < k < |acts| :: acts[j].candidate < acts[k].candidate)
  }

  // The log up to the candidate `c` that decides it, and what that candidate did.
  datatype Layout = Layout(prefix: seq<Act>, c: nat, shown: seq<Act>, tail: seq<Act>, usage: Option<Usage>)

  ghost predicate LaidOut(scripts: seq<Script>, log: seq<Act>, i: nat, l: Layout) {
    && log == l.prefix + l.shown + l.tail
    && i <= l.c < |scripts| && Fruitless(l.prefix, i, l.c)
    && Showing(l.c, l.shown) && Ending(l.c, l.shown != [], l.tail, false)
    && Checked(scripts[l.c], l.shown, l.tail, l.usage)
  }

  lemma {:induction false} LogLayout(setup: Setup, scripts: seq<Script>, i: nat) returns (l: Layout)
    requires i < |scripts|
    ensures LaidOut(scripts, Log(setup, scripts, i), i, l)
    ensures Heard(setup.alias, l.c, scripts[l.c], l.shown, l.tail)
    decreases |scripts| - i
  {
    hide Step, Checked, Showing, Ending, Fruitless, Log, Heard;
    var (acts, more) := Step(setup, scripts, i);
    var shown, tail, usage := StepShape(setup, scripts, i);
    LastEnds(setup, scripts, i);
    LogUnfolds(setup, scripts, i);
    if more {
      var rest := LogLayout(setup, scripts, i + 1);
      Longer(i, shown, tail, rest.prefix, rest.c);
      l := rest.(prefix := tail + rest.prefix);
      assert [] + tail == tail;
      Regroup(tail, rest.prefix + rest.shown, rest.tail);
      Regroup(tail, rest.prefix, rest.shown);
    } else {
      l := Layout([], i, shown, tail, usage);
      NothingTried(i);
      assert [] + shown == shown && acts + [] == acts;
    }
  }

  lemma NothingTried(i: nat)
    ensures Fruitless([], i, i)
  {
  }

  lemma LogUnfolds(setup: Setup, scripts: seq<Script>, i: nat)
    requires i < |scripts|
    ensures
      var (acts, more) := Step(setup, scripts, i);
      Log(setup, scripts, i) == acts + if more then Log(setup, scripts, i + 1) else []
  {
    hide Step;
  }

  lemma Longer(i: nat, shown: seq<Act>, tail: seq<Act>, prefix: seq<Act>, c: nat)
    requires Ending(i, shown != [], tail, true) && Fruitless(prefix, i + 1, c) && i < c
    ensures shown == [] && Fruitless(tail + prefix, i, c)
  {
    var all := tail + prefix;
    if tail == [] {
      assert all == prefix;
    } else {
      forall j | 0 <= j < |all|
        ensures all[j] == if j == 0 then tail[0] else prefix[j - 1]
      {
      }
    }
  }

  lemma LastEnds(setup: Setup, scripts: seq<Script>, i: nat)
    requires i < |scripts|
    ensures Step(setup, scripts, i).1 ==> i + 1 < |scripts|
  {
  }

  // All chunks come from one candidate, and after the first no other candidate is tried.
  ghost predicate OneSource(log: seq<Act>) {
    forall j, k | 0 <= j < k < |log| && log[j].Exposed? :: log[k].Failed? || log[k].candidate == log[j].candidate
  }

  // No chunk carries a finish reason, and whoever showed one is accounted for afterwards.
  ghost predicate ShownIsAccounted(log: seq<Act>) {
    forall j | 0 <= j < |log| && log[j].Exposed? ::
      && log[j].chunk.choice.Some? && log[j].chunk.choice.value.finish.None?
      && exists k :: j < k < |log| && log[k].Accounted? && log[k].candidate == log[j].candidate
  }

  ghost predicate AccountedOnce(log: seq<Act>) {
    forall j, k | 0 <= j < k < |log| && log[j].Accounted? && log[k].Accounted? :: log[j].candidate < log[k].candidate
  }

  ghost predicate EndsLast(log: seq<Act>) {
    forall j | 0 <= j < |log| && (log[j].Finished? || log[j].Failed?) :: j == |log| - 1
  }

  // The finish reason comes directly after successful accounting; a failure says truly whether
  // anything had been shown.
  ghost predicate EndIsTrue(log: seq<Act>) {
    && (forall j | 0 <= j < |log| && log[j].Finished? :: j > 0 && log[j - 1] == Accounted(log[j].candidate, true))
    && (forall j | 0 <= j < |log| && log[j].Failed? :: log[j].partial <==> HasExposed(log))
  }

  /** Whatever providers, clients and services do: all chunks a client sees come from one candidate, and
      no other candidate is tried after them; none of them carries a finish reason; every candidate that
      showed anything is accounted for afterwards, and none twice. The chunk with the finish reason, or
      the failure, comes last; the former directly after successful accounting, the latter marked
      partial exactly when something had been shown. */
  lemma DeliveryIsSafe(setup: Setup, scripts: seq<Script>)
    requires scripts != []
    ensures
      var log := Log(setup, scripts, 0);
      OneSource(log) && ShownIsAccounted(log) && AccountedOnce(log) && EndsLast(log) && EndIsTrue(log)
  {
    var log := Log(setup, scripts, 0);
    var l := LogLayout(setup, scripts, 0);
    PrefixFacts(log, l, scripts);
    TailFacts(log, l, scripts);
    hide LaidOut, Log, Front, Back;
    LayoutIsSafe(log, |l.prefix|, |l.prefix| + |l.shown|, l.c);
  }

  lemma LayoutIsSafe(log: seq<Act>, m: nat, n: nat, c: nat)
    requires Front(log, m, n, c) && Back(log, m, n, c)
    ensures OneSource(log) && ShownIsAccounted(log) && AccountedOnce(log) && EndsLast(log) && EndIsTrue(log)
  {
    hide HasExposed;
    ExposedThere(log, m, n);
    if m < n {
      assert log[n].Accounted? && log[n].candidate == c;
    }
  }

  // `log` up to `n`: fruitless attempts up to `m`, then the chunks of candidate `c`.
  ghost predicate Front(log: seq<Act>, m: nat, n: nat, c: nat) {
    && m <= n <= |log|
    && (forall j | 0 <= j < m :: log[j].Accounted? && log[j].candidate < c)
    && (forall j, k | 0 <= j < k < m :: log[j].candidate < log[k].candidate)
    && (forall j | m <= j < n ::
         log[j].Exposed? && log[j].candidate == c && log[j].chunk.choice.Some?
             && log[j].chunk.choice.value.finish.None?)
  }

  // From `n` on: how it ends.
  ghost predicate Back(log: seq<Act>, m: nat, n: nat, c: nat) {
    && n <= |log| <= n + 2
    && (|log| == n ==> m == n)
    && (|log| == n + 1 ==>
         || (log[n].Accounted? && log[n].candidate == c)
         || (log[n] == Failed(false) && m == n))
    && (|log| == n + 2 ==>
         && log[n].Accounted? && log[n].candidate == c
         && (|| (log[n].settled && log[n + 1].Finished? && log[n + 1].candidate == c)
             || log[n + 1] == Failed(m < n)))
  }

  lemma ExposedThere(log: seq<Act>, m: nat, n: nat)
    requires m <= n <= |log| && forall j | 0 <= j < |log| :: log[j].Exposed? <==> m <= j < n
    ensures HasExposed(log) <==> m < n
  {
    if m < n {
      assert log[m].Exposed?;
    }
  }

  lemma PrefixFacts(log: seq<Act>, l: Layout, scripts: seq<Script>)
    requires LaidOut(scripts, log, 0, l)
    ensures Front(log, |l.prefix|, |l.prefix| + |l.shown|, l.c)
  {
    hide Ending, Checked;
    var m := |l.prefix|;
    forall j | m <= j < m + |l.shown|
      ensures log[j] == l.shown[j - m]
    {
    }
  }

  lemma TailFacts(log: seq<Act>, l: Layout, scripts: seq<Script>)
    requires LaidOut(scripts, log, 0, l)
    ensures Back(log, |l.prefix|, |l.prefix| + |l.shown|, l.c)
  {
    hide Fruitless, Showing, Checked;
    var n := |l.prefix| + |l.shown|;
    forall j | 0 <= j < |l.tail|
      ensures log[n + j] == l.tail[j]
    {
    }
  }

  lemma {:induction false} QuietBefore(quiet: seq<Act>, acts: seq<Act>)
    requires forall j | 0 <= j < |quiet| :: !quiet[j].Exposed?
    ensures AllText(quiet + acts) == AllText(acts) && AllParts(quiet + acts) == AllParts(acts)
    decreases |quiet|
  {
    if quiet == [] {
      assert quiet + acts == acts;
    } else {
      assert (quiet + acts)[0] == quiet[0] && (quiet + acts)[1..] == quiet[1..] + acts;
      QuietBefore(quiet[1..], acts);
    }
  }

  lemma {:induction false} QuietAfter(acts: seq<Act>, quiet: seq<Act>)
    requires forall j | 0 <= j < |quiet| :: !quiet[j].Exposed?
    ensures AllText(acts + quiet) == AllText(acts) && AllParts(acts + quiet) == AllParts(acts)
    decreases |quiet|
  {
    hide AllText, AllParts;
    if quiet == [] {
      assert acts + quiet == acts;
    } else {
      TextAppend(acts, quiet[0]);
      PartsAppend(acts, quiet[0]);
      assert AllText(acts) + "" == AllText(acts) && AllParts(acts) + [] == AllParts(acts);
      QuietAfter(acts + [quiet[0]], quiet[1..]);
      assert acts + [quiet[0]] + quiet[1..] == acts + quiet;
    }
  }

  /** If the answer ends with a finish reason, the text and the tool calls that the client reads off the
      chunks it was shown are those of one completion that passed the request's validation. */
  lemma DeliveredIsValidated(setup: Setup, scripts: seq<Script>)
    requires scripts != []
    ensures
      var log := Log(setup, scripts, 0);
      log != [] && log[|log| - 1].Finished? ==>
        var end := log[|log| - 1];
        end.candidate < |scripts| && exists usage :: scripts[end.candidate].valid(Reassembled(log, end.finish, usage))
  {
    hide AllText, AllParts, CallsOf, Log, LaidOut, Reassembled, Checked;
    var log := Log(setup, scripts, 0);
    var l := LogLayout(setup, scripts, 0);
    if log != [] && log[|log| - 1].Finished? {
      var end := log[|log| - 1];
      EndIsTail(scripts, log, l);
      QuietAfter(l.prefix + l.shown, l.tail);
      QuietBefore(l.prefix, l.shown);
      SameReading(log, l.shown, end.finish, l.usage);
      CheckedEnd(scripts[l.c], l.shown, l.tail, l.usage);
      assert scripts[end.candidate].valid(Reassembled(log, end.finish, l.usage));
    }
  }

  lemma SameReading(a: seq<Act>, b: seq<Act>, finish: Finish, usage: Option<Usage>)
    requires AllText(a) == AllText(b) && AllParts(a) == AllParts(b)
    ensures Reassembled(a, finish, usage) == Reassembled(b, finish, usage)
  {
    hide AllText, AllParts, CallsOf;
  }

  lemma CheckedEnd(script: Script, shown: seq<Act>, tail: seq<Act>, usage: Option<Usage>)
    requires Checked(script, shown, tail, usage) && tail != [] && tail[|tail| - 1].Finished?
    ensures script.valid(Reassembled(shown, tail[|tail| - 1].finish, usage))
  {
    hide Reassembled;
  }

  lemma EndIsTail(scripts: seq<Script>, log: seq<Act>, l: Layout)
    requires LaidOut(scripts, log, 0, l) && log != [] && log[|log| - 1].Finished?
    ensures l.c < |scripts| && log == l.prefix + l.shown + l.tail && Checked(scripts[l.c], l.shown, l.tail, l.usage)
    ensures l.tail != [] && l.tail[|l.tail| - 1] == log[|log| - 1] && log[|log| - 1].candidate == l.c
    ensures forall j | 0 <= j < |l.tail| :: !l.tail[j].Exposed?
    ensures forall j | 0 <= j < |l.prefix| :: !l.prefix[j].Exposed?
  {
    hide Checked;
    assert l.tail == [] ==> log == l.prefix + l.shown;
  }
}

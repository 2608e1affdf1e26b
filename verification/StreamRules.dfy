/**
 Which chunks a stream may consist of, told from the chunks sent so far: the rules that the collector
 keeps by what it has collected.
 */
module StreamRules {
  import opened Basics
  import opened Failures
  import opened StreamDelivery

  // Taking one chunk after the other; None once one is refused.
  function Collect(chunks: seq<Chunk>): Option<Collected>
    decreases |chunks|
  {
    if chunks == [] then Some(NOTHING)
    else
      match Collect(chunks[..|chunks| - 1])
      case None => None
      case Some(s) => Accepted(s, chunks[|chunks| - 1])
  }

  function DeltaIn(c: Chunk): Delta { if c.choice.Some? then c.choice.value.delta else Delta(false, None, []) }

  function TextSent(chunks: seq<Chunk>): string
    decreases |chunks|
  {
    if chunks == [] then "" else TextSent(chunks[..|chunks| - 1]) + Text(DeltaIn(chunks[|chunks| - 1]).content)
  }

  function PartsSent(chunks: seq<Chunk>): seq<Part>
    decreases |chunks|
  {
    if chunks == [] then [] else PartsSent(chunks[..|chunks| - 1]) + DeltaIn(chunks[|chunks| - 1]).parts
  }

  // ----- the rules -----

  predicate Reports(c: Chunk, usage: Usage) { c.usage == Some(usage) }

  predicate Closes(c: Chunk, finish: Finish) { c.choice.Some? && c.choice.value.finish == Some(finish) }

  // A tool delta after these: the first of a call names it properly, later ones do not contradict it,
  // and the arguments stay within their bound.
  predicate PartFits(sent: seq<Part>, p: Part) {
    var mine := At(sent, p.index);
    if mine == [] then
      && Text(p.id) != "" && 1 <= |Name(p)| <= 64 && (forall i | 0 <= i < |Name(p)| :: NameChar(Name(p)[i]))
      && |Arguments(p)| <= ARGUMENTS
    else
      && (p.id.Some? ==> p.id.value == Text(mine[0].id))
      && (Name(p) != "" ==> Name(p) == Name(mine[0]))
      && |Join(mine)| + |Arguments(p)| <= ARGUMENTS
  }

  predicate PartsFit(sent: seq<Part>, parts: seq<Part>) {
    forall k | 0 <= k < |parts| :: PartFits(sent + parts[..k], parts[k])
  }

  // The size of all arguments, of the calls from the k-th on.
  function SentBytes(parts: seq<Part>, k: nat): nat
    requires k <= 8
    decreases 8 - k
  {
    if k == 8 then 0 else Bytes(Join(At(parts, k))) + SentBytes(parts, k + 1)
  }

  ghost predicate OneUsage(sent: seq<Chunk>, c: Chunk) {
    forall u, v, i | 0 <= i < |sent| && Reports(sent[i], u) && Reports(c, v) :: u == v
  }

  ghost predicate NothingAfterFinish(sent: seq<Chunk>, c: Chunk) {
    forall f, i | 0 <= i < |sent| && Closes(sent[i], f) ::
      Text(DeltaIn(c).content) == "" && DeltaIn(c).parts == [] && (forall g | Closes(c, g) :: f == g)
  }

  // One chunk after the others: the same usage as ever, nothing more to read after a finish reason, no
  // other finish reason, fitting tool deltas, and everything together within the bound.
  ghost predicate ChunkFits(sent: seq<Chunk>, c: Chunk) {
    && OneUsage(sent, c)
    && (c.choice.Some? ==>
      && NothingAfterFinish(sent, c)
      && PartsFit(PartsSent(sent), DeltaIn(c).parts)
      && Bytes(TextSent(sent) + Text(DeltaIn(c).content)) + SentBytes(PartsSent(sent) + DeltaIn(c).parts, 0) <= LIMIT)
  }

  ghost predicate Lawful(chunks: seq<Chunk>) {
    forall k | 0 <= k < |chunks| :: ChunkFits(chunks[..k], chunks[k])
  }

  // ----- what is collected is what was sent -----

  ghost predicate NamesFit(parts: seq<Part>) {
    forall k: Index | At(parts, k) != [] :: CallFits(Name(At(parts, k)[0]), "")
  }

  ghost predicate UsageSent(chunks: seq<Chunk>, usage: Option<Usage>) {
    && (usage.Some? ==> exists i :: 0 <= i < |chunks| && Reports(chunks[i], usage.value))
    && (forall u, i | 0 <= i < |chunks| && Reports(chunks[i], u) :: usage == Some(u))
  }

  ghost predicate FinishSent(chunks: seq<Chunk>, finish: Option<Finish>) {
    && (finish.Some? ==> exists i :: 0 <= i < |chunks| && Closes(chunks[i], finish.value))
    && (forall f, i | 0 <= i < |chunks| && Closes(chunks[i], f) :: finish == Some(f))
  }

  ghost predicate Collects(chunks: seq<Chunk>, s: Collected) {
    && s.text == TextSent(chunks) && Matches(s.calls, PartsSent(chunks)) && NamesFit(PartsSent(chunks))
    && UsageSent(chunks, s.usage) && FinishSent(chunks, s.finish)
  }

  lemma PartExactly(calls: map<Index, ToolCall>, sent: seq<Part>, p: Part)
    requires Matches(calls, sent) && NamesFit(sent)
    ensures AcceptPart(calls, p).Some? <==> PartFits(sent, p)
    ensures PartFits(sent, p) ==> NamesFit(sent + [p])
  {
    hide Matches, CallOf, Join, At;
    var mine := At(sent, p.index);
    MatchAt(calls, sent, p.index);
    if mine == [] {
    } else {
      CallStarts(mine);
      assert CallFits(Name(mine[0]), "");
    }
    if PartFits(sent, p) {
      forall k: Index | At(sent + [p], k) != []
        ensures CallFits(Name(At(sent + [p], k)[0]), "")
      {
        AtAppend(sent, p, k);
      }
    }
  }

  lemma MatchAt(calls: map<Index, ToolCall>, sent: seq<Part>, k: Index)
    requires Matches(calls, sent)
    ensures k in calls <==> At(sent, k) != []
    ensures k in calls ==> calls[k] == CallOf(At(sent, k))
  {
  }

  lemma CallStarts(mine: seq<Part>)
    requires mine != []
    ensures CallOf(mine) == ToolCall(Text(mine[0].id), Name(mine[0]), Join(mine))
  {
  }

  lemma {:induction false} PartsExactly(calls: map<Index, ToolCall>, sent: seq<Part>, parts: seq<Part>)
    requires Matches(calls, sent) && NamesFit(sent)
    ensures AcceptParts(calls, parts).Some? <==> PartsFit(sent, parts)
    ensures PartsFit(sent, parts) ==> NamesFit(sent + parts)
    decreases |parts|
  {
    hide Matches, AcceptPart, PartFits, NamesFit;
    if parts == [] {
      assert sent + [] == sent;
    } else {
      var p, rest := parts[0], parts[1..];
      PartExactly(calls, sent, p);
      PartsStep(sent, p, rest);
      assert parts == [p] + rest;
      if PartFits(sent, p) {
        PartMatches(calls, sent, p);
        PartsExactly(AcceptPart(calls, p).value, sent + [p], rest);
        Regroup(sent, [p], rest);
      }
    }
  }

  lemma PartsStep(sent: seq<Part>, p: Part, rest: seq<Part>)
    ensures PartsFit(sent, [p] + rest) <==> PartFits(sent, p) && PartsFit(sent + [p], rest)
  {
    hide PartFits;
    var parts := [p] + rest;
    assert sent + parts[..0] == sent;
    forall k | 0 <= k < |rest|
      ensures sent + [p] + rest[..k] == sent + parts[..k + 1] && parts[k + 1] == rest[k]
    {
    }
    if PartsFit(sent, parts) {
      assert PartFits(sent + parts[..0], parts[0]);
      forall k | 0 <= k < |rest|
        ensures PartFits(sent + [p] + rest[..k], rest[k])
      {
        assert PartFits(sent + parts[..k + 1], parts[k + 1]);
      }
    }
    if PartFits(sent, p) && PartsFit(sent + [p], rest) {
      forall k | 0 <= k < |parts|
        ensures PartFits(sent + parts[..k], parts[k])
      {
        if k > 0 {
          assert PartFits(sent + [p] + rest[..k - 1], rest[k - 1]);
        }
      }
    }
  }

  lemma {:induction false} BytesExactly(calls: map<Index, ToolCall>, parts: seq<Part>, k: nat)
    requires Matches(calls, parts) && k <= 8
    ensures ArgumentBytes(calls, k) == SentBytes(parts, k)
    decreases 8 - k
  {
    hide Matches, Join, At, Bytes;
    if k < 8 {
      MatchAt(calls, parts, k);
      if At(parts, k) != [] {
        CallStarts(At(parts, k));
      } else {
        NothingJoined();
      }
      BytesExactly(calls, parts, k + 1);
    }
  }

  lemma NothingJoined()
    ensures Join([]) == "" && Bytes("") == 0
  {
  }

  lemma ChoiceExactly(s: Collected, sent: seq<Chunk>, c: Chunk)
    requires Collects(sent, s) && c.choice.Some?
    ensures AcceptChoice(s, c.choice.value).Some? <==>
      && NothingAfterFinish(sent, c)
      && PartsFit(PartsSent(sent), DeltaIn(c).parts)
      && Bytes(TextSent(sent) + Text(DeltaIn(c).content)) + SentBytes(PartsSent(sent) + DeltaIn(c).parts, 0) <= LIMIT
  {
    hide Matches, NamesFit, AcceptParts, Bytes, PartsFit, SentBytes, TextSent, PartsSent, NothingAfterFinish,
        FinishSent, UsageSent;
    FinishRule(s.finish, sent, c);
    var delta := c.choice.value.delta;
    PartsExactly(s.calls, PartsSent(sent), delta.parts);
    if AcceptParts(s.calls, delta.parts).Some? {
      PartsMatch(s.calls, PartsSent(sent), delta.parts);
      BytesExactly(AcceptParts(s.calls, delta.parts).value, PartsSent(sent) + delta.parts, 0);
    }
  }

  lemma FinishRule(finish: Option<Finish>, sent: seq<Chunk>, c: Chunk)
    requires FinishSent(sent, finish) && c.choice.Some?
    ensures NothingAfterFinish(sent, c) <==>
      finish.Some? ==>
        && Text(DeltaIn(c).content) == "" && DeltaIn(c).parts == []
        && (c.choice.value.finish.Some? ==> c.choice.value.finish == finish)
  {
    if finish.Some? {
      var i :| 0 <= i < |sent| && Closes(sent[i], finish.value);
      if c.choice.value.finish.Some? {
        assert Closes(c, c.choice.value.finish.value);
      }
    }
  }

  lemma UsageRule(usage: Option<Usage>, sent: seq<Chunk>, c: Chunk)
    requires UsageSent(sent, usage)
    ensures OneUsage(sent, c) <==> (c.usage.Some? && usage.Some? ==> usage == c.usage)
  {
    if usage.Some? && c.usage.Some? {
      var i :| 0 <= i < |sent| && Reports(sent[i], usage.value);
      assert Reports(c, c.usage.value);
    }
  }

  lemma ChunkExactly(s: Collected, sent: seq<Chunk>, c: Chunk)
    requires Collects(sent, s)
    ensures Accepted(s, c).Some? <==> ChunkFits(sent, c)
  {
    hide Matches, NamesFit, AcceptChoice, Bytes, PartsFit, SentBytes, TextSent, PartsSent, OneUsage, UsageSent,
        NothingAfterFinish, FinishSent;
    var t := if c.usage.Some? then s.(usage := c.usage) else s;
    UsageRule(s.usage, sent, c);
    if c.choice.Some? {
      ChoiceExactly(s, sent, c);
      SameChoice(s, t, c.choice.value);
    }
  }

  // A choice does not look at the usage.
  lemma SameChoice(s: Collected, t: Collected, c: Choice)
    requires s.(usage := t.usage) == t
    ensures AcceptChoice(s, c).Some? <==> AcceptChoice(t, c).Some?
  {
    hide AcceptParts, Bytes;
  }

  lemma SentAppend(sent: seq<Chunk>, c: Chunk)
    ensures TextSent(sent + [c]) == TextSent(sent) + Text(DeltaIn(c).content)
    ensures PartsSent(sent + [c]) == PartsSent(sent) + DeltaIn(c).parts
  {
    var all := sent + [c];
    assert all[..|all| - 1] == sent && all[|all| - 1] == c;
  }

  lemma UsageAppend(sent: seq<Chunk>, c: Chunk, usage: Option<Usage>)
    requires UsageSent(sent, usage) && (c.usage.Some? && usage.Some? ==> usage == c.usage)
    ensures UsageSent(sent + [c], if c.usage.Some? then c.usage else usage)
  {
    var all := sent + [c];
    assert all[|sent|] == c && forall i | 0 <= i < |sent| :: all[i] == sent[i];
    var now := if c.usage.Some? then c.usage else usage;
    if now.Some? {
      assert exists i :: 0 <= i < |all| && Reports(all[i], now.value) by {
        if c.usage.Some? {
          assert Reports(all[|sent|], now.value);
        } else {
          var i :| 0 <= i < |sent| && Reports(sent[i], now.value);
          assert Reports(all[i], now.value);
        }
      }
    }
    forall u, i | 0 <= i < |all| && Reports(all[i], u)
      ensures now == Some(u)
    {
      if i < |sent| {
        assert Reports(sent[i], u);
      }
    }
  }

  lemma FinishAppend(sent: seq<Chunk>, c: Chunk, finish: Option<Finish>)
    requires FinishSent(sent, finish)
    requires c.choice.Some? && c.choice.value.finish.Some? && finish.Some? ==> finish == c.choice.value.finish
    ensures FinishSent(sent + [c],
        if c.choice.Some? && c.choice.value.finish.Some? then c.choice.value.finish else finish)
  {
    var all := sent + [c];
    assert all[|sent|] == c && forall i | 0 <= i < |sent| :: all[i] == sent[i];
    var now := if c.choice.Some? && c.choice.value.finish.Some? then c.choice.value.finish else finish;
    if now.Some? {
      assert exists i :: 0 <= i < |all| && Closes(all[i], now.value) by {
        if c.choice.Some? && c.choice.value.finish.Some? {
          assert Closes(all[|sent|], now.value);
        } else {
          var i :| 0 <= i < |sent| && Closes(sent[i], now.value);
          assert Closes(all[i], now.value);
        }
      }
    }
    forall f, i | 0 <= i < |all| && Closes(all[i], f)
      ensures now == Some(f)
    {
      if i < |sent| {
        assert Closes(sent[i], f);
      }
    }
  }

  lemma ChunkCollects(s: Collected, sent: seq<Chunk>, c: Chunk)
    requires Collects(sent, s) && Accepted(s, c).Some?
    ensures Collects(sent + [c], Accepted(s, c).value)
  {
    hide Matches, NamesFit, AcceptParts, Bytes, TextSent, PartsSent, UsageSent, FinishSent;
    SentAppend(sent, c);
    AcceptedGrows(s, c, PartsSent(sent));
    UsageAppend(sent, c, s.usage);
    FinishAppend(sent, c, s.finish);
    if c.choice.Some? {
      PartsExactly(s.calls, PartsSent(sent), c.choice.value.delta.parts);
    } else {
      assert PartsSent(sent) + [] == PartsSent(sent) && TextSent(sent) + "" == TextSent(sent);
    }
  }

  lemma LawfulSnoc(sent: seq<Chunk>, c: Chunk)
    ensures Lawful(sent + [c]) <==> Lawful(sent) && ChunkFits(sent, c)
  {
    hide ChunkFits;
    var all := sent + [c];
    assert all[..|sent|] == sent && all[|sent|] == c;
    assert forall k | 0 <= k < |sent| :: all[..k] == sent[..k] && all[k] == sent[k];
  }

  lemma NothingCollected()
    ensures Collects([], NOTHING) && Lawful([])
  {
  }

  /** The collector takes exactly the streams whose chunks fit one after the other, and what it holds then
      is what they sent: the text and the tool calls put together, the one usage and the one finish
      reason among them. */
  lemma {:induction false} CollectsExactly(chunks: seq<Chunk>)
    ensures Collect(chunks).Some? <==> Lawful(chunks)
    ensures Collect(chunks).Some? ==> Collects(chunks, Collect(chunks).value)
    decreases |chunks|
  {
    hide Accepted, Lawful, Collects;
    if chunks == [] {
      NothingCollected();
    } else {
      var n := |chunks| - 1;
      assert chunks == chunks[..n] + [chunks[n]];
      CollectsExactly(chunks[..n]);
      LawfulSnoc(chunks[..n], chunks[n]);
      if Collect(chunks[..n]).Some? {
        ChunkExactly(Collect(chunks[..n]).value, chunks[..n], chunks[n]);
        if Accepted(Collect(chunks[..n]).value, chunks[n]).Some? {
          ChunkCollects(Collect(chunks[..n]).value, chunks[..n], chunks[n]);
        }
      }
    }
  }

  // ----- a whole stream of events -----

  function ChunksIn(arrivals: seq<Arrival>): seq<Chunk>
    decreases |arrivals|
  {
    if arrivals == [] then []
    else
      var last := arrivals[|arrivals| - 1];
      ChunksIn(arrivals[..|arrivals| - 1]) + if last.event.Data? then [last.event.chunk] else []
  }

  ghost predicate HasObservation(arrivals: seq<Arrival>) {
    exists i :: 0 <= i < |arrivals| && arrivals[i].event.Observed?
  }

  // An event that may come after these: no check stops it, nothing comes after the observation, and a
  // chunk is under the right alias, fits, and is taken by the client if it has something to show.
  ghost predicate Welcome(alias: nat, before: seq<Arrival>, a: Arrival) {
    && a.before.None? && !a.event.UpstreamError? && !HasObservation(before)
    && (a.event.Data? ==>
      && a.event.chunk.model == alias && ChunkFits(ChunksIn(before), a.event.chunk)
      && (a.event.chunk.choice.Some? && Visible(a.event.chunk.choice.value.delta) ==> a.after.None?))
  }

  ghost predicate AllWelcome(alias: nat, arrivals: seq<Arrival>) {
    forall k | 0 <= k < |arrivals| :: Welcome(alias, arrivals[..k], arrivals[k])
  }

  ghost predicate ReadsSo(arrivals: seq<Arrival>, r: Reading) {
    && Collect(ChunksIn(arrivals)) == Some(r.collected)
    && (r.observation.Some? <==> HasObservation(arrivals))
  }

  lemma OneMore(alias: nat, before: seq<Arrival>, a: Arrival)
    ensures AllWelcome(alias, before + [a]) <==> AllWelcome(alias, before) && Welcome(alias, before, a)
    ensures ChunksIn(before + [a]) == ChunksIn(before) + if a.event.Data? then [a.event.chunk] else []
    ensures HasObservation(before + [a]) <==> HasObservation(before) || a.event.Observed?
  {
    hide Welcome;
    var all := before + [a];
    assert all[..|all| - 1] == before && all[|all| - 1] == a;
    assert forall k | 0 <= k < |before| :: all[..k] == before[..k] && all[k] == before[k];
    if HasObservation(before) {
      var i :| 0 <= i < |before| && before[i].event.Observed?;
      assert all[i].event.Observed?;
    }
    assert a.event.Observed? ==> all[|before|].event.Observed?;
  }

  lemma CollectMore(chunks: seq<Chunk>, c: Chunk)
    ensures Collect(chunks + [c]) == if Collect(chunks).Some? then Accepted(Collect(chunks).value, c) else None
  {
    var all := chunks + [c];
    assert all[..|all| - 1] == chunks && all[|all| - 1] == c;
  }

  lemma ReadOneExactly(i: nat, alias: nat, before: seq<Arrival>, r: Reading, a: Arrival)
    requires r.halt.None? && ReadsSo(before, r)
    ensures
      var next := Read(i, alias, r, a);
      && (next.halt.None? <==> Welcome(alias, before, a))
      && (next.halt.None? ==> ReadsSo(before + [a], next))
  {
    hide ChunkFits, Collects, Lawful, Accepted, Collect, ChunksIn, HasObservation;
    OneMore(alias, before, a);
    CollectsExactly(ChunksIn(before));
    if a.event.Data? {
      ChunkExactly(r.collected, ChunksIn(before), a.event.chunk);
      CollectMore(ChunksIn(before), a.event.chunk);
    } else {
      assert ChunksIn(before) + [] == ChunksIn(before);
    }
  }

  lemma {:induction false} ReadFromExactly(i: nat, alias: nat, before: seq<Arrival>, r: Reading, arrivals: seq<Arrival>)
    requires r.halt.None? && ReadsSo(before, r) && AllWelcome(alias, before)
    ensures
      var end := ReadAll(i, alias, r, arrivals);
      && (end.halt.None? <==> AllWelcome(alias, before + arrivals))
      && (end.halt.None? ==> ReadsSo(before + arrivals, end))
    decreases |arrivals|
  {
    hide Read, Welcome, ReadsSo, AllWelcome;
    if arrivals == [] {
      assert before + [] == before;
    } else {
      var a, rest := arrivals[0], arrivals[1..];
      OneMore(alias, before, a);
      ReadOneExactly(i, alias, before, r, a);
      assert before + [a] + rest == before + arrivals;
      if Read(i, alias, r, a).halt.None? {
        ReadFromExactly(i, alias, before + [a], Read(i, alias, r, a), rest);
      } else {
        Unwelcome(alias, before + [a], rest);
      }
    }
  }

  lemma Unwelcome(alias: nat, before: seq<Arrival>, rest: seq<Arrival>)
    ensures AllWelcome(alias, before + rest) ==> AllWelcome(alias, before)
  {
    hide Welcome;
    var all := before + rest;
    assert forall k | 0 <= k < |before| :: all[..k] == before[..k] && all[k] == before[k];
  }

  /** A candidate's stream is read to its end exactly when every event is welcome after those before it:
      no check stops it, nothing follows the terminal observation, and the chunks are under the alias
      and fit one after the other. */
  lemma StreamReadExactly(i: nat, alias: nat, arrivals: seq<Arrival>)
    ensures
      var r := ReadAll(i, alias, START, arrivals);
      && (r.halt.None? <==> AllWelcome(alias, arrivals))
      && (r.halt.None? ==> Collects(ChunksIn(arrivals), r.collected))
      && (r.halt.None? ==> (r.observation.Some? <==> HasObservation(arrivals)))
  {
    hide Welcome, Collects, Lawful, ReadAll;
    assert [] + arrivals == arrivals;
    assert Collect([]) == Some(NOTHING);
    ReadFromExactly(i, alias, [], START, arrivals);
    CollectsExactly(ChunksIn(arrivals));
  }

  // ----- what the client is shown -----

  // The client's copy of a chunk: all but the finish reason.
  ghost predicate IsCopy(c: Chunk, d: Chunk) {
    && c.choice.Some? && d.choice.Some? && d.model == c.model && d.usage == c.usage
    && d.choice.value.delta == c.choice.value.delta && d.choice.value.finish.None?
  }

  // There is something in it for the client: content, even if it is empty, tool calls or the role.
  predicate HasContent(c: Chunk) {
    c.choice.Some?
    && (c.choice.value.delta.content.Some? || c.choice.value.delta.parts != [] || c.choice.value.delta.role)
  }

  function ContentIn(arrivals: seq<Arrival>): seq<Chunk>
    decreases |arrivals|
  {
    if arrivals == [] then []
    else
      var last := arrivals[|arrivals| - 1];
      ContentIn(arrivals[..|arrivals| - 1])
      + if last.event.Data? && HasContent(last.event.chunk) then [last.event.chunk] else []
  }

  ghost predicate Copies(i: nat, acts: seq<Act>, chunks: seq<Chunk>) {
    |acts| == |chunks| && forall j | 0 <= j < |acts| ::
      acts[j].Exposed? && acts[j].candidate == i && IsCopy(chunks[j], acts[j].chunk)
  }

  // The first event that is not welcome is the n-th.
  ghost predicate WelcomeUpTo(alias: nat, arrivals: seq<Arrival>, n: nat) {
    && n <= |arrivals| && AllWelcome(alias, arrivals[..n])
    && (n < |arrivals| ==> !Welcome(alias, arrivals[..n], arrivals[n]))
  }

  // It would be welcome if the client took it.
  ghost predicate OnlyNotTaken(alias: nat, before: seq<Arrival>, a: Arrival) {
    a.event.Data? && HasContent(a.event.chunk) && a.after.Some? && Welcome(alias, before, a.(after := None))
  }

  ghost predicate LastObserved(arrivals: seq<Arrival>, observation: Option<Observation>) {
    if observation.None? then !HasObservation(arrivals)
    else exists k :: 0 <= k < |arrivals| && arrivals[k].event == Observed(observation.value)
  }

  lemma {:induction false} ReadAllTwice(i: nat, alias: nat, r: Reading, a: seq<Arrival>, b: seq<Arrival>)
    ensures ReadAll(i, alias, r, a + b) == ReadAll(i, alias, ReadAll(i, alias, r, a), b)
    decreases |a|
  {
    hide Read;
    if a == [] || r.halt.Some? {
      assert a == [] ==> a + b == b;
    } else {
      assert (a + b)[0] == a[0] && (a + b)[1..] == a[1..] + b;
      ReadAllTwice(i, alias, Read(i, alias, r, a[0]), a[1..], b);
    }
  }

  lemma ReadAllOne(i: nat, alias: nat, r: Reading, a: Arrival)
    requires r.halt.None?
    ensures ReadAll(i, alias, r, [a]) == Read(i, alias, r, a)
  {
    hide Read;
    assert [a][1..] == [];
    assert ReadAll(i, alias, Read(i, alias, r, a), []) == Read(i, alias, r, a);
  }

  lemma ContentMore(before: seq<Arrival>, a: Arrival)
    ensures ContentIn(before + [a])
         == ContentIn(before) + if a.event.Data? && HasContent(a.event.chunk) then [a.event.chunk] else []
  {
    var all := before + [a];
    assert all[..|all| - 1] == before && all[|all| - 1] == a;
  }

  lemma ObservedMore(before: seq<Arrival>, a: Arrival, observation: Option<Observation>)
    requires LastObserved(before, observation)
    requires a.event.Observed? ==> observation.None?
    ensures LastObserved(before + [a], if a.event.Observed? then Some(a.event.observation) else observation)
  {
    var all := before + [a];
    assert all[|before|] == a;
    assert forall k | 0 <= k < |before| :: all[k] == before[k];
  }

  // One event, welcome or not.
  lemma OneShown(i: nat, alias: nat, before: seq<Arrival>, r: Reading, a: Arrival)
    requires r.halt.None? && ReadsSo(before, r)
    ensures
      var next := Read(i, alias, r, a);
      var shown := a.event.Data? && HasContent(a.event.chunk)
                   && (Welcome(alias, before, a) || OnlyNotTaken(alias, before, a));
      && (shown ==>
            && |next.acts| == |r.acts| + 1 && r.acts <= next.acts
            && Copies(i, [next.acts[|r.acts|]], [a.event.chunk]))
      && (!shown ==> next.acts == r.acts)
      && (Welcome(alias, before, a) ==>
            next.observation == if a.event.Observed? then Some(a.event.observation) else r.observation)
      && (!Welcome(alias, before, a) ==>
            next.halt == if OnlyNotTaken(alias, before, a) then a.after
                         else if a.before.Some? then a.before else Some(Error(ProviderFailure)))
  {
    hide ChunkFits, Collects, Lawful, Accepted, Collect, ChunksIn, HasObservation, AcceptChoice;
    ReadOneExactly(i, alias, before, r, a);
    ReadOneExactly(i, alias, before, r, a.(after := None));
  }

  lemma CopiesMore(i: nat, acts: seq<Act>, chunks: seq<Chunk>, act: Act, c: Chunk)
    requires Copies(i, acts, chunks) && Copies(i, [act], [c])
    ensures Copies(i, acts + [act], chunks + [c])
  {
    hide IsCopy;
    assert [act][0] == act && [c][0] == c;
  }

  // The reading after the first n events, all of them welcome.
  lemma {:induction false} WelcomeShown(i: nat, alias: nat, arrivals: seq<Arrival>)
    requires AllWelcome(alias, arrivals)
    ensures
      var r := ReadAll(i, alias, START, arrivals);
      && r.halt.None? && ReadsSo(arrivals, r) && Copies(i, r.acts, ContentIn(arrivals))
      && LastObserved(arrivals, r.observation)
    decreases |arrivals|
  {
    hide Read, ReadAll, Welcome, ReadsSo, AllWelcome, Copies, LastObserved, HasContent, OnlyNotTaken;
    NothingShown(i, alias);
    if arrivals != [] {
      var before, a := arrivals[..|arrivals| - 1], arrivals[|arrivals| - 1];
      assert arrivals == before + [a];
      OneMore(alias, before, a);
      WelcomeShown(i, alias, before);
      var r := ReadAll(i, alias, START, before);
      ReadAllTwice(i, alias, START, before, [a]);
      ReadAllOne(i, alias, r, a);
      ReadOneExactly(i, alias, before, r, a);
      OneShown(i, alias, before, r, a);
      ContentMore(before, a);
      ObservationOnce(alias, before, r, a);
      ObservedMore(before, a, r.observation);
      var next := Read(i, alias, r, a);
      if a.event.Data? && HasContent(a.event.chunk) {
        CopiesMore(i, r.acts, ContentIn(before), next.acts[|r.acts|], a.event.chunk);
        assert next.acts == r.acts + [next.acts[|r.acts|]];
      } else {
        assert ContentIn(before) + [] == ContentIn(before);
      }
    }
  }

  lemma ObservationOnce(alias: nat, before: seq<Arrival>, r: Reading, a: Arrival)
    requires ReadsSo(before, r) && Welcome(alias, before, a)
    ensures r.observation.None?
  {
    hide ChunkFits, Collect, ChunksIn;
  }

  lemma NothingShown(i: nat, alias: nat)
    ensures ReadAll(i, alias, START, []) == START && Copies(i, START.acts, ContentIn([]))
    ensures ReadsSo([], START) && LastObserved([], START.observation)
  {
    assert Collect([]) == Some(NOTHING);
  }

  /** What the client is shown of a candidate, and why its stream breaks off: a copy of each chunk with
      content before the first event that is not welcome, all but its finish reason, and of that one too
      if it is only that the client does not take it. A check that raises, or the client, gives the reason;
      anything else is a failure of the provider. */
  lemma ShownExactly(i: nat, alias: nat, arrivals: seq<Arrival>, n: nat)
    requires WelcomeUpTo(alias, arrivals, n)
    ensures
      var r := ReadAll(i, alias, START, arrivals);
      if n == |arrivals| then
        r.halt.None? && Copies(i, r.acts, ContentIn(arrivals)) && LastObserved(arrivals, r.observation)
      else
        var a := arrivals[n];
        if OnlyNotTaken(alias, arrivals[..n], a) then
          r.halt == a.after && Copies(i, r.acts, ContentIn(arrivals[..n]) + [a.event.chunk])
        else
          && r.halt == (if a.before.Some? then a.before else Some(Error(ProviderFailure)))
          && Copies(i, r.acts, ContentIn(arrivals[..n]))
  {
    hide Read, ReadAll, Welcome, ReadsSo, AllWelcome, Copies, LastObserved, ContentIn;
    var before := arrivals[..n];
    WelcomeShown(i, alias, before);
    if n == |arrivals| {
      assert before == arrivals;
    } else {
      var a, r := arrivals[n], ReadAll(i, alias, START, before);
      assert arrivals == before + ([a] + arrivals[n + 1..]);
      ReadAllTwice(i, alias, START, before, [a] + arrivals[n + 1..]);
      ReadAllTwice(i, alias, r, [a], arrivals[n + 1..]);
      ReadAllOne(i, alias, r, a);
      OneShown(i, alias, before, r, a);
      ReadOneExactly(i, alias, before, r, a);
      ReadStops(i, alias, Read(i, alias, r, a), arrivals[n + 1..]);
      if OnlyNotTaken(alias, before, a) {
        var next := Read(i, alias, r, a);
        CopiesMore(i, r.acts, ContentIn(before), next.acts[|r.acts|], a.event.chunk);
        assert next.acts == r.acts + [next.acts[|r.acts|]];
      }
    }
  }

  lemma ReadStops(i: nat, alias: nat, r: Reading, rest: seq<Arrival>)
    requires r.halt.Some?
    ensures ReadAll(i, alias, r, rest) == r
  {
  }

  // ----- the completion -----

  // How many calls have a smaller index.
  function Before(calls: map<Index, ToolCall>, k: nat): nat
    requires k <= 8
  {
    if k == 0 then 0 else Before(calls, k - 1) + if k - 1 in calls then 1 else 0
  }

  // Every call stands behind those of smaller index, and there are no others.
  ghost predicate ByIndex(calls: map<Index, ToolCall>, listed: seq<ToolCall>) {
    |listed| == Before(calls, 8)
    && forall k: Index | k in calls :: Before(calls, k) < |listed| && listed[Before(calls, k)] == calls[k]
  }

  lemma {:induction false} OrderedFrom(calls: map<Index, ToolCall>, k: nat) returns (front: seq<ToolCall>)
    requires k <= 8
    ensures Ordered(calls, 0) == front + Ordered(calls, k) && |front| == Before(calls, k)
    decreases k
  {
    hide Ordered;
    if k == 0 {
      front := [];
      assert [] + Ordered(calls, 0) == Ordered(calls, 0);
    } else {
      var before := OrderedFrom(calls, k - 1);
      OrderedStep(calls, k - 1);
      var one := if k - 1 in calls then [calls[k - 1]] else [];
      Regroup(before, one, Ordered(calls, k));
      front := before + one;
    }
  }

  lemma OrderedByIndex(calls: map<Index, ToolCall>)
    ensures ByIndex(calls, Ordered(calls, 0))
  {
    hide Ordered;
    var all := OrderedFrom(calls, 8);
    OrderedStep(calls, 8);
    forall k: Index | k in calls
      ensures Before(calls, k) < |Ordered(calls, 0)| && Ordered(calls, 0)[Before(calls, k)] == calls[k]
    {
      var front := OrderedFrom(calls, k);
      OrderedStep(calls, k);
    }
  }

  /** A completion is made exactly if a finish reason came: it has that reason, the usage, the text unless
      that is empty, and the calls by ascending index. */
  lemma CompletionExactly(s: Collected)
    ensures Completed(s).Some? <==> s.finish.Some?
    ensures s.finish.Some? ==>
      var c := Completed(s).value;
      && Some(c.finish) == s.finish && c.usage == s.usage && ByIndex(s.calls, c.calls)
      && (s.text == "" ==> c.content.None?) && (s.text != "" ==> c.content == Some(s.text))
  {
    hide Ordered;
    OrderedByIndex(s.calls);
  }
}

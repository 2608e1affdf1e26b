/**
 From the bytes of a provider to the events of the gateway's stream: the decoder's events become
 chunks under the requested alias, and the terminal observation comes last, if everything ended as it
 should.

 Reading a payload as a frame, with its usage and cost, is an oracle.
 */
module TargetStream {
  import opened Basics
  import opened StreamDelivery
  import Sse = SseDecoder

  datatype Reason = Ended(finish: Finish) | ErrorReason

  datatype FrameChoice = FrameChoice(reason: Option<Reason>, delta: Option<Delta>, refusal: bool)

  // `accounted`: what the frame's usage says, if it has one. A frame has at most one choice: one with
  // more does not validate.
  datatype Frame = Frame(error: bool, model: Option<nat>, accounted: Option<Observation>, choices: seq<FrameChoice>)

  // `routed`: the model an endpoint has to answer with; None for a local model.
  datatype Target = Target(alias: nat, routed: Option<nat>)

  type Parser = seq<Sse.byte> -> Option<Frame>

  const NO_DELTA := Delta(false, None, [])

  // ----- one frame -----

  predicate Bad(t: Target, f: Frame) {
    || f.error
    || (f.model.Some? && t.routed.Some? && f.model != t.routed)
    || (exists i | 0 <= i < |f.choices| :: f.choices[i].reason == Some(ErrorReason) || f.choices[i].refusal)
    || |f.choices| > 1
  }

  predicate Ends(f: Frame) {
    exists i | 0 <= i < |f.choices| :: f.choices[i].reason.Some?
  }

  function ChunkOf(t: Target, f: Frame): Chunk
    requires !Bad(t, f)
  {
    var choice :=
      if f.choices == [] then None
      else
        var c := f.choices[0];
        Some(Choice(if c.delta.Some? then c.delta.value else NO_DELTA,
            if c.reason.Some? then Some(c.reason.value.finish) else None));
    Chunk(t.alias, choice, if f.accounted.Some? then f.accounted.value.usage else None)
  }

  // ----- a stream -----

  datatype Progress = Progress(events: seq<Event>, observed: Observation, terminal: bool, broken: bool)

  const BEGIN := Progress([], Observation(None, None), false, false)

  // After a bad frame nothing more is read.
  function Take(t: Target, p: Progress, e: Sse.Event<Frame>): Progress {
    if p.broken || e.Done? then p
    else if Bad(t, e.value) then p.(broken := true)
    else
      var f := e.value;
      Progress(p.events + [Data(ChunkOf(t, f))], if f.accounted.Some? then f.accounted.value else p.observed,
          p.terminal || Ends(f), false)
  }

  function TakeAll(t: Target, p: Progress, events: seq<Sse.Event<Frame>>): Progress
    decreases |events|
  {
    if events == [] then p else TakeAll(t, Take(t, p, events[0]), events[1..])
  }

  datatype Upstream = Upstream(events: seq<Event>, halt: Option<Halt>)

  // What the gateway receives for these bytes, and whether the stream ends with an error.
  function FromBytes(t: Target, parse: Parser, chunks: seq<seq<Sse.byte>>): Upstream {
    var decoded := Sse.FeedAll(parse, Sse.START, chunks);
    var p := TakeAll(t, BEGIN, decoded.events);
    if p.broken || decoded.fault.Some? || !Sse.Finished(decoded.state) || !p.terminal then Upstream(p.events, BAD)
    else Upstream(p.events + [Observed(p.observed)], None)
  }

  method TakeBlock(t: Target, p: Progress, events: seq<Sse.Event<Frame>>) returns (q: Progress)
    ensures q == TakeAll(t, p, events)
  {
    hide Take;
    q := p;
    for i := 0 to |events|
      invariant TakeAll(t, q, events[i..]) == TakeAll(t, p, events)
    {
      assert events[i..][0] == events[i] && events[i..][1..] == events[i + 1..];
      q := TakeOne(t, q, events[i]);
    }
  }

  method TakeOne(t: Target, p: Progress, e: Sse.Event<Frame>) returns (q: Progress)
    ensures q == Take(t, p, e)
  {
    q := p;
    if p.broken || e.Done? {
      return;
    }
    var f := e.value;
    if |f.choices| > 1 || f.error || (f.model.Some? && t.routed.Some? && f.model != t.routed) {
      return p.(broken := true);
    }
    var observed := if f.accounted.Some? then f.accounted.value else p.observed;
    var terminal := p.terminal;
    for i := 0 to |f.choices|
      invariant forall j | 0 <= j < i :: f.choices[j].reason != Some(ErrorReason) && !f.choices[j].refusal
      invariant terminal <==> p.terminal || exists j | 0 <= j < i :: f.choices[j].reason.Some?
    {
      var c := f.choices[i];
      if c.reason == Some(ErrorReason) || c.refusal {
        return p.(broken := true);
      }
      terminal := terminal || c.reason.Some?;
    }
    q := Progress(p.events + [Data(ChunkOf(t, f))], observed, terminal, false);
  }

  method StreamTarget(t: Target, parse: Parser, chunks: seq<seq<Sse.byte>>) returns (r: Upstream)
    ensures r == FromBytes(t, parse, chunks)
  {
    hide TakeAll, Sse.Feed;
    var decoder := new Sse.Decoder(parse);
    var p := BEGIN;
    ghost var seen: seq<Sse.Event<Frame>> := [];
    NothingTaken(t, p);
    for i := 0 to |chunks|
      invariant fresh(decoder) && decoder.parse == parse && Sse.LF !in decoder.buffer
      invariant p == TakeAll(t, BEGIN, seen) && !p.broken
      invariant
        var rest := Sse.FeedAll(parse, decoder.View(), chunks[i..]);
        Sse.FeedAll(parse, Sse.START, chunks) == Sse.After(seen, rest)
    {
      ghost var before := decoder.View();
      assert chunks[i..][0] == chunks[i] && chunks[i..][1..] == chunks[i + 1..];
      var events, fault := decoder.IterFeed(chunks[i]);
      p := TakeBlock(t, p, events);
      ghost var rest := Sse.FeedAll(parse, decoder.View(), chunks[i + 1..]);
      TakeTwice(t, BEGIN, seen, events);
      Regroup(seen, events, rest.events);
      if fault.Some? {
        return Upstream(p.events, BAD);
      }
      if p.broken {
        TakeTwice(t, BEGIN, seen + events, rest.events);
        BrokenStays(t, p, rest.events);
        return Upstream(p.events, BAD);
      }
      seen := seen + events;
    }
    assert seen + [] == seen;
    var finished := decoder.Finish();
    if !finished || !p.terminal {
      return Upstream(p.events, BAD);
    }
    r := Upstream(p.events + [Observed(p.observed)], None);
  }

  lemma NothingTaken(t: Target, p: Progress)
    ensures TakeAll(t, p, []) == p
  {
  }

  lemma {:induction false} TakeTwice(t: Target, p: Progress, a: seq<Sse.Event<Frame>>, b: seq<Sse.Event<Frame>>)
    ensures TakeAll(t, p, a + b) == TakeAll(t, TakeAll(t, p, a), b)
    decreases |a|
  {
    hide Take;
    if a == [] {
      assert a + b == b;
    } else {
      assert (a + b)[0] == a[0] && (a + b)[1..] == a[1..] + b;
      TakeTwice(t, Take(t, p, a[0]), a[1..], b);
    }
  }

  lemma {:induction false} BrokenStays(t: Target, p: Progress, events: seq<Sse.Event<Frame>>)
    requires p.broken
    ensures TakeAll(t, p, events) == p
    decreases |events|
  {
    if events != [] {
      BrokenStays(t, p, events[1..]);
    }
  }

  // ----- what the gateway can rely on -----

  ghost predicate OnlyChunks(t: Target, events: seq<Event>) {
    forall i | 0 <= i < |events| :: events[i].Data? && events[i].chunk.model == t.alias
  }

  ghost predicate HasFinish(events: seq<Event>) {
    exists i :: 0 <= i < |events| && events[i].Data? && events[i].chunk.choice.Some?
        && events[i].chunk.choice.value.finish.Some?
  }

  lemma {:induction false} TakenChunks(t: Target, p: Progress, events: seq<Sse.Event<Frame>>)
    requires OnlyChunks(t, p.events) && (p.terminal <==> HasFinish(p.events))
    ensures
      var q := TakeAll(t, p, events);
      OnlyChunks(t, q.events) && (q.terminal <==> HasFinish(q.events))
    decreases |events|
  {
    if events != [] {
      TakenChunk(t, p, events[0]);
      hide Take, OnlyChunks, HasFinish;
      TakenChunks(t, Take(t, p, events[0]), events[1..]);
    }
  }

  lemma TakenChunk(t: Target, p: Progress, e: Sse.Event<Frame>)
    requires OnlyChunks(t, p.events) && (p.terminal <==> HasFinish(p.events))
    ensures
      var q := Take(t, p, e);
      OnlyChunks(t, q.events) && (q.terminal <==> HasFinish(q.events))
  {
    var q := Take(t, p, e);
    if q.events != p.events {
      var last := |p.events|;
      assert q.events[last] == Data(ChunkOf(t, e.value));
      if HasFinish(p.events) {
        var i :| 0 <= i < |p.events| && p.events[i].Data? && p.events[i].chunk.choice.Some?
            && p.events[i].chunk.choice.value.finish.Some?;
        assert q.events[i] == p.events[i];
      }
      if Ends(e.value) {
        assert q.events[last].chunk.choice.value.finish.Some?;
      }
    }
  }

  /** All the gateway ever receives from a target are chunks under the requested alias and, at most
      once and last, the terminal observation; and that comes exactly when the decoder has seen the
      whole stream end, no frame was bad and some chunk carried a finish reason. */
  lemma ObservationComesLast(t: Target, parse: Parser, chunks: seq<seq<Sse.byte>>)
    ensures
      var r, decoded := FromBytes(t, parse, chunks), Sse.FeedAll(parse, Sse.START, chunks);
      && (r.halt.None? ==>
           && r.events != [] && r.events[|r.events| - 1].Observed?
           && OnlyChunks(t, r.events[..|r.events| - 1]) && HasFinish(r.events[..|r.events| - 1])
           && decoded.fault.None? && Sse.Finished(decoded.state) && !TakeAll(t, BEGIN, decoded.events).broken)
      && (r.halt.Some? ==> OnlyChunks(t, r.events))
      && (r.halt.Some? ==>
           || TakeAll(t, BEGIN, decoded.events).broken || decoded.fault.Some? || !Sse.Finished(decoded.state)
           || !HasFinish(r.events))
  {
    hide TakeAll, Sse.FeedAll, Sse.Finished;
    var decoded := Sse.FeedAll(parse, Sse.START, chunks);
    TakenChunks(t, BEGIN, decoded.events);
    var p := TakeAll(t, BEGIN, decoded.events);
    assert (p.events + [Observed(p.observed)])[..|p.events|] == p.events;
  }

  /** How the network cuts the stream into blocks does not show: when every line is within the bound,
      a stream that completes in one cutting completes in every other, with the same events. */
  lemma CuttingDoesNotShow(t: Target, parse: Parser, chunks: seq<seq<Sse.byte>>, others: seq<seq<Sse.byte>>)
    requires Flatten(chunks) == Flatten(others) && Sse.LinesFit(Flatten(chunks))
    ensures FromBytes(t, parse, chunks).halt.None? ==> FromBytes(t, parse, chunks) == FromBytes(t, parse, others)
  {
    hide TakeAll, Sse.FeedAll, Sse.LinesFit;
    assert Sse.START.buffer + Flatten(chunks) == Flatten(chunks);
    Sse.ChunkingInvariance(parse, Sse.START, chunks, others);
  }

  /** And when the stream as a whole is within its bound, that holds for one that fails as well. */
  lemma CuttingNeverShows(t: Target, parse: Parser, chunks: seq<seq<Sse.byte>>, others: seq<seq<Sse.byte>>)
    requires Flatten(chunks) == Flatten(others) && Sse.LinesFit(Flatten(chunks))
    requires |Flatten(chunks)| <= Sse.MAX_STREAM
    ensures FromBytes(t, parse, chunks) == FromBytes(t, parse, others)
  {
    hide TakeAll, Sse.FeedAll, Sse.LinesFit;
    assert Sse.START.buffer + Flatten(chunks) == Flatten(chunks);
    Sse.WholeDecides(parse, Sse.START, chunks, others);
  }

  // ----- a stream written by the encoder -----

  function ChunksOf(t: Target, frames: seq<Frame>): seq<Event>
    requires forall i | 0 <= i < |frames| :: !Bad(t, frames[i])
  {
    if frames == [] then [] else [Data(ChunkOf(t, frames[0]))] + ChunksOf(t, frames[1..])
  }

  function LastAccounted(frames: seq<Frame>, before: Observation): Observation
    decreases |frames|
  {
    if frames == [] then before
    else LastAccounted(frames[1..], if frames[0].accounted.Some? then frames[0].accounted.value else before)
  }

  predicate SomeEnds(frames: seq<Frame>) {
    exists i | 0 <= i < |frames| :: Ends(frames[i])
  }

  function FramesOf(events: seq<Sse.Event<Frame>>): (frames: seq<Frame>)
    requires forall i | 0 <= i < |events| :: events[i].Value?
    ensures |frames| == |events| && forall i | 0 <= i < |events| :: frames[i] == events[i].value
  {
    seq(|events|, i requires 0 <= i < |events| => events[i].value)
  }

  lemma {:induction false} TakenFrames(t: Target, p: Progress, events: seq<Sse.Event<Frame>>)
    requires !p.broken && forall i | 0 <= i < |events| :: events[i].Value? && !Bad(t, events[i].value)
    ensures
      var frames := FramesOf(events);
      TakeAll(t, p, events)
      == Progress(p.events + ChunksOf(t, frames), LastAccounted(frames, p.observed),
                  p.terminal || SomeEnds(frames), false)
    decreases |events|
  {
    hide Bad, ChunkOf, Ends;
    var frames := FramesOf(events);
    if events == [] {
      assert p.events + [] == p.events;
    } else {
      var q := Take(t, p, events[0]);
      TakenFrames(t, q, events[1..]);
      assert FramesOf(events[1..]) == frames[1..];
      Regroup(p.events, [Data(ChunkOf(t, frames[0]))], ChunksOf(t, frames[1..]));
      assert SomeEnds(frames) <==> Ends(frames[0]) || SomeEnds(frames[1..]) by {
        assert forall i | 0 < i < |frames| :: frames[i] == frames[1..][i - 1];
      }
    }
  }

  lemma {:induction false} ValuesAre(parse: Parser, payloads: seq<seq<Sse.byte>>)
    requires Sse.Serialized(parse, payloads)
    ensures
      var values := Sse.Values(parse, payloads);
      |values| == |payloads| && forall i | 0 <= i < |payloads| ::
        parse(payloads[i]).Some? && values[i] == Sse.Value(parse(payloads[i]).value)
    decreases |payloads|
  {
    if payloads != [] {
      ValuesAre(parse, payloads[1..]);
    }
  }

  /** The whole way: a stream of good frames, as the encoder writes it and the network cuts it, reaches
      the gateway as exactly the frames' chunks followed by the last usage they report, provided that
      one of them carries a finish reason and that the stream is within its size. */
  lemma WrittenStreamIsDelivered(t: Target, parse: Parser, payloads: seq<seq<Sse.byte>>, chunks: seq<seq<Sse.byte>>)
    requires Sse.Serialized(parse, payloads) && Flatten(chunks) == Sse.Frames(payloads)
        && |Sse.Frames(payloads)| <= Sse.MAX_STREAM
    requires forall i | 0 <= i < |payloads| :: parse(payloads[i]).Some? ==> !Bad(t, parse(payloads[i]).value)
    ensures forall i | 0 <= i < |Sse.Values(parse, payloads)| :: Sse.Values(parse, payloads)[i].Value?
    ensures
      var frames := FramesOf(Sse.Values(parse, payloads));
      && (forall i | 0 <= i < |frames| :: !Bad(t, frames[i]))
      && FromBytes(t, parse, chunks)
         == if SomeEnds(frames) then
              Upstream(ChunksOf(t, frames) + [Observed(LastAccounted(frames, Observation(None, None)))], None)
            else Upstream(ChunksOf(t, frames), BAD)
  {
    hide Bad, TakeAll, Sse.FeedAll, Sse.Finished, Sse.Frames;
    var values := Sse.Values(parse, payloads);
    ValuesAre(parse, payloads);
    Sse.RoundTrip(parse, payloads, chunks);
    TakeTwice(t, BEGIN, values, [Sse.Done]);
    TakenFrames(t, BEGIN, values);
    DoneTaken(t, TakeAll(t, BEGIN, values));
    assert [] + ChunksOf(t, FramesOf(values)) == ChunksOf(t, FramesOf(values));
  }

  lemma DoneTaken(t: Target, p: Progress)
    ensures TakeAll(t, p, [Sse.Done]) == p
  {
    assert TakeAll(t, p, [Sse.Done]) == TakeAll(t, Take(t, p, Sse.Done), []);
  }
}

/**
 What the gateway receives from a target, read off the frames of its stream: which frames are good, what
 each good frame becomes, and when the stream completes.
 */
module TargetRules {
  import opened Basics
  import opened StreamDelivery
  import opened TargetStream
  import Sse = SseDecoder

  // No error, the model that was asked for as far as it is named, at most one choice, and in it neither a
  // refusal nor an error.
  ghost predicate GoodFrame(t: Target, f: Frame) {
    && !f.error && |f.choices| <= 1
    && (f.model.Some? && t.routed.Some? ==> f.model.value == t.routed.value)
    && forall c | c in f.choices :: !c.refusal && c.reason != Some(ErrorReason)
  }

  // The same choice, usage and finish reason under the alias that was asked for.
  ghost predicate Renders(t: Target, f: Frame, e: Event) {
    && e.Data? && e.chunk.model == t.alias
    && (f.accounted.None? ==> e.chunk.usage.None?)
    && (f.accounted.Some? ==> e.chunk.usage == f.accounted.value.usage)
    && (e.chunk.choice.None? <==> f.choices == [])
    && (f.choices != [] ==> RendersChoice(f.choices[0], e.chunk.choice.value))
  }

  ghost predicate RendersChoice(c: FrameChoice, d: Choice) {
    && (c.delta.Some? ==> d.delta == c.delta.value)
    && (c.delta.None? ==> !d.delta.role && d.delta.content.None? && d.delta.parts == [])
    && (c.reason.None? ==> d.finish.None?)
    && (c.reason.Some? && c.reason.value.Ended? ==> d.finish == Some(c.reason.value.finish))
  }

  // The frames before the first bad one.
  ghost predicate GoodUpTo(t: Target, frames: seq<Frame>, n: nat) {
    && n <= |frames| && (forall i | 0 <= i < n :: GoodFrame(t, frames[i]))
    && (n < |frames| ==> !GoodFrame(t, frames[n]))
  }

  ghost predicate CarriesFinish(frames: seq<Frame>) {
    exists i :: 0 <= i < |frames| && HasReason(frames[i])
  }

  ghost predicate HasReason(f: Frame) { exists c :: c in f.choices && c.reason.Some? }

  // What the last of these frames that is accounted for says.
  ghost predicate LastSays(frames: seq<Frame>, before: Observation, o: Observation) {
    && (forall k | 0 <= k < |frames| && frames[k].accounted.Some? && NoneAfter(frames, k) ::
          o == frames[k].accounted.value)
    && (NoneAfter(frames, -1) ==> o == before)
  }

  ghost predicate NoneAfter(frames: seq<Frame>, k: int) {
    forall j | 0 <= j < |frames| && k < j :: frames[j].accounted.None?
  }

  function FramesIn(events: seq<Sse.Event<Frame>>): seq<Frame> {
    if events == [] then []
    else (if events[0].Value? then [events[0].value] else []) + FramesIn(events[1..])
  }

  lemma GoodIsNotBad(t: Target, f: Frame)
    ensures GoodFrame(t, f) <==> !Bad(t, f)
  {
    if !Bad(t, f) {
      forall c | c in f.choices
        ensures !c.refusal && c.reason != Some(ErrorReason)
      {
        var i :| 0 <= i < |f.choices| && f.choices[i] == c;
      }
    }
    if GoodFrame(t, f) {
      forall i | 0 <= i < |f.choices|
        ensures f.choices[i].reason != Some(ErrorReason) && !f.choices[i].refusal
      {
        assert f.choices[i] in f.choices;
      }
    }
  }

  lemma ChunkRenders(t: Target, f: Frame)
    requires GoodFrame(t, f)
    ensures !Bad(t, f) && Renders(t, f, Data(ChunkOf(t, f)))
  {
    GoodIsNotBad(t, f);
    if f.choices != [] {
      assert f.choices[0] in f.choices;
    }
  }

  lemma EndsHasReason(f: Frame)
    ensures Ends(f) <==> HasReason(f)
  {
    if HasReason(f) {
      var c :| c in f.choices && c.reason.Some?;
      var i :| 0 <= i < |f.choices| && f.choices[i] == c;
    }
    if Ends(f) {
      var i :| 0 <= i < |f.choices| && f.choices[i].reason.Some?;
      assert f.choices[i] in f.choices;
    }
  }

  // What has been taken: one event for each good frame, no more after a bad one.
  ghost predicate TookFrames(t: Target, p: Progress, frames: seq<Frame>, n: nat, q: Progress)
    requires n <= |frames|
  {
    && (q.broken <==> n < |frames|)
    && |q.events| == |p.events| + n && p.events <= q.events
    && (forall i | 0 <= i < n :: Renders(t, frames[i], q.events[|p.events| + i]))
    && (q.terminal <==> p.terminal || CarriesFinish(frames[..n]))
    && LastSays(frames[..n], p.observed, q.observed)
  }

  lemma FinishCons(f: Frame, rest: seq<Frame>)
    ensures CarriesFinish([f] + rest) <==> HasReason(f) || CarriesFinish(rest)
  {
    hide HasReason;
    var all := [f] + rest;
    if CarriesFinish(rest) {
      var i :| 0 <= i < |rest| && HasReason(rest[i]);
      assert all[i + 1] == rest[i];
    }
    if HasReason(f) {
      assert all[0] == f;
    }
  }

  lemma LastCons(f: Frame, rest: seq<Frame>, before: Observation, o: Observation)
    requires LastSays(rest, if f.accounted.Some? then f.accounted.value else before, o)
    ensures LastSays([f] + rest, before, o)
  {
    var all := [f] + rest;
    assert forall j | 0 < j < |all| :: all[j] == rest[j - 1];
    assert forall j | 0 <= j < |rest| :: rest[j] == all[j + 1];
    forall k | 0 <= k < |all| && all[k].accounted.Some? && NoneAfter(all, k)
      ensures o == all[k].accounted.value
    {
      assert NoneAfter(rest, k - 1);
    }
    if NoneAfter(all, -1) {
      assert all[0].accounted.None? && NoneAfter(rest, -1);
    }
  }

  lemma NoFramesTaken(t: Target, p: Progress)
    requires !p.broken
    ensures TookFrames(t, p, [], 0, p)
  {
    var none: seq<Frame> := [];
    assert none[..0] == none;
  }

  lemma BadTaken(t: Target, p: Progress, frames: seq<Frame>)
    requires !p.broken && frames != []
    ensures TookFrames(t, p, frames, 0, p.(broken := true))
  {
    assert frames[..0] == [];
  }

  lemma OneTaken(t: Target, p: Progress, f: Frame)
    requires GoodFrame(t, f) && !p.broken
    ensures
      var q := Take(t, p, Sse.Value(f));
      && !q.broken && |q.events| == |p.events| + 1 && p.events <= q.events && Renders(t, f, q.events[|p.events|])
      && (q.terminal <==> p.terminal || HasReason(f))
      && q.observed == if f.accounted.Some? then f.accounted.value else p.observed
  {
    ChunkRenders(t, f);
    EndsHasReason(f);
    hide Bad, Ends, HasReason, GoodFrame, Renders, ChunkOf;
  }

  lemma MoreTaken(t: Target, p: Progress, f: Frame, one: Progress, rest: seq<Frame>, n: nat, q: Progress)
    requires n <= |rest| && TookFrames(t, one, rest, n, q)
    requires !one.broken && |one.events| == |p.events| + 1 && p.events <= one.events
    requires Renders(t, f, one.events[|p.events|])
    requires one.terminal <==> p.terminal || HasReason(f)
    requires one.observed == if f.accounted.Some? then f.accounted.value else p.observed
    ensures TookFrames(t, p, [f] + rest, n + 1, q)
  {
    hide Renders, HasReason, CarriesFinish, LastSays;
    var all := [f] + rest;
    assert all[..n + 1] == [f] + rest[..n];
    FinishCons(f, rest[..n]);
    LastCons(f, rest[..n], p.observed, q.observed);
    forall i | 0 <= i < n + 1
      ensures Renders(t, all[i], q.events[|p.events| + i])
    {
      if i > 0 {
        assert Renders(t, rest[i - 1], q.events[|one.events| + (i - 1)]);
      }
    }
  }

  lemma {:induction false} TakesFrames(t: Target, p: Progress, events: seq<Sse.Event<Frame>>, n: nat)
    requires !p.broken && GoodUpTo(t, FramesIn(events), n)
    ensures TookFrames(t, p, FramesIn(events), n, TakeAll(t, p, events))
    decreases |events|
  {
    hide Take, TookFrames, GoodFrame, GoodUpTo;
    if events == [] {
      assert |FramesIn(events)| == 0 && n == 0 by {
        GoodSize(t, FramesIn(events), n);
      }
      NoFramesTaken(t, p);
    } else if events[0].Done? {
      SkipsDone(t, p);
      assert FramesIn(events) == [] + FramesIn(events[1..]) == FramesIn(events[1..]);
      TakesFrames(t, p, events[1..], n);
    } else {
      var f, rest := events[0].value, FramesIn(events[1..]);
      assert FramesIn(events) == [f] + rest;
      GoodParts(t, f, rest, n);
      if n == 0 {
        BreaksOnBad(t, p, f);
        BrokenStays(t, p.(broken := true), events[1..]);
        BadTaken(t, p, FramesIn(events));
      } else {
        OneTaken(t, p, f);
        TakesFrames(t, Take(t, p, events[0]), events[1..], n - 1);
        MoreTaken(t, p, f, Take(t, p, events[0]), rest, n - 1, TakeAll(t, p, events));
      }
    }
  }

  lemma GoodSize(t: Target, frames: seq<Frame>, n: nat)
    requires GoodUpTo(t, frames, n)
    ensures n <= |frames|
  {
    hide GoodFrame;
  }

  lemma GoodParts(t: Target, f: Frame, rest: seq<Frame>, n: nat)
    requires GoodUpTo(t, [f] + rest, n)
    ensures if n == 0 then !GoodFrame(t, f) else GoodFrame(t, f) && GoodUpTo(t, rest, n - 1) && n - 1 <= |rest|
  {
    hide GoodFrame;
    var all := [f] + rest;
    assert all[0] == f && forall i | 0 <= i < |rest| :: rest[i] == all[i + 1];
  }

  lemma SkipsDone(t: Target, p: Progress)
    ensures Take(t, p, Sse.Done) == p
  {
  }

  lemma BreaksOnBad(t: Target, p: Progress, f: Frame)
    requires !p.broken && !GoodFrame(t, f)
    ensures Take(t, p, Sse.Value(f)) == p.(broken := true)
  {
    GoodIsNotBad(t, f);
  }

  lemma {:induction false} FirstBad(t: Target, frames: seq<Frame>) returns (n: nat)
    ensures GoodUpTo(t, frames, n)
    decreases |frames|
  {
    hide GoodFrame;
    if frames == [] || !GoodFrame(t, frames[0]) {
      n := 0;
    } else {
      var m := FirstBad(t, frames[1..]);
      n := m + 1;
      assert forall i | 0 < i < |frames| :: frames[i] == frames[1..][i - 1];
    }
  }

  /** What the gateway receives for any bytes: one chunk for each frame before the first bad one, with that
      frame's choice, usage and finish reason; and then, exactly if the stream was read to its end, all
      frames are good and one carries a finish reason, the last usage. Otherwise the stream breaks off. */
  lemma TargetExactly(t: Target, parse: Parser, chunks: seq<seq<Sse.byte>>, n: nat)
    requires GoodUpTo(t, FramesIn(Sse.FeedAll(parse, Sse.START, chunks).events), n)
    ensures
      var decoded, r := Sse.FeedAll(parse, Sse.START, chunks), FromBytes(t, parse, chunks);
      var frames := FramesIn(decoded.events);
      && n <= |r.events|
      && (forall i | 0 <= i < n :: Renders(t, frames[i], r.events[i]))
      && (r.halt == None || r.halt == BAD)
      && (r.halt.None? <==>
            decoded.fault.None? && Sse.Finished(decoded.state) && n == |frames| && CarriesFinish(frames))
      && (r.halt.Some? ==> |r.events| == n)
      && (r.halt.None? ==>
            && |r.events| == n + 1 && r.events[n].Observed?
            && LastSays(frames, Observation(None, None), r.events[n].observation))
  {
    hide TakeAll, Sse.FeedAll, Sse.Finished, FramesIn, GoodFrame, Renders, LastSays, CarriesFinish;
    var decoded := Sse.FeedAll(parse, Sse.START, chunks);
    var frames := FramesIn(decoded.events);
    TakesFrames(t, BEGIN, decoded.events, n);
    assert frames[..|frames|] == frames;
  }

  /** And there is such a first bad frame, or none, for every stream. */
  lemma TargetDecides(t: Target, parse: Parser, chunks: seq<seq<Sse.byte>>) returns (n: nat)
    ensures GoodUpTo(t, FramesIn(Sse.FeedAll(parse, Sse.START, chunks).events), n)
  {
    n := FirstBad(t, FramesIn(Sse.FeedAll(parse, Sse.START, chunks).events));
  }
}

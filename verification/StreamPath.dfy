/**
 From the bytes of the providers to the client: the events that an adapter makes of a byte stream are
 what the gateway's loop over candidates reads.

 Everything else a candidate meets is part of its script: where the gateway's own checks interrupt it,
 how accounting goes, and what the request demands of a completion.
 */
module StreamPath {
  import opened Basics
  import opened StreamDelivery
  import opened TargetStream
  import Sse = SseDecoder

  // `before` and `after`: the checks around the event with a given number.
  datatype Provider = Provider(target: Target, blocks: seq<seq<Sse.byte>>, before: nat -> Option<Halt>,
      after: nat -> Option<Halt>, script: Script)

  function Arrivals(p: Provider, events: seq<Event>, k: nat): seq<Arrival>
    decreases |events|
  {
    if events == [] then [] else [Arrival(events[0], p.before(k), p.after(k))] + Arrivals(p, events[1..], k + 1)
  }

  // A stream that fails ends with the adapter's error, after the events that came before.
  function ScriptOf(parse: Parser, p: Provider): Script {
    var upstream := FromBytes(p.target, parse, p.blocks);
    p.script.(arrivals := Arrivals(p, upstream.events, 0),
              ends := if upstream.halt.Some? then upstream.halt else p.script.ends)
  }

  function Scripts(parse: Parser, ps: seq<Provider>): (scripts: seq<Script>)
    ensures |scripts| == |ps| && forall i | 0 <= i < |ps| :: scripts[i] == ScriptOf(parse, ps[i])
  {
    seq(|ps|, i requires 0 <= i < |ps| => ScriptOf(parse, ps[i]))
  }

  // What the client and the accounting see when these are the providers.
  function Answered(setup: Setup, parse: Parser, ps: seq<Provider>): seq<Act> {
    Log(setup, Scripts(parse, ps), 0)
  }

  // Read the streams, then run the loop on what they gave.
  method Serve(setup: Setup, parse: Parser, ps: seq<Provider>) returns (log: seq<Act>)
    ensures log == Answered(setup, parse, ps)
  {
    hide FromBytes, Arrivals, Log;
    var scripts: seq<Script> := [];
    for i := 0 to |ps|
      invariant |scripts| == i && forall j | 0 <= j < i :: scripts[j] == ScriptOf(parse, ps[j])
    {
      var upstream := StreamTarget(ps[i].target, parse, ps[i].blocks);
      var script := ps[i].script.(arrivals := Arrivals(ps[i], upstream.events, 0),
          ends := if upstream.halt.Some? then upstream.halt else ps[i].script.ends);
      scripts := scripts + [script];
    }
    assert scripts == Scripts(parse, ps);
    log := Stream(setup, scripts);
  }

  // ----- the blocks do not show -----

  // The same bytes cut otherwise, under the same circumstances, within the decoder's bounds.
  ghost predicate SameStream(p: Provider, q: Provider) {
    && p.(blocks := q.blocks) == q && Flatten(p.blocks) == Flatten(q.blocks)
    && Sse.LinesFit(Flatten(p.blocks)) && |Flatten(p.blocks)| <= Sse.MAX_STREAM
  }

  /** How the network cuts the providers' streams into blocks decides nothing: every act of the answer,
      failures, fallbacks and accounting included, depends on the bytes alone. */
  lemma BlocksDecideNothing(setup: Setup, parse: Parser, ps: seq<Provider>, qs: seq<Provider>)
    requires |ps| == |qs| && forall i | 0 <= i < |ps| :: SameStream(ps[i], qs[i])
    ensures Answered(setup, parse, ps) == Answered(setup, parse, qs)
  {
    hide FromBytes, Log, Sse.LinesFit;
    forall i | 0 <= i < |ps|
      ensures ScriptOf(parse, ps[i]) == ScriptOf(parse, qs[i])
    {
      var p, q := ps[i], qs[i];
      assert SameStream(p, q);
      CuttingNeverShows(p.target, parse, p.blocks, q.blocks);
      SameArrivals(p, q, FromBytes(p.target, parse, p.blocks).events, 0);
    }
    assert Scripts(parse, ps) == Scripts(parse, qs);
  }

  lemma {:induction false} SameArrivals(p: Provider, q: Provider, events: seq<Event>, k: nat)
    requires p.before == q.before && p.after == q.after
    ensures Arrivals(p, events, k) == Arrivals(q, events, k)
    decreases |events|
  {
    if events != [] {
      SameArrivals(p, q, events[1..], k + 1);
    }
  }

  // ----- what the client is given is what the provider sent -----

  function DeltaOf(e: Event): Delta {
    if e.Data? && e.chunk.choice.Some? then e.chunk.choice.value.delta else NO_DELTA
  }

  function TextOf(events: seq<Event>): string {
    if events == [] then "" else Text(DeltaOf(events[0]).content) + TextOf(events[1..])
  }

  function PartsOf(events: seq<Event>): seq<Part> {
    if events == [] then [] else DeltaOf(events[0]).parts + PartsOf(events[1..])
  }

  ghost predicate Finishes(events: seq<Event>, finish: Finish) {
    exists i :: 0 <= i < |events| && events[i].Data? && events[i].chunk.choice.Some?
      && events[i].chunk.choice.value.finish == Some(finish)
  }

  // One event that does not halt: what it carries is shown, and only it can set the finish reason.
  lemma ReadShows(i: nat, alias: nat, r: Reading, a: Arrival)
    requires r.halt.None? && Read(i, alias, r, a).halt.None?
    ensures
      var next := Read(i, alias, r, a);
      && AllText(next.acts) == AllText(r.acts) + Text(DeltaOf(a.event).content)
      && AllParts(next.acts) == AllParts(r.acts) + DeltaOf(a.event).parts
      && (next.collected.finish == r.collected.finish
          || (next.collected.finish.Some? && Finishes([a.event], next.collected.finish.value)))
  {
    hide AllText, AllParts, AcceptParts;
    var next := Read(i, alias, r, a);
    assert AllText(r.acts) + "" == AllText(r.acts) && AllParts(r.acts) + [] == AllParts(r.acts);
    if next.acts != r.acts {
      var act := Exposed(i, Shown(a.event.chunk));
      TextAppend(r.acts, act);
      PartsAppend(r.acts, act);
    }
    if next.collected.finish != r.collected.finish {
      assert [a.event][0] == a.event;
    }
  }

  lemma {:induction false} ReadAllShows(p: Provider, i: nat, alias: nat, r: Reading, events: seq<Event>, k: nat)
    requires r.halt.None? && ReadAll(i, alias, r, Arrivals(p, events, k)).halt.None?
    ensures
      var end := ReadAll(i, alias, r, Arrivals(p, events, k));
      && AllText(end.acts) == AllText(r.acts) + TextOf(events)
      && AllParts(end.acts) == AllParts(r.acts) + PartsOf(events)
      && (end.collected.finish == r.collected.finish
          || (end.collected.finish.Some? && Finishes(events, end.collected.finish.value)))
    decreases |events|
  {
    hide AllText, AllParts, Read, DeltaOf, Finishes;
    if events == [] {
      assert AllText(r.acts) + "" == AllText(r.acts) && AllParts(r.acts) + [] == AllParts(r.acts);
    } else {
      var arrivals := Arrivals(p, events, k);
      assert arrivals[1..] == Arrivals(p, events[1..], k + 1);
      var next := Read(i, alias, r, arrivals[0]);
      HaltStays(i, alias, next, arrivals[1..]);
      ReadShows(i, alias, r, arrivals[0]);
      ReadAllShows(p, i, alias, next, events[1..], k + 1);
      Regroup(AllText(r.acts), Text(DeltaOf(events[0]).content), TextOf(events[1..]));
      Regroup(AllParts(r.acts), DeltaOf(events[0]).parts, PartsOf(events[1..]));
      FinishesLater(events);
    }
  }

  lemma HaltStays(i: nat, alias: nat, r: Reading, arrivals: seq<Arrival>)
    ensures r.halt.Some? ==> ReadAll(i, alias, r, arrivals) == r
  {
  }

  lemma FinishesLater(events: seq<Event>)
    requires events != []
    ensures forall finish | Finishes([events[0]], finish) || Finishes(events[1..], finish) :: Finishes(events, finish)
  {
    forall finish | Finishes([events[0]], finish) || Finishes(events[1..], finish)
      ensures Finishes(events, finish)
    {
      if Finishes([events[0]], finish) {
        assert [events[0]][0] == events[0];
      } else {
        var j :| 0 <= j < |events[1..]| && events[1..][j].Data? && events[1..][j].chunk.choice.Some?
          && events[1..][j].chunk.choice.value.finish == Some(finish);
        assert events[1 + j] == events[1..][j];
      }
    }
  }

  // The text, the tool calls and the finish reason of the answer are those of one provider's stream.
  ghost predicate Relayed(events: seq<Event>, log: seq<Act>, finish: Finish) {
    AllText(log) == TextOf(events) && AllParts(log) == PartsOf(events) && Finishes(events, finish)
  }

  lemma ShownIsRelayed(parse: Parser, p: Provider, alias: nat, c: nat, shown: seq<Act>, tail: seq<Act>)
    requires Heard(alias, c, ScriptOf(parse, p), shown, tail) && tail != [] && tail[|tail| - 1].Finished?
    ensures
      var upstream := FromBytes(p.target, parse, p.blocks);
      upstream.halt.None? && Relayed(upstream.events, shown, tail[|tail| - 1].finish)
  {
    hide FromBytes, ReadAll, AllText, AllParts, Finishes;
    var upstream := FromBytes(p.target, parse, p.blocks);
    ReadAllShows(p, c, alias, START, upstream.events, 0);
    NothingShown();
    assert "" + TextOf(upstream.events) == TextOf(upstream.events);
    assert [] + PartsOf(upstream.events) == PartsOf(upstream.events);
  }

  lemma NothingShown()
    ensures AllText([]) == "" && AllParts([]) == []
  {
  }

  /** When the answer ends with a finish reason, one provider's stream ended as it should; the text, the
      tool calls and the finish reason that the client has are those of that stream, no part left out or
      added, and together they are a completion that passed validation. */
  lemma AnswerIsTheStream(setup: Setup, parse: Parser, ps: seq<Provider>)
    requires ps != []
    ensures
      var log := Answered(setup, parse, ps);
      log != [] && log[|log| - 1].Finished? ==>
        var end := log[|log| - 1];
        && end.candidate < |ps|
        && var p := ps[end.candidate];
           var upstream := FromBytes(p.target, parse, p.blocks);
           && upstream.halt.None? && Relayed(upstream.events, log, end.finish)
           && exists usage :: p.script.valid(Reassembled(log, end.finish, usage))
  {
    hide AllText, AllParts, CallsOf, Log, LaidOut, Reassembled, Checked, Heard, FromBytes, Relayed, Arrivals;
    var scripts := Scripts(parse, ps);
    var log := Answered(setup, parse, ps);
    var l := LogLayout(setup, scripts, 0);
    if log != [] && log[|log| - 1].Finished? {
      var end := log[|log| - 1];
      DeliveredIsValidated(setup, scripts);
      EndIsTail(scripts, log, l);
      QuietAfter(l.prefix + l.shown, l.tail);
      QuietBefore(l.prefix, l.shown);
      ShownIsRelayed(parse, ps[l.c], setup.alias, l.c, l.shown, l.tail);
      SameRelay(FromBytes(ps[l.c].target, parse, ps[l.c].blocks).events, l.shown, log, end.finish);
    }
  }

  lemma SameRelay(events: seq<Event>, a: seq<Act>, b: seq<Act>, finish: Finish)
    requires AllText(a) == AllText(b) && AllParts(a) == AllParts(b) && Relayed(events, a, finish)
    ensures Relayed(events, b, finish)
  {
    hide AllText, AllParts, Finishes;
  }
}

/**
 When a provider's bytes make an answer, read off the events of its stream and the circumstances: nothing
 in the gateway's own checks, the chunks' rules or the accounting stops it.
 */
module PathRules {
  import opened Basics
  import opened Failures
  import opened StreamDelivery
  import opened TargetStream
  import opened StreamPath
  import opened StreamRules
  import opened StreamFallback

  // Chunks under the alias, and perhaps the observation after them.
  ghost predicate Orderly(alias: nat, events: seq<Event>) {
    forall k | 0 <= k < |events| ::
      if events[k].Data? then events[k].chunk.model == alias else events[k].Observed? && k == |events| - 1
  }

  // No check raises around any event; the one behind a chunk is made only if the client is shown something.
  ghost predicate NoCheckRaises(p: Provider, events: seq<Event>) {
    forall k | 0 <= k < |events| ::
      p.before(k).None? && (events[k].Data? && HasContent(events[k].chunk) ==> p.after(k).None?)
  }

  function ChunksOf(events: seq<Event>): seq<Chunk>
    decreases |events|
  {
    if events == [] then []
    else
      var last := events[|events| - 1];
      ChunksOf(events[..|events| - 1]) + if last.Data? then [last.chunk] else []
  }

  lemma {:induction false} ArrivalsAt(p: Provider, events: seq<Event>, k: nat)
    ensures |Arrivals(p, events, k)| == |events|
    ensures forall j | 0 <= j < |events| ::
              Arrivals(p, events, k)[j] == Arrival(events[j], p.before(k + j), p.after(k + j))
    decreases |events|
  {
    if events != [] {
      ArrivalsAt(p, events[1..], k + 1);
      assert forall j | 0 < j < |events| :: events[j] == events[1..][j - 1];
    }
  }

  lemma {:induction false} ArrivalsPrefix(p: Provider, events: seq<Event>, n: nat)
    requires n <= |events|
    ensures |Arrivals(p, events, 0)| == |events|
    ensures ChunksIn(Arrivals(p, events, 0)[..n]) == ChunksOf(events[..n])
    decreases n
  {
    hide Arrivals;
    ArrivalsAt(p, events, 0);
    var arrivals := Arrivals(p, events, 0);
    if n > 0 {
      ArrivalsPrefix(p, events, n - 1);
      assert arrivals[..n][..n - 1] == arrivals[..n - 1] && events[..n][..n - 1] == events[..n - 1];
    }
  }

  // Each chunk fits those before it.
  ghost predicate FitTogether(events: seq<Event>) {
    forall k | 0 <= k < |events| && events[k].Data? :: ChunkFits(ChunksOf(events[..k]), events[k].chunk)
  }

  lemma NothingObserved(p: Provider, alias: nat, events: seq<Event>, n: nat)
    requires Orderly(alias, events) && n < |events|
    ensures n <= |Arrivals(p, events, 0)| && !HasObservation(Arrivals(p, events, 0)[..n])
  {
    hide Arrivals;
    ArrivalsAt(p, events, 0);
  }

  lemma WelcomeAt(p: Provider, alias: nat, events: seq<Event>, n: nat)
    requires Orderly(alias, events) && n < |events|
    ensures |Arrivals(p, events, 0)| == |events|
    ensures
      var arrivals := Arrivals(p, events, 0);
      Welcome(alias, arrivals[..n], arrivals[n]) <==>
        && p.before(n).None?
        && (events[n].Data? ==>
              && ChunkFits(ChunksOf(events[..n]), events[n].chunk)
              && (HasContent(events[n].chunk) ==> p.after(n).None?))
  {
    hide Arrivals, ChunkFits, HasObservation, ChunksIn;
    ArrivalsAt(p, events, 0);
    ArrivalsPrefix(p, events, n);
    NothingObserved(p, alias, events, n);
  }

  lemma WelcomeExactly(p: Provider, alias: nat, events: seq<Event>)
    requires Orderly(alias, events)
    ensures AllWelcome(alias, Arrivals(p, events, 0)) <==> NoCheckRaises(p, events) && FitTogether(events)
  {
    hide Arrivals, ChunkFits, Welcome, ChunksOf, Orderly, HasContent;
    ArrivalsAt(p, events, 0);
    forall n | 0 <= n < |events|
      ensures |Arrivals(p, events, 0)| == |events|
      ensures
        var arrivals := Arrivals(p, events, 0);
        Welcome(alias, arrivals[..n], arrivals[n]) <==>
          && p.before(n).None?
          && (events[n].Data? ==>
                && ChunkFits(ChunksOf(events[..n]), events[n].chunk)
                && (HasContent(events[n].chunk) ==> p.after(n).None?))
    {
      WelcomeAt(p, alias, events, n);
    }
  }

  // What the adapter gives is in this order.
  lemma UpstreamOrderly(parse: Parser, p: Provider)
    ensures Orderly(p.target.alias, FromBytes(p.target, parse, p.blocks).events)
  {
    hide FromBytes;
    ObservationComesLast(p.target, parse, p.blocks);
  }

  // What was read of a provider's stream is whole, valid and within the ceiling on tokens.
  ghost predicate Approved(setup: Setup, script: Script, r: Reading) {
    && Completed(r.collected).Some? && script.valid(Completed(r.collected).value) && WithinTokens(setup, r)
  }

  /** When a provider's stream is delivered: exactly if the candidate is admitted, its bytes come to a proper
      end and are not cut short, no check raises on the way, each chunk fits those before it, the completion
      is approved, and it is accounted for and saved. */
  lemma ProviderCompletesExactly(setup: Setup, parse: Parser, p: Provider, i: nat)
    requires p.target.alias == setup.alias
    ensures
      var upstream := FromBytes(p.target, parse, p.blocks);
      var r := ReadAll(i, setup.alias, START, Arrivals(p, upstream.events, 0));
      Completes(setup, i, ScriptOf(parse, p)) <==>
        && p.script.refused.None? && p.script.dropped.None?
        && upstream.halt.None? && p.script.ends.None?
        && NoCheckRaises(p, upstream.events) && FitTogether(upstream.events)
        && Approved(setup, p.script, r)
        && p.script.unsettled.None? && !p.script.overage && p.script.unsaved.None?
  {
    hide FromBytes, Arrivals, ReadAll, NoCheckRaises, FitTogether, Orderly, WithinTokens, Completed, AllWelcome;
    var upstream := FromBytes(p.target, parse, p.blocks);
    UpstreamOrderly(parse, p);
    WelcomeExactly(p, setup.alias, upstream.events);
    StreamReadExactly(i, setup.alias, Arrivals(p, upstream.events, 0));
    CompletedBy(ReadAll(i, setup.alias, START, Arrivals(p, upstream.events, 0)).collected);
  }

  /** A stream that breaks off fails its candidate as a failure of the provider, whatever else would have
      happened at its end, after everything that came before has been shown. */
  lemma BrokenStreamFails(setup: Setup, parse: Parser, ps: seq<Provider>, i: nat)
    requires i < |ps| && ps[i].target.alias == setup.alias
    requires ps[i].script.refused.None? && ps[i].script.dropped.None?
    requires FromBytes(ps[i].target, parse, ps[i].blocks).halt.Some?
    requires
      var events := FromBytes(ps[i].target, parse, ps[i].blocks).events;
      NoCheckRaises(ps[i], events) && FitTogether(events)
    ensures
      var arrivals := Arrivals(ps[i], FromBytes(ps[i].target, parse, ps[i].blocks).events, 0);
      var tried := Attempted(setup, Scripts(parse, ps), i);
      tried.halt == Some(Error(ProviderFailure)) && tried.pending && Copies(i, tried.acts, ContentIn(arrivals))
  {
    hide Arrivals, ReadAll, NoCheckRaises, FitTogether, Orderly, WithinTokens, Completed, AllWelcome, ContentIn,
        Copies, Welcome, TakeAll, Causes;
    var p, scripts := ps[i], Scripts(parse, ps);
    var events := FromBytes(p.target, parse, p.blocks).events;
    var arrivals := Arrivals(p, events, 0);
    UpstreamOrderly(parse, p);
    WelcomeExactly(p, setup.alias, events);
    assert arrivals[..|arrivals|] == arrivals;
    ShownExactly(i, setup.alias, arrivals, |arrivals|);
    EndsFourth(setup, i, scripts[i]);
    StopsByFirstCause(setup, scripts, i, 3);
  }

  lemma EndsFourth(setup: Setup, i: nat, script: Script)
    requires script.refused.None? && script.dropped.None? && script.ends.Some?
    requires ReadAll(i, setup.alias, START, script.arrivals).halt.None?
    ensures FirstCause(Causes(setup, i, script), 3) && Causes(setup, i, script)[3] == script.ends
  {
    hide ReadAll, Completed, WithinTokens;
    var causes := Causes(setup, i, script);
    assert causes[0] == script.refused && causes[1] == script.dropped && causes[3] == script.ends;
  }
}

/**
 Which candidate answers a stream, told from the scripts alone: a candidate that shows nothing passes
 on to the next one for an allowed kind of failure, and the first that does not decides the answer.
 */
module StreamFallback {
  import opened Basics
  import opened Failures
  import opened StreamDelivery

  function Attempted(setup: Setup, scripts: seq<Script>, i: nat): Tried
    requires i < |scripts|
  {
    Try(i, setup.alias, setup.maxTokens, scripts[i])
  }

  predicate ShowsNothing(acts: seq<Act>) { forall j | 0 <= j < |acts| :: !acts[j].Exposed? }

  // The candidate fails for this reason before the client has seen anything of it.
  predicate FailsUnseen(setup: Setup, scripts: seq<Script>, i: nat, kind: FailureKind)
    requires i < |scripts|
  {
    Attempted(setup, scripts, i).halt == Some(Error(kind)) && ShowsNothing(Attempted(setup, scripts, i).acts)
  }

  predicate Allowed(setup: Setup, kind: FailureKind) { setup.fallbackOn == {} || kind in setup.fallbackOn }

  // It leaves the answer to the next candidate.
  ghost predicate PassesOn(setup: Setup, scripts: seq<Script>, i: nat) {
    && i + 1 < |scripts| && !scripts[i].cancelled
    && exists kind :: FailsUnseen(setup, scripts, i, kind) && Allowed(setup, kind)
  }

  // The attempt is accounted for where that is still to be done.
  function Settling(tried: Tried, i: nat): seq<Act> {
    if tried.pending && tried.halt.Some? then [Accounted(i, false)] else []
  }

  // How the log ends after the candidate that decides it: with its own last act when it succeeded or
  // when somebody went away, with nothing more when the request turns out to be cancelled, and
  // otherwise with a failure, which is partial when something was shown.
  function Closing(setup: Setup, scripts: seq<Script>, i: nat): seq<Act>
    requires i < |scripts|
  {
    var tried := Attempted(setup, scripts, i);
    if tried.halt.None? || tried.halt == Some(Interrupted) then []
    else if !ShowsNothing(tried.acts) then [Failed(true)]
    else if i + 1 < |scripts| && Allowed(setup, tried.halt.value.kind) then []
    else [Failed(false)]
  }

  lemma ShownOrNot(acts: seq<Act>)
    ensures ShowsNothing(acts) <==> !HasExposed(acts)
  {
  }

  lemma OneCandidate(setup: Setup, scripts: seq<Script>, i: nat)
    requires i < |scripts|
    ensures
      var tried := Attempted(setup, scripts, i);
      var own := tried.acts + Settling(tried, i);
      Log(setup, scripts, i)
        == if PassesOn(setup, scripts, i) then own + Log(setup, scripts, i + 1) else own + Closing(setup, scripts, i)
  {
    hide Try, HasExposed, ShowsNothing;
    var tried := Attempted(setup, scripts, i);
    ShownOrNot(tried.acts);
    LogUnfolds(setup, scripts, i);
    var own := tried.acts + Settling(tried, i);
    assert own + [] == own && tried.acts + [] == tried.acts;
    if tried.halt.Some? && tried.halt.value.Error? {
      assert FailsUnseen(setup, scripts, i, tried.halt.value.kind) <==> ShowsNothing(tried.acts);
    }
  }

  /** A candidate that fails for a reason of some kind before anything is shown, and that is not the last
      and whose request is not cancelled, leaves the answer to the next one if and only if the kind is
      allowed; nothing else does. */
  lemma NextIsTriedExactly(setup: Setup, scripts: seq<Script>, i: nat, kind: FailureKind)
    requires i + 1 < |scripts| && !scripts[i].cancelled && FailsUnseen(setup, scripts, i, kind)
    ensures
      var tried := Attempted(setup, scripts, i);
      Log(setup, scripts, i) == tried.acts + Settling(tried, i)
        + if setup.fallbackOn == {} || kind in setup.fallbackOn then Log(setup, scripts, i + 1) else [Failed(false)]
  {
    hide Try, ShowsNothing, Log;
    OneCandidate(setup, scripts, i);
  }

  // The accounting of the candidates that passed on.
  function PassedOver(setup: Setup, scripts: seq<Script>, i: nat, j: nat): seq<Act>
    requires i <= j <= |scripts|
    decreases j - i
  {
    if i == j then []
    else
      var tried := Attempted(setup, scripts, i);
      tried.acts + Settling(tried, i) + PassedOver(setup, scripts, i + 1, j)
  }

  lemma {:induction false} ReachesFrom(setup: Setup, scripts: seq<Script>, i: nat, j: nat)
    requires i <= j < |scripts| && forall k | i <= k < j :: PassesOn(setup, scripts, k)
    ensures Log(setup, scripts, i) == PassedOver(setup, scripts, i, j) + Log(setup, scripts, j)
    decreases j - i
  {
    hide PassesOn, Try, Log;
    if i == j {
      assert [] + Log(setup, scripts, j) == Log(setup, scripts, j);
    } else {
      var tried := Attempted(setup, scripts, i);
      OneCandidate(setup, scripts, i);
      ReachesFrom(setup, scripts, i + 1, j);
      Regroup(tried.acts + Settling(tried, i), PassedOver(setup, scripts, i + 1, j), Log(setup, scripts, j));
    }
  }

  lemma {:induction false} Decider(setup: Setup, scripts: seq<Script>, i: nat) returns (c: nat)
    requires i < |scripts|
    ensures i <= c < |scripts| && !PassesOn(setup, scripts, c) && forall k | i <= k < c :: PassesOn(setup, scripts, k)
    decreases |scripts| - i
  {
    hide FailsUnseen, Allowed;
    if PassesOn(setup, scripts, i) {
      c := Decider(setup, scripts, i + 1);
    } else {
      c := i;
    }
  }

  /** The answer, exactly: the first candidate that does not pass on decides it. Before its acts come
      only those of the candidates before it, after them only how its own attempt closes. */
  lemma FirstThatStays(setup: Setup, scripts: seq<Script>, c: nat)
    requires c < |scripts| && !PassesOn(setup, scripts, c) && forall k | 0 <= k < c :: PassesOn(setup, scripts, k)
    ensures
      var tried := Attempted(setup, scripts, c);
      Log(setup, scripts, 0)
        == PassedOver(setup, scripts, 0, c) + (tried.acts + Settling(tried, c) + Closing(setup, scripts, c))
  {
    hide PassesOn, Try, Log;
    ReachesFrom(setup, scripts, 0, c);
    OneCandidate(setup, scripts, c);
  }

  lemma SomebodyStays(setup: Setup, scripts: seq<Script>)
    requires scripts != []
    ensures exists c: nat ::
      c < |scripts| && !PassesOn(setup, scripts, c) && forall k | 0 <= k < c :: PassesOn(setup, scripts, k)
  {
    hide PassesOn;
    var c := Decider(setup, scripts, 0);
  }

  // ----- when a candidate delivers -----

  // Nothing stops the candidate: it is admitted, its stream is read to the end, the completion is whole
  // and valid, within the ceiling on tokens, accounted for and saved.
  ghost predicate Completes(setup: Setup, i: nat, script: Script) {
    var r := ReadAll(i, setup.alias, START, script.arrivals);
    && script.refused.None? && script.dropped.None? && r.halt.None? && script.ends.None?
    && r.collected.finish.Some? && script.valid(Completed(r.collected).value)
    && WithinTokens(setup, r)
    && script.unsettled.None? && !script.overage && script.unsaved.None?
  }

  // The usage that counts is the observed one, if there was an observation.
  predicate WithinTokens(setup: Setup, r: Reading) {
    && (r.observation.Some? && r.observation.value.usage.Some? ==>
         r.observation.value.usage.value.completion <= setup.maxTokens)
    && (r.observation.None? && r.collected.usage.Some? ==> r.collected.usage.value.completion <= setup.maxTokens)
  }

  lemma CompletedBy(s: Collected)
    ensures Completed(s).Some? <==> s.finish.Some?
    ensures s.finish.Some? ==> Completed(s).value.finish == s.finish.value
  {
    hide Ordered;
  }

  /** A candidate's acts end with a finish reason exactly when nothing stops it; it fails otherwise. */
  lemma FinishesExactly(setup: Setup, scripts: seq<Script>, i: nat)
    requires i < |scripts|
    ensures
      var tried, script := Attempted(setup, scripts, i), scripts[i];
      var r := ReadAll(i, setup.alias, START, script.arrivals);
      && (Completes(setup, i, script) <==> tried.acts != [] && tried.acts[|tried.acts| - 1].Finished?)
      && (Completes(setup, i, script) ==>
        && tried.acts[|tried.acts| - 1].candidate == i
        && tried.acts[|tried.acts| - 1].finish == r.collected.finish.value
        && tried.acts[|tried.acts| - 1].usage
           == (if r.observation.Some? then r.observation.value.usage else r.collected.usage)
        && !tried.pending && tried.halt == if script.leaves then Some(Interrupted) else None)
      && (!Completes(setup, i, script) ==> tried.halt.Some?)
  {
    hide ReadAll, Completed, Ordered, Faithful;
    var script := scripts[i];
    var r := ReadAll(i, setup.alias, START, script.arrivals);
    CompletedBy(r.collected);
    NothingIsFaithful(i);
    ReadingIsFaithful(i, setup.alias, START, script.arrivals);
    FaithfulShows(i, r);
  }

  // What may stop a candidate, in the order of its course; an answer that is incomplete, not valid or too
  // long, and one that costs more than was reserved, read as a failure of the provider.
  function Causes(setup: Setup, i: nat, script: Script): seq<Option<Halt>> {
    var r := ReadAll(i, setup.alias, START, script.arrivals);
    var failure := Some(Error(ProviderFailure));
    [script.refused, script.dropped, r.halt, script.ends,
     if r.collected.finish.None? then failure
     else if !script.valid(Completed(r.collected).value) || !WithinTokens(setup, r) then failure else None,
     script.unsettled, if script.overage then failure else None, script.unsaved]
  }

  // The first of them is the n-th.
  predicate FirstCause(causes: seq<Option<Halt>>, n: nat) {
    n < |causes| && causes[n].Some? && forall k | 0 <= k < n :: causes[k].None?
  }

  /** A candidate that does not deliver stops by the first cause there is, and with that reason. It has
      shown what it read by then. Its attempt is on record after the first cause, and is settled from the
      seventh on; in between it is still to be accounted for. */
  lemma StopsByFirstCause(setup: Setup, scripts: seq<Script>, i: nat, n: nat)
    requires i < |scripts| && FirstCause(Causes(setup, i, scripts[i]), n)
    ensures
      var tried, script := Attempted(setup, scripts, i), scripts[i];
      var r := ReadAll(i, setup.alias, START, script.arrivals);
      && tried.halt == Causes(setup, i, script)[n]
      && (tried.pending <==> 1 <= n <= 5)
      && tried.acts == (if n <= 1 then [] else if n <= 5 then r.acts else r.acts + [Accounted(i, true)])
  {
    hide ReadAll, Completed, WithinTokens;
    var script := scripts[i];
    var r := ReadAll(i, setup.alias, START, script.arrivals);
    CompletedBy(r.collected);
    TokensWithin(setup, r);
    var causes := Causes(setup, i, script);
    assert causes[0] == script.refused && causes[1] == script.dropped && causes[2] == r.halt;
    assert causes[3] == script.ends && causes[5] == script.unsettled && causes[7] == script.unsaved;
    assert causes[4].None? <==> Whole(setup, script, r);
    assert causes[4].Some? ==> causes[4] == BAD;
    assert causes[6] == if script.overage then BAD else None;
  }

  // The answer is complete, valid and within the ceiling on tokens.
  predicate Whole(setup: Setup, script: Script, r: Reading) {
    r.collected.finish.Some? && Completed(r.collected).Some? && script.valid(Completed(r.collected).value)
    && WithinTokens(setup, r)
  }

  lemma TokensWithin(setup: Setup, r: Reading)
    ensures WithinTokens(setup, r) <==>
            (FinalUsage(r).Some? ==> FinalUsage(r).value.completion <= setup.maxTokens)
  {
  }

  /** And it delivers exactly if there is none. */
  lemma DeliversWithoutCause(setup: Setup, script: Script, i: nat)
    ensures Completes(setup, i, script) <==> forall n | 0 <= n < 8 :: Causes(setup, i, script)[n].None?
  {
    hide ReadAll, Completed, WithinTokens;
    var causes := Causes(setup, i, script);
    assert causes[0] == script.refused && causes[1] == script.dropped;
    assert causes[3] == script.ends && causes[5] == script.unsettled && causes[7] == script.unsaved;
    var r := ReadAll(i, setup.alias, START, script.arrivals);
    CompletedBy(r.collected);
    assert causes[2] == r.halt;
    assert causes[4].None? <==> Whole(setup, script, r);
    assert causes[6].None? ==> !script.overage;
  }

  /** So a request is answered by a fallback whenever one can: if every candidate before the j-th fails
      unseen for allowed reasons and the j-th is stopped by nothing, the log ends with the finish reason
      of the j-th. */
  lemma FallbackDelivers(setup: Setup, scripts: seq<Script>, j: nat)
    requires j < |scripts| && Completes(setup, j, scripts[j])
    requires forall i | 0 <= i < j :: PassesOn(setup, scripts, i)
    ensures
      var log := Log(setup, scripts, 0);
      log != [] && log[|log| - 1].Finished? && log[|log| - 1].candidate == j
  {
    hide PassesOn, Completes, Try, Log;
    FinishesExactly(setup, scripts, j);
    DeliveringStays(setup, scripts, j);
    FirstThatStays(setup, scripts, j);
    var tried := Attempted(setup, scripts, j);
    assert tried.acts + [] + [] == tried.acts;
  }

  lemma DeliveringStays(setup: Setup, scripts: seq<Script>, j: nat)
    requires j < |scripts| && Completes(setup, j, scripts[j])
    ensures !PassesOn(setup, scripts, j) && Closing(setup, scripts, j) == []
    ensures Settling(Attempted(setup, scripts, j), j) == []
  {
    hide Try, Completes, ShowsNothing;
    FinishesExactly(setup, scripts, j);
  }
}

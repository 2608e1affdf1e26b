/**
 The tool-call bookkeeping of a chat request.

 The request validator walks the message history once, keeping the calls that still wait for a
 result and all call IDs used so far. The reference definition has no such state: it says which
 shape a history must have. The two are shown to accept the same histories.
 */
module ChatHistory {
  import opened Basics

  datatype CallId = CallId(text: string)
  datatype ToolName = ToolName(text: string)

  datatype Call = Call(id: CallId, name: ToolName)

  // Only the fields the loop reads. A tool message answers one call; only an assistant message
  // carries calls (both are checked field by field before the loop runs).
  datatype Message = System | User | Assistant(calls: seq<Call>) | Tool(answers: CallId)

  function CallsOf(m: Message): seq<Call> {
    if m.Assistant? then m.calls else []
  }

  function Ids(calls: seq<Call>): seq<CallId> {
    if calls == [] then [] else [calls[0].id] + Ids(calls[1..])
  }

  function AllCalls(messages: seq<Message>): seq<Call> {
    if messages == [] then [] else CallsOf(messages[0]) + AllCalls(messages[1..])
  }

  // The k messages from the start are results for exactly the given calls, in any order.
  ghost predicate Answered(messages: seq<Message>, calls: seq<Call>) {
    && |messages| >= |calls|
    && (forall i | 0 <= i < |calls| :: messages[i].Tool?)
    && multiset(Answers(messages[..|calls|])) == multiset(Ids(calls))
  }

  function Answers(messages: seq<Message>): seq<CallId> {
    if messages == [] then []
    else (if messages[0].Tool? then [messages[0].answers] else []) + Answers(messages[1..])
  }

  // A history is a sequence of blocks: one message that is no tool result, followed at once by one
  // result for each of its calls.
  ghost predicate Blocks(messages: seq<Message>)
    decreases |messages|
  {
    messages == [] ||
    (&& !messages[0].Tool?
     && var calls := CallsOf(messages[0]);
        Answered(messages[1..], calls) && Blocks(messages[1 + |calls|..]))
  }

  ghost predicate WellFormed(messages: seq<Message>, declared: set<ToolName>) {
    && Distinct(Ids(AllCalls(messages)))
    && (forall i | 0 <= i < |AllCalls(messages)| :: AllCalls(messages)[i].name in declared)
    && Blocks(messages)
  }

  // ----- the validator -----

  datatype Walk = Walk(pending: set<CallId>, seen: set<CallId>)

  // One pass of the inner loop, over the calls of one message.
  function Open(w: Walk, calls: seq<Call>, declared: set<ToolName>): Option<Walk>
    decreases calls
  {
    if calls == [] then Some(w)
    else if calls[0].id in w.seen || calls[0].name !in declared then None
    else Open(Walk(w.pending + {calls[0].id}, w.seen + {calls[0].id}), calls[1..], declared)
  }

  function Step(w: Walk, m: Message, declared: set<ToolName>): Option<Walk> {
    if w.pending != {} && !m.Tool? then None
    else if m.Tool? then
      if m.answers in w.pending then Some(w.(pending := w.pending - {m.answers})) else None
    else Open(w, CallsOf(m), declared)
  }

  predicate Accepts(w: Walk, messages: seq<Message>, declared: set<ToolName>)
    decreases messages
  {
    if messages == [] then w.pending == {}
    else
      match Step(w, messages[0], declared)
      case None => false
      case Some(w') => Accepts(w', messages[1..], declared)
  }

  /** The source's loop: true when it runs to its end without an error. It accepts exactly the
      well-formed histories. */
  method Combinations(messages: seq<Message>, declared: set<ToolName>) returns (ok: bool)
    ensures ok <==> WellFormed(messages, declared)
  {
    WalkIsWellFormed(messages, declared);
    var pending: set<CallId>, seen: set<CallId> := {}, {};
    for i := 0 to |messages|
      invariant Accepts(Walk({}, {}), messages, declared)
           <==> Accepts(Walk(pending, seen), messages[i..], declared)
    {
      var message := messages[i];
      assert messages[i..][1..] == messages[i + 1..];
      if pending != {} && !message.Tool? {
        return false;
      }
      if message.Tool? {
        if message.answers !in pending {
          return false;
        }
        pending := pending - {message.answers};
      }
      var calls := CallsOf(message);
      ghost var outcome := Open(Walk(pending, seen), calls, declared);
      for j := 0 to |calls|
        invariant outcome == Open(Walk(pending, seen), calls[j..], declared)
      {
        var call := calls[j];
        assert calls[j..][1..] == calls[j + 1..];
        if call.id in seen || call.name !in declared {
          return false;
        }
        pending := pending + {call.id};
        seen := seen + {call.id};
      }
    }
    ok := pending == {};
  }

  // ----- the two agree -----

  function IdSet(calls: seq<Call>): set<CallId> {
    set i | 0 <= i < |calls| :: calls[i].id
  }

  ghost predicate Fresh(calls: seq<Call>, seen: set<CallId>, declared: set<ToolName>) {
    Distinct(Ids(calls)) && Unseen(calls, seen, declared)
  }

  predicate Unseen(calls: seq<Call>, seen: set<CallId>, declared: set<ToolName>) {
    forall i | 0 <= i < |calls| :: calls[i].id !in seen && calls[i].name in declared
  }

  lemma IdsAt(calls: seq<Call>)
    ensures |Ids(calls)| == |calls| && forall i | 0 <= i < |calls| :: Ids(calls)[i] == calls[i].id
  {
  }

  lemma IdsAppend(a: seq<Call>, b: seq<Call>)
    ensures Ids(a + b) == Ids(a) + Ids(b)
  {
    IdsAt(a);
    IdsAt(b);
    IdsAt(a + b);
  }

  lemma UnseenAppend(a: seq<Call>, b: seq<Call>, seen: set<CallId>, declared: set<ToolName>)
    ensures Unseen(a + b, seen, declared) <==> Unseen(a, seen, declared) && Unseen(b, seen, declared)
  {
    assert forall i | 0 <= i < |a| :: (a + b)[i] == a[i];
    assert forall i | 0 <= i < |b| :: (a + b)[|a| + i] == b[i];
  }

  // The calls of one list are not seen in another.
  lemma UnseenApart(a: seq<Call>, b: seq<Call>, seen: set<CallId>, declared: set<ToolName>)
    ensures Unseen(b, seen + IdSet(a), declared) <==>
      Unseen(b, seen, declared) && forall i | 0 <= i < |Ids(a)| :: Ids(a)[i] !in Ids(b)
  {
    IdsAt(a);
    IdsAt(b);
    hide Ids;
    if Unseen(b, seen + IdSet(a), declared) {
      forall i, j | 0 <= i < |a| && 0 <= j < |b|
        ensures Ids(a)[i] != Ids(b)[j]
      {
        assert a[i].id in IdSet(a);
      }
    }
    if Unseen(b, seen, declared) && forall i | 0 <= i < |Ids(a)| :: Ids(a)[i] !in Ids(b) {
      forall j | 0 <= j < |b|
        ensures b[j].id !in IdSet(a)
      {
        assert Ids(b)[j] in Ids(b);
      }
    }
  }

  lemma FreshAppend(a: seq<Call>, b: seq<Call>, seen: set<CallId>, declared: set<ToolName>)
    ensures Fresh(a + b, seen, declared) <==> Fresh(a, seen, declared) && Fresh(b, seen + IdSet(a), declared)
  {
    hide Ids, Unseen, IdSet, Distinct;
    IdsAt(a);
    IdsAppend(a, b);
    DistinctAppend(Ids(a), Ids(b));
    UnseenAppend(a, b, seen, declared);
    UnseenApart(a, b, seen, declared);
  }

  lemma FreshHead(calls: seq<Call>, seen: set<CallId>, declared: set<ToolName>)
    requires calls != []
    ensures Fresh(calls, seen, declared) <==>
      calls[0].id !in seen && calls[0].name in declared && Fresh(calls[1..], seen + {calls[0].id}, declared)
    ensures IdSet(calls) == {calls[0].id} + IdSet(calls[1..])
  {
    var one := [calls[0]];
    assert one + calls[1..] == calls;
    FreshAppend(one, calls[1..], seen, declared);
    assert IdSet(one) == {one[0].id};
    IdsAt(one);
    assert Fresh(one, seen, declared) <==> one[0].id !in seen && one[0].name in declared;
    assert forall i | 0 < i < |calls| :: calls[i] == calls[1..][i - 1];
    assert forall i | 0 <= i < |calls[1..]| :: calls[1..][i] == calls[i + 1];
  }

  lemma {:induction false} OpenMeans(w: Walk, calls: seq<Call>, declared: set<ToolName>)
    ensures Open(w, calls, declared).Some? <==> Fresh(calls, w.seen, declared)
    ensures Fresh(calls, w.seen, declared) ==>
      Open(w, calls, declared).value == Walk(w.pending + IdSet(calls), w.seen + IdSet(calls))
    decreases |calls|
  {
    if calls != [] {
      var id := calls[0].id;
      FreshHead(calls, w.seen, declared);
      OpenMeans(Walk(w.pending + {id}, w.seen + {id}), calls[1..], declared);
      assert w.pending + {id} + IdSet(calls[1..]) == w.pending + IdSet(calls);
      assert w.seen + {id} + IdSet(calls[1..]) == w.seen + IdSet(calls);
    } else {
      assert w.pending + IdSet(calls) == w.pending && w.seen + IdSet(calls) == w.seen;
    }
  }

  lemma {:induction false} FreshIdSet(calls: seq<Call>, seen: set<CallId>, declared: set<ToolName>)
    requires Fresh(calls, seen, declared)
    ensures IdSet(calls) !! seen
    ensures |IdSet(calls)| == |calls| && multiset(IdSet(calls)) == multiset(Ids(calls))
    decreases |calls|
  {
    if calls != [] {
      var id, rest := calls[0].id, calls[1..];
      FreshHead(calls, seen, declared);
      FreshIdSet(rest, seen + {id}, declared);
      assert id !in IdSet(rest);
      assert multiset(IdSet(calls)) == multiset{id} + multiset(IdSet(rest));
    }
  }

  lemma {:induction false} ResultsHaveNoCalls(messages: seq<Message>, k: nat)
    requires k <= |messages| && forall i | 0 <= i < k :: messages[i].Tool?
    ensures AllCalls(messages) == AllCalls(messages[k..])
    decreases k
  {
    if k > 0 {
      ResultsHaveNoCalls(messages[1..], k - 1);
      assert messages[1..][k - 1..] == messages[k..];
    }
  }

  // What is left to be seen after a walk: first the pending results, then well-formed blocks.
  ghost predicate Remainder(w: Walk, messages: seq<Message>, declared: set<ToolName>) {
    var k := |w.pending|;
    && k <= |messages|
    && (forall i | 0 <= i < k :: messages[i].Tool?)
    && multiset(Answers(messages[..k])) == multiset(w.pending)
    && Fresh(AllCalls(messages[k..]), w.seen, declared)
    && Blocks(messages[k..])
  }

  lemma {:induction false} AnswerOne(w: Walk, messages: seq<Message>, declared: set<ToolName>)
    requires w.pending != {} && messages != [] && messages[0].Tool? && messages[0].answers in w.pending
    ensures Remainder(w, messages, declared)
       <==> Remainder(w.(pending := w.pending - {messages[0].answers}), messages[1..], declared)
  {
    hide Fresh, Blocks, AllCalls, Answers;
    var k, a, rest := |w.pending|, messages[0].answers, messages[1..];
    if k <= |messages| {
      assert rest[k - 1..] == messages[k..];
      assert messages[..k][1..] == rest[..k - 1];
      var others := Answers(rest[..k - 1]);
      AnswersHead(messages[..k]);
      CancelHead(a, others, w.pending);
      assert (forall i | 0 <= i < k :: messages[i].Tool?) <==> (forall i | 0 <= i < k - 1 :: rest[i].Tool?) by {
        assert forall i | 0 <= i < k - 1 :: rest[i] == messages[i + 1];
        assert forall i | 0 < i < k :: messages[i] == rest[i - 1];
      }
    }
  }

  lemma AnswersHead(messages: seq<Message>)
    requires messages != [] && messages[0].Tool?
    ensures Answers(messages) == [messages[0].answers] + Answers(messages[1..])
  {
  }

  lemma CancelHead(a: CallId, others: seq<CallId>, pending: set<CallId>)
    requires a in pending
    ensures multiset([a] + others) == multiset(pending) <==> multiset(others) == multiset(pending - {a})
  {
    assert multiset([a] + others) == multiset{a} + multiset(others);
    assert multiset(pending) == multiset{a} + multiset(pending - {a});
    assert (multiset{a} + multiset(others)) - multiset{a} == multiset(others);
    assert (multiset{a} + multiset(pending - {a})) - multiset{a} == multiset(pending - {a});
  }

  lemma RemainderEmpty(w: Walk, messages: seq<Message>, declared: set<ToolName>)
    requires w.pending == {}
    ensures Remainder(w, messages, declared) <==> Fresh(AllCalls(messages), w.seen, declared) && Blocks(messages)
  {
    assert messages[0..] == messages && messages[..0] == [];
  }

  lemma OpenBlock(w: Walk, messages: seq<Message>, declared: set<ToolName>)
    requires w.pending == {} && messages != [] && !messages[0].Tool?
    ensures Remainder(w, messages, declared) <==>
      var calls := CallsOf(messages[0]);
      && Fresh(calls, w.seen, declared)
      && Remainder(Walk(IdSet(calls), w.seen + IdSet(calls)), messages[1..], declared)
  {
    var calls, rest := CallsOf(messages[0]), messages[1..];
    var k := |calls|;
    RemainderEmpty(w, messages, declared);
    FreshAppend(calls, AllCalls(rest), w.seen, declared);
    if Fresh(calls, w.seen, declared) {
      FreshIdSet(calls, w.seen, declared);
      BlocksHead(messages);
      if k <= |rest| && forall i | 0 <= i < k :: rest[i].Tool? {
        ResultsHaveNoCalls(rest, k);
      }
    }
  }

  lemma BlocksHead(messages: seq<Message>)
    requires messages != [] && !messages[0].Tool?
    ensures
      var calls, rest := CallsOf(messages[0]), messages[1..];
      Blocks(messages) <==> Answered(rest, calls) && Blocks(rest[|calls|..])
  {
    var calls, rest := CallsOf(messages[0]), messages[1..];
    if Answered(rest, calls) {
      assert rest[|calls|..] == messages[1 + |calls|..];
    }
  }

  lemma {:induction false} AcceptsMeans(w: Walk, messages: seq<Message>, declared: set<ToolName>)
    ensures Accepts(w, messages, declared) <==> Remainder(w, messages, declared)
    decreases |messages|
  {
    if messages == [] {
      assert w.pending == {} ==> messages[..0] == [] && messages[0..] == [];
    } else if w.pending == {} && !messages[0].Tool? {
      var calls := CallsOf(messages[0]);
      OpenBlock(w, messages, declared);
      OpenMeans(w, calls, declared);
      assert w.pending + IdSet(calls) == IdSet(calls);
      if Fresh(calls, w.seen, declared) {
        AcceptsMeans(Walk(IdSet(calls), w.seen + IdSet(calls)), messages[1..], declared);
      }
    } else if w.pending == {} {
      assert messages[0..] == messages;
    } else if messages[0].Tool? && messages[0].answers in w.pending {
      AnswerOne(w, messages, declared);
      AcceptsMeans(w.(pending := w.pending - {messages[0].answers}), messages[1..], declared);
    } else if messages[0].Tool? && |w.pending| <= |messages| {
      var k := |w.pending|;
      assert messages[..k][0] == messages[0];
      assert messages[0].answers in multiset(Answers(messages[..k]));
    }
  }

  /** The walk, started with nothing pending and nothing seen, accepts exactly the well-formed
      histories: unique declared calls, each answered exactly once directly after its message. */
  lemma WalkIsWellFormed(messages: seq<Message>, declared: set<ToolName>)
    ensures Accepts(Walk({}, {}), messages, declared) <==> WellFormed(messages, declared)
  {
    AcceptsMeans(Walk({}, {}), messages, declared);
    assert messages[0..] == messages && messages[..0] == [];
    IdsAt(AllCalls(messages));
  }
}

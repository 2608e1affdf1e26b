/**
 The format of the event streams that the decoder reads, and what a stream in it means.

 A stream is a run of blocks closed by an empty line. A line is ended by a line feed with any number of
 carriage returns before it; it is a `data` line, with or without a space before its text, or one that
 is skipped, a comment or another field. Every stream of bytes can be written so, up to its first line
 that is not UTF-8.
 */
module SseFormat {
  import opened Basics
  import opened SseDecoder

  datatype Written = Data(text: seq<byte>, spaced: bool, crs: nat) | Skipped(text: seq<byte>, crs: nat)

  datatype Block = Block(lines: seq<Written>, crs: nat)

  // The last line has no line feed yet, or it is not UTF-8 and something may follow.
  datatype Ending = Pending(bytes: seq<byte>) | IllFormed(text: seq<byte>, crs: nat, more: seq<byte>)

  datatype Stream = Stream(blocks: seq<Block>, lines: seq<Written>, ending: Ending)

  // ----- how it is written -----

  function Returns(n: nat): seq<byte> { if n == 0 then [] else Returns(n - 1) + [CR] }

  predicate PlainText(s: seq<byte>) { LF !in s && (s != [] ==> s[|s| - 1] != CR) }

  predicate WellWritten(l: Written) {
    && PlainText(l.text) && Utf8(l.text)
    && (l.Data? && !l.spaced && l.text != [] ==> l.text[0] != SPACE)
    && (l.Skipped? ==> l.text != [] && !(DATA <= l.text))
  }

  function Content(l: Written): seq<byte> {
    match l
    case Data(text, spaced, _) => DATA + (if spaced then [SPACE] else []) + text
    case Skipped(text, _) => text
  }

  function LineBytes(l: Written): seq<byte> { Content(l) + Returns(l.crs) + [LF] }

  function LinesBytes(lines: seq<Written>): seq<byte> {
    if lines == [] then [] else LineBytes(lines[0]) + LinesBytes(lines[1..])
  }

  function BlockBytes(b: Block): seq<byte> { LinesBytes(b.lines) + (Returns(b.crs) + [LF]) }

  function BlocksBytes(blocks: seq<Block>): seq<byte> {
    if blocks == [] then [] else BlockBytes(blocks[0]) + BlocksBytes(blocks[1..])
  }

  function EndingBytes(e: Ending): seq<byte> {
    match e
    case Pending(bytes) => bytes
    case IllFormed(text, n, more) => text + Returns(n) + [LF] + more
  }

  function Bytes(w: Stream): seq<byte> { BlocksBytes(w.blocks) + (LinesBytes(w.lines) + EndingBytes(w.ending)) }

  predicate AllWritten(lines: seq<Written>) {
    forall i | 0 <= i < |lines| :: WellWritten(lines[i])
  }

  predicate EndsWell(e: Ending) {
    match e
    case Pending(bytes) => LF !in bytes
    case IllFormed(text, _, _) => PlainText(text) && !Utf8(text)
  }

  ghost predicate InFormat(w: Stream) {
    && (forall i | 0 <= i < |w.blocks| :: AllWritten(w.blocks[i].lines)) && AllWritten(w.lines) && EndsWell(w.ending)
  }

  // ----- what it means -----

  function Texts(lines: seq<Written>): seq<seq<byte>> {
    if lines == [] then []
    else (if lines[0].Data? then [lines[0].text] else []) + Texts(lines[1..])
  }

  // The texts with one line feed between any two.
  function Joined(texts: seq<seq<byte>>): seq<byte>
    requires texts != []
    decreases |texts|
  {
    var last := |texts| - 1;
    if last == 0 then texts[0] else Joined(texts[..last]) + [LF] + texts[last]
  }

  // Blocks without data mean nothing.
  function Payloads(blocks: seq<Block>): seq<seq<byte>> {
    if blocks == [] then []
    else
      var texts := Texts(blocks[0].lines);
      (if texts == [] then [] else [Joined(texts)]) + Payloads(blocks[1..])
  }

  // The events of payloads, up to the first that comes after the terminal one or does not parse.
  datatype Meaning<V> = Meaning(events: seq<Event<V>>, fault: Option<Fault>, done: bool)

  function Meant<V>(parse: seq<byte> -> Option<V>, payloads: seq<seq<byte>>, done: bool): Meaning<V> {
    if payloads == [] then Meaning([], None, done)
    else if done then Meaning([], Some(AfterTerminal), done)
    else if payloads[0] == DONE then
      var rest := Meant(parse, payloads[1..], true);
      Meaning([Done] + rest.events, rest.fault, rest.done)
    else if parse(payloads[0]).None? then Meaning([], Some(BadPayload), done)
    else
      var rest := Meant(parse, payloads[1..], false);
      Meaning([Value(parse(payloads[0]).value)] + rest.events, rest.fault, rest.done)
  }

  // ----- one line -----

  lemma {:induction false} ReturnsStrip(text: seq<byte>, n: nat)
    requires PlainText(text)
    ensures StripCr(text + Returns(n)) == text && LF !in text + Returns(n)
    decreases n
  {
    if n == 0 {
      assert text + Returns(0) == text;
    } else {
      ReturnsStrip(text, n - 1);
      var all := text + Returns(n);
      assert all == text + Returns(n - 1) + [CR];
      assert all[..|all| - 1] == text + Returns(n - 1);
    }
  }

  lemma {:induction false} JoinedIsJoin(texts: seq<seq<byte>>)
    requires texts != []
    ensures Joined(texts) == Join(texts)
    decreases |texts|
  {
    var last := |texts| - 1;
    if last > 0 {
      JoinedIsJoin(texts[..last]);
      JoinSnoc(texts[..last], texts[last]);
      assert texts == texts[..last] + [texts[last]];
    }
  }

  lemma {:induction false} JoinSnoc(texts: seq<seq<byte>>, text: seq<byte>)
    requires texts != []
    ensures Join(texts + [text]) == Join(texts) + [LF] + text
    decreases |texts|
  {
    var all := texts + [text];
    assert all[1..] == texts[1..] + [text];
    if |texts| == 1 {
      assert Join(all[1..]) == text;
    } else {
      JoinSnoc(texts[1..], text);
      var rest := Join(texts[1..]);
      assert texts[0] + [LF] + (rest + [LF] + text) == texts[0] + [LF] + rest + [LF] + text;
    }
  }

  lemma ContentIsPlain(l: Written)
    requires WellWritten(l)
    ensures PlainText(Content(l)) && Utf8(Content(l))
    ensures l.Data? ==> DATA <= Content(l) && DropSpace(Content(l)[5..]) == l.text && Content(l)[0] != COLON
  {
    if l.Data? {
      var head := DATA + if l.spaced then [SPACE] else [];
      assert Content(l) == head + l.text;
      HeadIsAscii(head, l.spaced);
      Utf8AfterAscii(head, l.text);
      hide Utf8;
      AfterHead(head, l.text);
      assert Content(l)[5..] == (if l.spaced then [SPACE] else []) + l.text;
    }
  }

  lemma HeadIsAscii(head: seq<byte>, spaced: bool)
    requires head == DATA + if spaced then [SPACE] else []
    ensures forall i | 0 <= i < |head| :: head[i] < 0x80 && head[i] != LF && head[i] != CR
  {
    forall i | 0 <= i < |head|
      ensures head[i] < 0x80 && head[i] != LF && head[i] != CR
    {
      if i == 5 {
        assert head[i] == SPACE;
      } else {
        assert head[i] == DATA[i];
      }
    }
  }

  lemma AfterHead(head: seq<byte>, text: seq<byte>)
    requires head != [] && (forall i | 0 <= i < |head| :: head[i] != LF && head[i] != CR) && PlainText(text)
    ensures PlainText(head + text)
  {
  }

  lemma LineIsWritten<V>(parse: seq<byte> -> Option<V>, s: State, l: Written)
    requires WellWritten(l)
    ensures Line(parse, s, Content(l) + Returns(l.crs))
         == Result(s.(data := s.data + if l.Data? then [l.text] else []), [], None)
  {
    ContentIsPlain(l);
    ReturnsStrip(Content(l), l.crs);
    hide StripCr, Utf8, Content, Returns;
    assert s.data + [] == s.data;
    if l.Skipped? {
      SkippedContent(l);
    }
  }

  lemma SkippedContent(l: Written)
    requires WellWritten(l) && l.Skipped?
    ensures Content(l) != [] && !(DATA <= Content(l))
  {
  }

  lemma ReadWritten<V>(parse: seq<byte> -> Option<V>, s: State, events: seq<Event<V>>, l: Written, rest: seq<byte>)
    requires WellWritten(l) && s.buffer == []
    ensures ReadAll(parse, Result(s, events, None), LineBytes(l) + rest)
         == ReadAll(parse, Result(s.(data := s.data + if l.Data? then [l.text] else []), events, None), rest)
  {
    ContentIsPlain(l);
    ReturnsStrip(Content(l), l.crs);
    LineIsWritten(parse, s, l);
    hide StripCr, Utf8, Content, Returns, Line, ReadAll, WellWritten;
    ReadLine(parse, s, events, Content(l) + Returns(l.crs), rest);
    assert events + [] == events;
  }

  lemma {:induction false} ReadLines<V>(parse: seq<byte> -> Option<V>, s: State, events: seq<Event<V>>,
      lines: seq<Written>, rest: seq<byte>)
    requires AllWritten(lines) && s.buffer == []
    ensures ReadAll(parse, Result(s, events, None), LinesBytes(lines) + rest)
         == ReadAll(parse, Result(s.(data := s.data + Texts(lines)), events, None), rest)
    decreases |lines|
  {
    hide ReadAll, WellWritten, LineBytes;
    if lines == [] {
      assert LinesBytes(lines) + rest == rest && s.data + Texts(lines) == s.data;
    } else {
      var l, more := lines[0], LinesBytes(lines[1..]) + rest;
      var one := if l.Data? then [l.text] else [];
      Regroup(LineBytes(l), LinesBytes(lines[1..]), rest);
      ReadWritten(parse, s, events, l, more);
      ReadLines(parse, s.(data := s.data + one), events, lines[1..], rest);
      Regroup(s.data, one, Texts(lines[1..]));
    }
  }

  // ----- one block -----

  // What the end of a block does with the texts it holds.
  function Closed<V>(parse: seq<byte> -> Option<V>, texts: seq<seq<byte>>, done: bool): Meaning<V> {
    Meant(parse, if texts == [] then [] else [Joined(texts)], done)
  }

  lemma OneMeant<V>(parse: seq<byte> -> Option<V>, payload: seq<byte>, done: bool)
    ensures Meant(parse, [payload], done) ==
      if done then Meaning([], Some(AfterTerminal), done)
      else if payload == DONE then Meaning([Done], None, true)
      else if parse(payload).None? then Meaning([], Some(BadPayload), done)
      else Meaning([Value(parse(payload).value)], None, false)
  {
    assert [payload][1..] == [];
  }

  lemma LineCloses<V>(parse: seq<byte> -> Option<V>, s: State, n: nat)
    ensures
      var m, r := Closed(parse, s.data, s.done), Line(parse, s, Returns(n));
      r == Result(s.(data := [], done := m.done), m.events, m.fault)
  {
    ReturnsStrip([], n);
    assert [] + Returns(n) == Returns(n);
    hide StripCr, Returns, Joined, Join;
    if s.data == [] {
      assert s == s.(data := [], done := s.done);
    } else {
      JoinedIsJoin(s.data);
      var payload := Joined(s.data);
      OneMeant(parse, payload, s.done);
    }
  }

  lemma ReadClose<V>(parse: seq<byte> -> Option<V>, s: State, events: seq<Event<V>>, n: nat, rest: seq<byte>)
    requires s.buffer == []
    ensures
      var m := Closed(parse, s.data, s.done);
      ReadAll(parse, Result(s, events, None), Returns(n) + [LF] + rest)
      == ReadAll(parse, Result(s.(data := [], done := m.done), events + m.events, m.fault), rest)
  {
    LineCloses(parse, s, n);
    ReturnsStrip([], n);
    assert [] + Returns(n) == Returns(n);
    hide StripCr, Returns, Line, ReadAll, Closed;
    ReadLine(parse, s, events, Returns(n), rest);
  }

  lemma ReadBlock<V>(parse: seq<byte> -> Option<V>, s: State, events: seq<Event<V>>, b: Block, rest: seq<byte>)
    requires AllWritten(b.lines) && s.buffer == [] && s.data == []
    ensures
      var m := Closed(parse, Texts(b.lines), s.done);
      ReadAll(parse, Result(s, events, None), BlockBytes(b) + rest)
      == ReadAll(parse, Result(s.(done := m.done), events + m.events, m.fault), rest)
  {
    hide ReadAll, AllWritten, LinesBytes, Returns, Closed, Texts;
    var end := Returns(b.crs) + [LF];
    Regroup(LinesBytes(b.lines), end, rest);
    ReadLines(parse, s, events, b.lines, end + rest);
    assert [] + Texts(b.lines) == Texts(b.lines);
    ReadClose(parse, s.(data := Texts(b.lines)), events, b.crs, rest);
  }

  // ----- all blocks -----

  lemma MeantStep<V>(parse: seq<byte> -> Option<V>, first: seq<seq<byte>>, payloads: seq<seq<byte>>, done: bool)
    requires |first| <= 1
    ensures
      var one, all := Meant(parse, first, done), Meant(parse, first + payloads, done);
      && (one.fault.Some? ==> all.events == one.events && all.fault == one.fault)
      && (one.fault.None? ==>
            var rest := Meant(parse, payloads, one.done);
            all.events == one.events + rest.events && all.fault == rest.fault && all.done == rest.done)
  {
    hide Meant;
    if first == [] {
      NothingMeant(parse, done);
      assert first + payloads == payloads;
      assert [] + Meant(parse, payloads, done).events == Meant(parse, payloads, done).events;
    } else {
      assert first == [first[0]];
      OneMeant(parse, first[0], done);
      MeantCons(parse, first[0], payloads, done);
    }
  }

  lemma MeantCons<V>(parse: seq<byte> -> Option<V>, payload: seq<byte>, rest: seq<seq<byte>>, done: bool)
    ensures
      var all, later := Meant(parse, [payload] + rest, done), Meant(parse, rest, payload == DONE);
      if done then all == Meaning([], Some(AfterTerminal), done)
      else if payload == DONE then all == Meaning([Done] + later.events, later.fault, later.done)
      else if parse(payload).None? then all == Meaning([], Some(BadPayload), done)
      else all == Meaning([Value(parse(payload).value)] + later.events, later.fault, later.done)
  {
    var all := [payload] + rest;
    assert all[0] == payload && all[1..] == rest;
  }

  lemma {:induction false} ReadBlocks<V>(parse: seq<byte> -> Option<V>, s: State, events: seq<Event<V>>,
      blocks: seq<Block>, rest: seq<byte>)
    requires (forall i | 0 <= i < |blocks| :: AllWritten(blocks[i].lines)) && s.buffer == [] && s.data == []
    ensures
      var m, r := Meant(parse, Payloads(blocks), s.done),
          ReadAll(parse, Result(s, events, None), BlocksBytes(blocks) + rest);
      && (m.fault.None? ==> r == ReadAll(parse, Result(s.(done := m.done), events + m.events, None), rest))
      && (m.fault.Some? ==> r.events == events + m.events && r.fault == m.fault)
    decreases |blocks|
  {
    hide ReadAll, AllWritten, BlockBytes, Texts, Joined, Meant;
    if blocks == [] {
      NothingMeant(parse, s.done);
      assert BlocksBytes(blocks) + rest == rest && events + [] == events;
    } else {
      var b, more := blocks[0], BlocksBytes(blocks[1..]) + rest;
      var texts := Texts(b.lines);
      var first, one := if texts == [] then [] else [Joined(texts)], Closed(parse, texts, s.done);
      Regroup(BlockBytes(b), BlocksBytes(blocks[1..]), rest);
      ReadBlock(parse, s, events, b, more);
      MeantStep(parse, first, Payloads(blocks[1..]), s.done);
      if one.fault.None? {
        ReadBlocks(parse, s.(done := one.done), events + one.events, blocks[1..], rest);
        Regroup(events, one.events, Meant(parse, Payloads(blocks[1..]), one.done).events);
      } else {
        ReadStuck(parse, Result(s.(done := one.done), events + one.events, one.fault), more);
      }
    }
  }

  lemma NothingMeant<V>(parse: seq<byte> -> Option<V>, done: bool)
    ensures Meant(parse, [], done) == Meaning([], None, done)
  {
  }

  // ----- a whole stream -----

  // What remains of a stream after its blocks.
  lemma ReadEnding<V>(parse: seq<byte> -> Option<V>, s: State, events: seq<Event<V>>, e: Ending)
    requires EndsWell(e) && s.buffer == []
    ensures
      var r := ReadAll(parse, Result(s, events, None), EndingBytes(e));
      && r.events == events
      && r.fault == (if e.IllFormed? then Some(NotUtf8) else None)
      && (e.Pending? ==> r.state == s.(buffer := e.bytes))
  {
    hide ReadAll, StripCr, Utf8, Returns;
    match e {
      case Pending(bytes) =>
        ReadPlain(parse, Result(s, events, None), bytes);
        assert [] + bytes == bytes;
      case IllFormed(text, n, more) =>
        ReturnsStrip(text, n);
        ReadLine(parse, s, events, text + Returns(n), more);
        assert Line(parse, s, text + Returns(n)) == Result(s, [], Some(NotUtf8));
        assert events + [] == events;
        ReadStuck(parse, Result(s, events, Some(NotUtf8)), more);
    }
  }

  // What a whole stream means to the decoder.
  ghost predicate Decoded<V>(parse: seq<byte> -> Option<V>, w: Stream, r: Result<V>) {
    var m := Meant(parse, Payloads(w.blocks), false);
    && r.events == m.events
    && r.fault == (if m.fault.None? && w.ending.IllFormed? then Some(NotUtf8) else m.fault)
    && (r.fault.None? ==>
          r.state.done == m.done && r.state.data == Texts(w.lines) && r.state.buffer == w.ending.bytes)
  }

  lemma ReadStream<V>(parse: seq<byte> -> Option<V>, s: State, w: Stream)
    requires InFormat(w) && s == START.(size := s.size)
    ensures Decoded(parse, w, ReadAll(parse, Result(s, [], None), Bytes(w)))
  {
    hide ReadAll, AllWritten, BlocksBytes, LinesBytes, EndingBytes, Payloads, Texts, Meant;
    var m := Meant(parse, Payloads(w.blocks), false);
    var rest := LinesBytes(w.lines) + EndingBytes(w.ending);
    ReadBlocks(parse, s, [], w.blocks, rest);
    assert [] + m.events == m.events;
    if m.fault.None? {
      var after := s.(done := m.done);
      ReadLines(parse, after, m.events, w.lines, EndingBytes(w.ending));
      assert [] + Texts(w.lines) == Texts(w.lines);
      ReadEnding(parse, after.(data := Texts(w.lines)), m.events, w.ending);
    }
  }

  /** Decoding is understanding the format: however a stream is cut into chunks, its events are the
      payloads of its blocks up to the first fault, each the texts of the block's data lines with one line
      feed between them; and it can be finished exactly if the terminal event has come, no data is
      pending, and only white space follows. */
  lemma DecodesFormat<V>(parse: seq<byte> -> Option<V>, w: Stream, chunks: seq<seq<byte>>)
    requires InFormat(w) && Flatten(chunks) == Bytes(w) && LinesFit(Bytes(w)) && |Bytes(w)| <= MAX_STREAM
    ensures
      var r, m := FeedAll(parse, START, chunks), Meant(parse, Payloads(w.blocks), false);
      && Decoded(parse, w, r)
      && (r.fault.None? ==>
            (Finished(r.state) <==>
              m.done && Texts(w.lines) == [] && forall b | b in w.ending.bytes :: b == 32 || 9 <= b <= 13))
  {
    hide ReadAll, Meant, Payloads, Texts, LinesFit, FeedAll, InFormat, Bytes;
    var all := Bytes(w);
    ReadStream(parse, START.(size := |all|), w);
    var whole := ReadAll(parse, Result(START.(size := |all|), [], None), all);
    assert [] + all == all && START.buffer + all == all;
    PrefixFits(all, all);
    ReadLeaves(parse, Result(START.(size := |all|), [], None), all);
    assert Feed(parse, START, all) == whole;
    WholeIs(parse, START, all);
    assert Flatten([all]) == all by {
      OneChunk(all);
    }
    WholeDecides(parse, START, chunks, [all]);
  }

  lemma OneChunk(all: seq<byte>)
    ensures Flatten([all]) == all
  {
    assert [all][1..] == [];
    assert all + [] == all;
  }

  lemma WholeIs<V>(parse: seq<byte> -> Option<V>, s: State, all: seq<byte>)
    ensures FeedAll(parse, s, [all]) == Feed(parse, s, all)
  {
    hide Feed;
    var first := Feed(parse, s, all);
    assert [all][1..] == [];
    assert first.events + [] == first.events;
  }

  // ----- payloads in any form -----

  lemma {:induction false} GoodMeant<V>(parse: seq<byte> -> Option<V>, payloads: seq<seq<byte>>)
    requires forall i | 0 <= i < |payloads| :: payloads[i] != DONE && parse(payloads[i]).Some?
    ensures Meant(parse, payloads + [DONE], false) == Meaning(Values(parse, payloads) + [Done], None, true)
    decreases |payloads|
  {
    var all := payloads + [DONE];
    if payloads == [] {
      OneMeant(parse, DONE, false);
      assert all == [DONE];
    } else {
      assert all[1..] == payloads[1..] + [DONE] && all[0] == payloads[0];
      GoodMeant(parse, payloads[1..]);
      var one: seq<Event<V>> := [Value(parse(payloads[0]).value)];
      Regroup(one, Values(parse, payloads[1..]), [Done]);
    }
  }

  /** Payloads that parse, written in any form the format allows and closed by the terminal one, are read
      back as they are, however the stream is cut; only the size of the stream can prevent it. */
  lemma AnyFormRoundTrip<V>(parse: seq<byte> -> Option<V>, payloads: seq<seq<byte>>, w: Stream,
      chunks: seq<seq<byte>>)
    requires forall i | 0 <= i < |payloads| :: payloads[i] != DONE && parse(payloads[i]).Some?
    requires InFormat(w) && Payloads(w.blocks) == payloads + [DONE] && Texts(w.lines) == []
    requires w.ending.Pending? && forall b | b in w.ending.bytes :: Whitespace(b)
    requires Flatten(chunks) == Bytes(w) && LinesFit(Bytes(w))
    ensures
      var r := FeedAll(parse, START, chunks);
      && (r.fault.None? <==> |Bytes(w)| <= 1_048_576)
      && (r.fault.None? ==> r.events == Values(parse, payloads) + [Done] && Finished(r.state))
  {
    hide Meant, Payloads, Texts, LinesFit, FeedAll, InFormat, Bytes, Values;
    GoodMeant(parse, payloads);
    if |Bytes(w)| <= MAX_STREAM {
      DecodesFormat(parse, w, chunks);
    } else {
      TooLong(parse, chunks);
    }
  }

  lemma TooLong<V>(parse: seq<byte> -> Option<V>, chunks: seq<seq<byte>>)
    requires |Flatten(chunks)| > MAX_STREAM
    ensures FeedAll(parse, START, chunks).fault.Some?
  {
    hide FeedAll, ReadAll, BoundariesFit;
    Chunking(parse, START, chunks);
  }

  // ----- every stream has this format -----

  lemma {:induction false} FirstFeed(bytes: seq<byte>) returns (k: nat)
    requires LF in bytes
    ensures k < |bytes| && bytes[k] == LF && LF !in bytes[..k]
    decreases |bytes|
  {
    if bytes[0] == LF {
      k := 0;
    } else {
      var later := FirstFeed(bytes[1..]);
      k := later + 1;
      assert bytes[..k] == [bytes[0]] + bytes[1..][..later];
    }
  }

  lemma {:induction false} TrailingReturns(raw: seq<byte>) returns (text: seq<byte>, n: nat)
    requires LF !in raw
    ensures raw == text + Returns(n) && PlainText(text)
    decreases |raw|
  {
    if raw != [] && raw[|raw| - 1] == CR {
      var front := raw[..|raw| - 1];
      var m;
      text, m := TrailingReturns(front);
      n := m + 1;
      assert raw == front + [CR];
    } else {
      text, n := raw, 0;
      assert raw == raw + Returns(0);
    }
  }

  lemma {:induction false} Utf8WithoutAscii(ascii: seq<byte>, s: seq<byte>)
    requires (forall i | 0 <= i < |ascii| :: ascii[i] < 0x80) && Utf8(ascii + s)
    ensures Utf8(s)
    decreases |ascii|
  {
    if ascii == [] {
      assert ascii + s == s;
    } else {
      assert (ascii + s)[1..] == ascii[1..] + s;
      Utf8WithoutAscii(ascii[1..], s);
    }
  }

  // A line that is not empty and is UTF-8.
  lemma LineOf(text: seq<byte>, n: nat) returns (l: Written)
    requires text != [] && PlainText(text) && Utf8(text)
    ensures WellWritten(l) && LineBytes(l) == text + Returns(n) + [LF]
  {
    hide Returns;
    if DATA <= text {
      var spaced := |text| > 5 && text[5] == SPACE;
      var head := DATA + if spaced then [SPACE] else [];
      var rest := text[|head|..];
      assert text == head + rest;
      HeadIsAscii(head, spaced);
      Utf8WithoutAscii(head, rest);
      l := Data(rest, spaced, n);
      hide Utf8;
      assert Content(l) == text;
      assert rest != [] ==> rest[|rest| - 1] == text[|text| - 1] && rest[0] == text[|head|];
    } else {
      l := Skipped(text, n);
    }
  }

  /** Every stream of bytes has this format, up to its first line that is not UTF-8. */
  lemma {:induction false} EveryStream(bytes: seq<byte>) returns (w: Stream)
    ensures InFormat(w) && Bytes(w) == bytes
    decreases |bytes|
  {
    if LF !in bytes {
      w := Stream([], [], Pending(bytes));
      assert [] + ([] + bytes) == bytes;
    } else {
      var k := FirstFeed(bytes);
      var raw, rest := bytes[..k], bytes[k + 1..];
      assert bytes == raw + [LF] + rest;
      var text, n := TrailingReturns(raw);
      if !Utf8(text) {
        w := Stream([], [], IllFormed(text, n, rest));
        assert [] + ([] + bytes) == bytes;
      } else {
        var later := EveryStream(rest);
        if text == [] {
          assert raw == Returns(n);
          w := WithBlank(n, later);
        } else {
          var l := LineOf(text, n);
          w := WithLine(l, later);
        }
        assert Bytes(w) == raw + [LF] + rest;
      }
    }
  }

  lemma WithBlank(n: nat, later: Stream) returns (w: Stream)
    requires InFormat(later)
    ensures InFormat(w) && Bytes(w) == Returns(n) + [LF] + Bytes(later)
  {
    hide Returns, LinesBytes, EndingBytes, EndsWell;
    var b := Block([], n);
    w := later.(blocks := [b] + later.blocks);
    NoLines();
    assert w.blocks[1..] == later.blocks;
    Regroup(BlockBytes(b), BlocksBytes(later.blocks), LinesBytes(later.lines) + EndingBytes(later.ending));
    assert [] + (Returns(n) + [LF]) == Returns(n) + [LF];
  }

  lemma NoLines()
    ensures LinesBytes([]) == [] && AllWritten([])
  {
  }

  lemma LinesCons(l: Written, lines: seq<Written>)
    ensures LinesBytes([l] + lines) == LineBytes(l) + LinesBytes(lines)
    ensures WellWritten(l) && AllWritten(lines) ==> AllWritten([l] + lines)
  {
    hide LineBytes, WellWritten;
    assert ([l] + lines)[1..] == lines;
  }

  lemma WithLine(l: Written, later: Stream) returns (w: Stream)
    requires WellWritten(l) && InFormat(later)
    ensures InFormat(w) && Bytes(w) == LineBytes(l) + Bytes(later)
  {
    hide Returns, LinesBytes, EndingBytes, LineBytes, WellWritten, AllWritten, EndsWell;
    if later.blocks == [] {
      w := later.(lines := [l] + later.lines);
      LinesCons(l, later.lines);
      Regroup(LineBytes(l), LinesBytes(later.lines), EndingBytes(later.ending));
      assert forall rest: seq<byte> :: [] + rest == rest;
    } else {
      var b, blocks := later.blocks[0], later.blocks[1..];
      var b' := b.(lines := [l] + b.lines);
      w := later.(blocks := [b'] + blocks);
      assert w.blocks[1..] == blocks;
      LinesCons(l, b.lines);
      var tail := LinesBytes(later.lines) + EndingBytes(later.ending);
      Regroup(LineBytes(l), LinesBytes(b.lines), Returns(b.crs) + [LF]);
      Regroup(LineBytes(l), BlockBytes(b), BlocksBytes(blocks));
      Regroup(LineBytes(l), BlocksBytes(later.blocks), tail);
    }
  }

  // ----- UTF-8 -----

  // A code point that is no surrogate.
  type Scalar = c: int | 0 <= c < 0xD800 || 0xE000 <= c <= 0x10FFFF

  // Its encoding, by the table of RFC 3629, section 3.
  function Encoded(c: Scalar): seq<byte> {
    if c < 0x80 then [c as byte]
    else if c < 0x800 then [(0xC0 + c / 64) as byte, Sixth(c)]
    else if c < 0x10000 then [(0xE0 + c / 4096) as byte, Sixth(c / 64), Sixth(c)]
    else [(0xF0 + c / 262144) as byte, Sixth(c / 4096), Sixth(c / 64), Sixth(c)]
  }

  // The lowest six bits.
  function Sixth(c: nat): byte { (0x80 + c % 64) as byte }

  function Encode(cs: seq<Scalar>): seq<byte> {
    if cs == [] then [] else Encoded(cs[0]) + Encode(cs[1..])
  }

  lemma EncodedIsUtf8(c: Scalar, rest: seq<byte>)
    ensures Utf8(Encoded(c) + rest) <==> Utf8(rest)
  {
    var s := Encoded(c) + rest;
    if c < 0x80 {
      assert s[1..] == rest;
    } else if c < 0x800 {
      assert s[2..] == rest;
    } else if c < 0x10000 {
      assert s[3..] == rest;
      ThreeBytes(c);
    } else {
      assert s[4..] == rest;
      FourBytes(c);
    }
  }

  lemma ThreeBytes(c: Scalar)
    requires 0x800 <= c < 0x10000
    ensures
      var a, b := 0xE0 + c / 4096, 0x80 + c / 64 % 64;
      0xE0 <= a <= 0xEF && (if a == 0xE0 then 0xA0 else 0x80) <= b <= (if a == 0xED then 0x9F else 0xBF)
  {
  }

  lemma FourBytes(c: Scalar)
    requires 0x10000 <= c
    ensures
      var a, b := 0xF0 + c / 262144, 0x80 + c / 4096 % 64;
      0xF0 <= a <= 0xF4 && (if a == 0xF0 then 0x90 else 0x80) <= b <= (if a == 0xF4 then 0x8F else 0xBF)
  {
  }

  lemma OfTwo(a: byte, b: byte) returns (c: Scalar)
    requires 0xC2 <= a <= 0xDF && Tail(b)
    ensures Encoded(c) == [a, b]
  {
    LowSix(a as int - 0xC0, b);
    c := (a as int - 0xC0) * 64 + Low(b);
  }

  lemma OfThree(a: byte, b: byte, d: byte) returns (c: Scalar)
    requires 0xE0 <= a <= 0xEF && Tail(d)
    requires (if a == 0xE0 then 0xA0 else 0x80) <= b <= (if a == 0xED then 0x9F else 0xBF)
    ensures Encoded(c) == [a, b, d]
  {
    var upper := (a as int - 0xE0) * 64 + Low(b);
    LowSix(a as int - 0xE0, b);
    LowSix(upper, d);
    c := upper * 64 + Low(d);
    assert c / 4096 == c / 64 / 64;
  }

  lemma OfFour(a: byte, b: byte, d: byte, e: byte) returns (c: Scalar)
    requires 0xF0 <= a <= 0xF4 && Tail(d) && Tail(e)
    requires (if a == 0xF0 then 0x90 else 0x80) <= b <= (if a == 0xF4 then 0x8F else 0xBF)
    ensures Encoded(c) == [a, b, d, e]
  {
    var top := (a as int - 0xF0) * 64 + Low(b);
    var upper := top * 64 + Low(d);
    LowSix(a as int - 0xF0, b);
    LowSix(top, d);
    LowSix(upper, e);
    c := upper * 64 + Low(e);
    assert c / 4096 == c / 64 / 64 && c / 262144 == c / 64 / 64 / 64;
  }

  // The first code point of a text.
  lemma FirstScalar(s: seq<byte>) returns (c: Scalar, rest: seq<byte>)
    requires s != [] && Utf8(s)
    ensures s == Encoded(c) + rest && Utf8(rest) && |rest| < |s|
  {
    hide Encoded;
    if s[0] < 0x80 {
      c, rest := s[0] as int, s[1..];
      OfOne(s[0]);
      assert s == [s[0]] + rest;
    } else if s[0] <= 0xDF {
      c := OfTwo(s[0], s[1]);
      rest := s[2..];
      assert s == [s[0], s[1]] + rest;
    } else if s[0] <= 0xEF {
      c := OfThree(s[0], s[1], s[2]);
      rest := s[3..];
      assert s == [s[0], s[1], s[2]] + rest;
    } else {
      c := OfFour(s[0], s[1], s[2], s[3]);
      rest := s[4..];
      assert s == [s[0], s[1], s[2], s[3]] + rest;
    }
  }

  lemma OfOne(a: byte)
    requires a < 0x80
    ensures Encoded(a as int) == [a]
  {
  }

  function Low(b: byte): int { b as int - 0x80 }

  lemma LowSix(upper: nat, b: byte)
    requires Tail(b)
    ensures
      var c := upper * 64 + Low(b);
      c >= 0 && c / 64 == upper && Sixth(c) == b
  {
  }

  /** The lines that are read are exactly the encodings of code points: a sequence of bytes passes the check
      if and only if it encodes some text. */
  lemma {:induction false} Utf8Exactly(s: seq<byte>)
    ensures Utf8(s) <==> exists cs: seq<Scalar> :: Encode(cs) == s
    decreases |s|
  {
    if Utf8(s) {
      var cs := DecodedText(s);
    }
    if cs: seq<Scalar> :| Encode(cs) == s {
      EncodeIsUtf8(cs);
    }
  }

  lemma {:induction false} EncodeIsUtf8(cs: seq<Scalar>)
    ensures Utf8(Encode(cs))
    decreases |cs|
  {
    if cs != [] {
      EncodeIsUtf8(cs[1..]);
      EncodedIsUtf8(cs[0], Encode(cs[1..]));
    }
  }

  lemma {:induction false} DecodedText(s: seq<byte>) returns (cs: seq<Scalar>)
    requires Utf8(s)
    ensures Encode(cs) == s
    decreases |s|
  {
    cs := [];
    if s != [] {
      var c, rest := FirstScalar(s);
      var more := DecodedText(rest);
      cs := [c] + more;
      assert cs[0] == c && cs[1..] == more;
    }
  }
}

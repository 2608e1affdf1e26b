/**
 The incremental decoder of upstream event streams, and the encoder on the client side.

 The decoder buffers bytes, cuts the buffer at every line feed, and turns runs of `data` lines
 closed by an empty line into events. It checks two sizes: the stream as a whole before a chunk
 is looked at, and the unfinished line left over after a chunk has been cut. The second check
 therefore depends on where the chunks end; the lemmas below say exactly how.

 A decoded line is represented by its UTF-8 bytes: every test the decoder makes on a line
 (an empty line, a leading ':', the prefix "data:", one leading space) only looks at ASCII
 characters, whose encoding is a single byte. JSON parsing is a parameter, which answers None
 when the source raises: malformed JSON, a value that is no object, an object with an error.
 */
module SseDecoder {
  import opened Basics

  newtype byte = x: int | 0 <= x < 256

  const LF: byte := 10
  const CR: byte := 13
  const SPACE: byte := 32
  const COLON: byte := 58
  const DATA: seq<byte> := [100, 97, 116, 97, 58]
  const DONE: seq<byte> := [91, 68, 79, 78, 69, 93]
  const MAX_STREAM: nat := 1048576
  const MAX_LINE: nat := 65536

  datatype Event<V> = Done | Value(value: V)

  datatype Fault = StreamBound | LineBound | NotUtf8 | AfterTerminal | BadPayload

  datatype State = State(buffer: seq<byte>, data: seq<seq<byte>>, size: nat, done: bool)

  // What one call produced: the state it left, the events it yielded, the error it ended with.
  datatype Result<V> = Result(state: State, events: seq<Event<V>>, fault: Option<Fault>)

  // Well-formed UTF-8, by the byte table of RFC 3629, section 4.
  predicate Utf8(s: seq<byte>) {
    if s == [] then true
    else if s[0] < 0x80 then Utf8(s[1..])
    else if 0xC2 <= s[0] <= 0xDF then |s| >= 2 && Tail(s[1]) && Utf8(s[2..])
    else if 0xE0 <= s[0] <= 0xEF then
      && |s| >= 3
      && (if s[0] == 0xE0 then 0xA0 else 0x80) <= s[1] <= (if s[0] == 0xED then 0x9F else 0xBF)
      && Tail(s[2])
      && Utf8(s[3..])
    else if 0xF0 <= s[0] <= 0xF4 then
      && |s| >= 4
      && (if s[0] == 0xF0 then 0x90 else 0x80) <= s[1] <= (if s[0] == 0xF4 then 0x8F else 0xBF)
      && Tail(s[2])
      && Tail(s[3])
      && Utf8(s[4..])
    else false
  }

  predicate Tail(b: byte) { 0x80 <= b <= 0xBF }

  function StripCr(s: seq<byte>): seq<byte> {
    if s != [] && s[|s| - 1] == CR then StripCr(s[..|s| - 1]) else s
  }

  function Join(lines: seq<seq<byte>>): seq<byte> {
    if lines == [] then []
    else if |lines| == 1 then lines[0]
    else lines[0] + [LF] + Join(lines[1..])
  }

  function DropSpace(s: seq<byte>): seq<byte> {
    if s != [] && s[0] == SPACE then s[1..] else s
  }

  // One complete line, without its line feed, read in a state whose buffer is already cut.
  function Line<V>(parse: seq<byte> -> Option<V>, s: State, raw: seq<byte>): Result<V> {
    var line := StripCr(raw);
    if !Utf8(line) then Result(s, [], Some(NotUtf8))
    else if line != [] && line[0] == COLON then Result(s, [], None)
    else if DATA <= line then Result(s.(data := s.data + [DropSpace(line[5..])]), [], None)
    else if line == [] && s.data != [] then
      var payload := Join(s.data);
      var s' := s.(data := []);
      if s.done then Result(s', [], Some(AfterTerminal))
      else if payload == DONE then Result(s'.(done := true), [Done], None)
      else
        match parse(payload)
        case Some(v) => Result(s', [Value(v)], None)
        case None => Result(s', [], Some(BadPayload))
    else Result(s, [], None)
  }

  function After<V>(events: seq<Event<V>>, r: Result<V>): Result<V> {
    r.(events := events + r.events)
  }

  // The reference decoder reads one byte at a time. After an error nothing more is interpreted:
  // the remaining bytes stay in the buffer.
  function Read<V>(parse: seq<byte> -> Option<V>, r: Result<V>, b: byte): Result<V> {
    if r.fault.None? && b == LF then
      var next := Line(parse, r.state.(buffer := []), r.state.buffer);
      After(r.events, next)
    else
      r.(state := r.state.(buffer := r.state.buffer + [b]))
  }

  function ReadAll<V>(parse: seq<byte> -> Option<V>, r: Result<V>, bytes: seq<byte>): Result<V>
    decreases bytes
  {
    if bytes == [] then r else ReadAll(parse, Read(parse, r, bytes[0]), bytes[1..])
  }

  // One call of iter_feed, run to its end or to its first error.
  function Feed<V>(parse: seq<byte> -> Option<V>, s: State, chunk: seq<byte>): Result<V> {
    var sized := s.(size := s.size + |chunk|);
    if sized.size > MAX_STREAM then Result(sized, [], Some(StreamBound))
    else Bounded(ReadAll(parse, Result(sized, [], None), chunk))
  }

  function Bounded<V>(r: Result<V>): Result<V> {
    if r.fault.None? && |r.state.buffer| > MAX_LINE then r.(fault := Some(LineBound)) else r
  }

  // A whole stream, chunk after chunk, up to the first error.
  function FeedAll<V>(parse: seq<byte> -> Option<V>, s: State, chunks: seq<seq<byte>>): Result<V>
    decreases chunks
  {
    if chunks == [] then Result(s, [], None)
    else
      var first := Feed(parse, s, chunks[0]);
      if first.fault.Some? then first
      else
        var rest := FeedAll(parse, first.state, chunks[1..]);
        After(first.events, rest)
  }

  // What feeding leaves behind when it succeeds.
  predicate Settled(s: State) {
    LF !in s.buffer && |s.buffer| <= MAX_LINE && s.size <= MAX_STREAM
  }

  const START := State([], [], 0, false)

  // The unfinished line at the end of a text.
  function Unfinished(s: seq<byte>): seq<byte> {
    if LF in s then Unfinished(s[1..]) else s
  }

  predicate Whitespace(b: byte) { b == SPACE || 9 <= b <= 13 }

  // The source's finish: the stream ended after the terminal event and nothing is pending.
  predicate Finished(s: State) {
    && (forall b | b in s.buffer :: Whitespace(b))
    && s.data == []
    && s.done
  }

  class Decoder<V> {
    const parse: seq<byte> -> Option<V>
    var buffer: seq<byte>
    var data: seq<seq<byte>>
    var size: nat
    var done: bool

    constructor (parse: seq<byte> -> Option<V>)
      ensures this.parse == parse && View() == START
    {
      this.parse := parse;
      buffer, data, size, done := [], [], 0, false;
    }

    ghost function View(): State
      reads this
    {
      State(buffer, data, size, done)
    }

    method IterFeed(chunk: seq<byte>) returns (events: seq<Event<V>>, fault: Option<Fault>)
      requires LF !in buffer
      modifies this
      ensures Result(View(), events, fault) == Feed(parse, old(View()), chunk)
      ensures fault.None? ==> LF !in buffer
    {
      hide Line, Read, ReadAll, Utf8;
      events, fault := [], None;
      size := size + |chunk|;
      if size > MAX_STREAM {
        return [], Some(StreamBound);
      }
      ghost var whole := ReadAll(parse, Result(View(), [], None), chunk);
      assert Feed(parse, old(View()), chunk) == Bounded(whole);
      ReadBuffered(parse, View(), chunk);
      buffer := buffer + chunk;
      while LF in buffer
        invariant fault.None?
        invariant whole == ReadAll(parse, Result(View().(buffer := []), events, None), buffer)
        decreases |buffer|
      {
        var cut := FindLf(buffer);
        var raw, rest := buffer[..cut], buffer[cut + 1..];
        assert buffer == raw + [LF] + rest;
        ReadLine(parse, View().(buffer := []), events, raw, rest);
        buffer := rest;
        var more;
        more, fault := TakeLine(raw);
        events := events + more;
        if fault.Some? {
          ReadStuck(parse, Result(View().(buffer := []), events, fault), rest);
          assert [] + rest == rest;
          assert Result(View(), events, fault) == whole;
          return;
        }
      }
      ReadPlain(parse, Result(View().(buffer := []), events, None), buffer);
      assert [] + buffer == buffer;
      assert Result(View(), events, None) == whole;
      if |buffer| > MAX_LINE {
        fault := Some(LineBound);
      }
    }

    // The body of the loop over complete lines.
    method TakeLine(raw: seq<byte>) returns (events: seq<Event<V>>, fault: Option<Fault>)
      modifies this`data, this`done
      ensures
        Result(View().(buffer := []), events, fault) == Line(parse, old(View()).(buffer := []), raw)
    {
      events, fault := [], None;
      var line := StripCr(raw);
      if !Utf8(line) {
        fault := Some(NotUtf8);
      } else if line != [] && line[0] == COLON {
        return;
      } else if DATA <= line {
        data := data + [DropSpace(line[5..])];
      } else if line == [] && data != [] {
        var payload := Join(data);
        data := [];
        if done {
          fault := Some(AfterTerminal);
        } else if payload == DONE {
          done := true;
          events := [Done];
        } else {
          match parse(payload) {
            case Some(v) => events := [Value(v)];
            case None => fault := Some(BadPayload);
          }
        }
      }
    }

    method Finish() returns (ok: bool)
      ensures ok <==> Finished(View())
    {
      var blank := true;
      for i := 0 to |buffer|
        invariant blank <==> forall j | 0 <= j < i :: Whitespace(buffer[j])
      {
        blank := blank && Whitespace(buffer[i]);
      }
      assert blank <==> forall b | b in buffer :: Whitespace(b);
      ok := blank && data == [] && done;
    }
  }

  method FindLf(s: seq<byte>) returns (k: nat)
    requires LF in s
    ensures k < |s| && s[k] == LF && LF !in s[..k]
  {
    k := 0;
    while s[k] != LF
      invariant k < |s| && LF !in s[..k] && LF in s[k..]
      decreases |s| - k
    {
      k := k + 1;
    }
  }

  // ----- the byte reader -----

  lemma ReadAllAppend<V>(parse: seq<byte> -> Option<V>, r: Result<V>, xs: seq<byte>, ys: seq<byte>)
    ensures ReadAll(parse, r, xs + ys) == ReadAll(parse, ReadAll(parse, r, xs), ys)
    decreases xs
  {
    if xs == [] {
      assert xs + ys == ys;
    } else {
      assert (xs + ys)[1..] == xs[1..] + ys;
      ReadAllAppend(parse, Read(parse, r, xs[0]), xs[1..], ys);
    }
  }

  // Bytes other than a line feed only lengthen the unfinished line.
  lemma ReadPlain<V>(parse: seq<byte> -> Option<V>, r: Result<V>, xs: seq<byte>)
    requires LF !in xs
    ensures ReadAll(parse, r, xs) == r.(state := r.state.(buffer := r.state.buffer + xs))
    decreases xs
  {
    if xs == [] {
      assert r.state.buffer + xs == r.state.buffer;
    } else {
      ReadPlain(parse, Read(parse, r, xs[0]), xs[1..]);
      assert r.state.buffer + [xs[0]] + xs[1..] == r.state.buffer + xs;
    }
  }

  lemma ReadStuck<V>(parse: seq<byte> -> Option<V>, r: Result<V>, xs: seq<byte>)
    requires r.fault.Some?
    ensures ReadAll(parse, r, xs) == r.(state := r.state.(buffer := r.state.buffer + xs))
    decreases xs
  {
    if xs == [] {
      assert r.state.buffer + xs == r.state.buffer;
    } else {
      ReadStuck(parse, Read(parse, r, xs[0]), xs[1..]);
      assert r.state.buffer + [xs[0]] + xs[1..] == r.state.buffer + xs;
    }
  }

  lemma ReadBuffered<V>(parse: seq<byte> -> Option<V>, s: State, chunk: seq<byte>)
    requires LF !in s.buffer
    ensures ReadAll(parse, Result(s, [], None), chunk)
         == ReadAll(parse, Result(s.(buffer := []), [], None), s.buffer + chunk)
  {
    var empty := Result(s.(buffer := []), [], None);
    ReadPlain(parse, empty, s.buffer);
    assert [] + s.buffer == s.buffer;
    ReadAllAppend(parse, empty, s.buffer, chunk);
  }

  lemma ReadLine<V>(parse: seq<byte> -> Option<V>, s: State, events: seq<Event<V>>, raw: seq<byte>, rest: seq<byte>)
    requires s.buffer == [] && LF !in raw
    ensures
      var next := Line(parse, s, raw);
      ReadAll(parse, Result(s, events, None), raw + [LF] + rest)
      == ReadAll(parse, After(events, next), rest)
  {
    var before := Result(s, events, None);
    ReadPlain(parse, before, raw);
    assert [] + raw == raw;
    assert raw + [LF] + rest == raw + ([LF] + rest);
    ReadAllAppend(parse, before, raw, [LF] + rest);
    assert ([LF] + rest)[1..] == rest;
    assert s == s.(buffer := raw).(buffer := []);
  }

  // Events already yielded are a prefix that the rest of the input never looks at.
  lemma ReadPrefix<V>(parse: seq<byte> -> Option<V>, r: Result<V>, xs: seq<byte>)
    ensures ReadAll(parse, r, xs) == After(r.events, ReadAll(parse, r.(events := []), xs))
    decreases xs
  {
    hide Read;
    if xs == [] {
      assert r.events + [] == r.events;
    } else {
      var one, bare := Read(parse, r, xs[0]), Read(parse, r.(events := []), xs[0]);
      ReadOnePrefix(parse, r, xs[0]);
      ReadPrefix(parse, one, xs[1..]);
      ReadPrefix(parse, bare, xs[1..]);
      AfterTwice(r.events, bare.events, ReadAll(parse, bare.(events := []), xs[1..]));
    }
  }

  lemma AfterTwice<V>(events: seq<Event<V>>, more: seq<Event<V>>, r: Result<V>)
    ensures After(events, After(more, r)) == After(events + more, r)
  {
    Regroup(events, more, r.events);
  }

  lemma ReadOnePrefix<V>(parse: seq<byte> -> Option<V>, r: Result<V>, b: byte)
    ensures Read(parse, r, b) == After(r.events, Read(parse, r.(events := []), b))
  {
    assert r.events + [] == r.events;
    if r.fault.None? && b == LF {
      var next := Line(parse, r.state.(buffer := []), r.state.buffer);
      assert [] + next.events == next.events;
    }
  }

  // No byte of a chunk changes the size counter, and it is only ever compared at a chunk's start.
  lemma ReadSize<V>(parse: seq<byte> -> Option<V>, r: Result<V>, xs: seq<byte>, n: nat)
    ensures
      var other := ReadAll(parse, r.(state := r.state.(size := n)), xs);
      && ReadAll(parse, r, xs) == other.(state := other.state.(size := r.state.size))
      && other.state.size == n
    decreases xs
  {
    if xs != [] {
      ReadSize(parse, Read(parse, r, xs[0]), xs[1..], n);
      assert Read(parse, r.(state := r.state.(size := n)), xs[0])
          == Read(parse, r, xs[0]).(state := Read(parse, r, xs[0]).state.(size := n));
    }
  }

  lemma UnfinishedAppend(s: seq<byte>, t: seq<byte>)
    ensures Unfinished(Unfinished(s) + t) == Unfinished(s + t)
    ensures LF !in Unfinished(s)
    decreases |s|
  {
    if LF in s {
      assert (s + t)[1..] == s[1..] + t;
      assert LF in s + t;
      UnfinishedAppend(s[1..], t);
    }
  }

  lemma UnfinishedSkips(s: seq<byte>, t: seq<byte>)
    ensures Unfinished(s + [LF] + t) == Unfinished(t)
  {
    assert LF in s + [LF] + t;
    if s == [] {
      assert s + [LF] + t == [LF] + t;
      assert ([LF] + t)[1..] == t;
    } else {
      assert (s + [LF] + t)[1..] == s[1..] + [LF] + t;
      UnfinishedSkips(s[1..], t);
    }
  }

  // Without an error, what is left in the buffer is the unfinished line of everything read.
  lemma ReadLeaves<V>(parse: seq<byte> -> Option<V>, r: Result<V>, xs: seq<byte>)
    requires LF !in r.state.buffer
    ensures
      var end := ReadAll(parse, r, xs);
      end.fault.None? ==> end.state.buffer == Unfinished(r.state.buffer + xs)
    decreases xs
  {
    hide Read, Unfinished;
    if xs == [] {
      assert r.state.buffer + xs == r.state.buffer;
      UnfinishedPlain(r.state.buffer);
    } else if r.fault.Some? {
      ReadStuck(parse, r, xs);
    } else {
      var one := Read(parse, r, xs[0]);
      ReadOne(parse, r, xs[0]);
      ReadLeaves(parse, one, xs[1..]);
      if xs[0] == LF {
        assert r.state.buffer + xs == r.state.buffer + [LF] + xs[1..];
        UnfinishedSkips(r.state.buffer, xs[1..]);
        assert [] + xs[1..] == xs[1..];
      } else {
        assert r.state.buffer + [xs[0]] + xs[1..] == r.state.buffer + xs;
      }
    }
  }

  lemma UnfinishedPlain(s: seq<byte>)
    requires LF !in s
    ensures Unfinished(s) == s
  {
  }

  // One byte and the buffer: a line feed empties it, any other byte lengthens it.
  lemma ReadOne<V>(parse: seq<byte> -> Option<V>, r: Result<V>, b: byte)
    requires r.fault.None?
    ensures Read(parse, r, b).state.buffer == if b == LF then [] else r.state.buffer + [b]
  {
  }

  // ----- chunking -----

  // No unfinished line longer than the bound at the end of any chunk.
  ghost predicate BoundariesFit(buffer: seq<byte>, chunks: seq<seq<byte>>) {
    forall k | 0 < k <= |chunks| :: |Unfinished(buffer + Flatten(chunks[..k]))| <= MAX_LINE
  }

  predicate ContentFault(f: Option<Fault>) {
    f.Some? && (f.value.NotUtf8? || f.value.AfterTerminal? || f.value.BadPayload?)
  }

  lemma FeedSettles<V>(parse: seq<byte> -> Option<V>, s: State, chunk: seq<byte>)
    requires Settled(s)
    ensures
      var r := Feed(parse, s, chunk);
      && (r.fault.None? ==>
        Settled(r.state) && r.state.size == s.size + |chunk| && r.state.buffer == Unfinished(s.buffer + chunk))
      && (r.fault == Some(StreamBound) <==> s.size + |chunk| > MAX_STREAM)
      && (r.fault == Some(LineBound) ==> |Unfinished(s.buffer + chunk)| > MAX_LINE)
  {
    var r := Result(s.(size := s.size + |chunk|), [], None);
    ReadLeaves(parse, r, chunk);
    ReadSize(parse, r, chunk, r.state.size);
    ReadFaults(parse, r, chunk);
    UnfinishedAppend(s.buffer + chunk, []);
  }

  // Reading bytes never reports a size.
  lemma ReadFaults<V>(parse: seq<byte> -> Option<V>, r: Result<V>, xs: seq<byte>)
    requires r.fault.None? || ContentFault(r.fault)
    ensures
      var end := ReadAll(parse, r, xs);
      && (end.fault.None? || ContentFault(end.fault))
      && (r.fault.Some? ==> end.fault == r.fault)
    decreases xs
  {
    if xs != [] {
      ReadFaults(parse, Read(parse, r, xs[0]), xs[1..]);
    }
  }

  // Feeding a + b after a clean a is feeding a and then b.
  lemma FeedTwo<V>(parse: seq<byte> -> Option<V>, s: State, a: seq<byte>, b: seq<byte>)
    requires Settled(s) && s.size + |a| + |b| <= MAX_STREAM
    ensures
      var first := Feed(parse, s, a);
      first.fault.None? ==> Feed(parse, s, a + b) == After(first.events, Feed(parse, first.state, b))
  {
    var first := Feed(parse, s, a);
    if first.fault.None? {
      var total := s.size + |a| + |b|;
      var r := Result(s.(size := total), [], None);
      ReadAllAppend(parse, r, a, b);
      ReadSize(parse, r, a, s.size + |a|);
      var mid := ReadAll(parse, r, a);
      assert mid == first.(state := first.state.(size := total)) by {
        assert r.state.(size := s.size + |a|) == s.(size := s.size + |a|);
      }
      FeedSettles(parse, s, a);
      ReadPrefix(parse, mid, b);
      assert mid.(events := []) == Result(first.state.(size := total), [], None);
    }
  }

  // Feeding a + b after a fails on the content of a is failing there, after the same events.
  lemma FeedBroken<V>(parse: seq<byte> -> Option<V>, s: State, a: seq<byte>, b: seq<byte>)
    requires Settled(s) && s.size + |a| + |b| <= MAX_STREAM
    requires ContentFault(Feed(parse, s, a).fault)
    ensures
      var first, whole := Feed(parse, s, a), Feed(parse, s, a + b);
      whole.fault == first.fault && whole.events == first.events
  {
    var r := Result(s.(size := s.size + |a| + |b|), [], None);
    ReadAllAppend(parse, r, a, b);
    ReadSize(parse, r, a, s.size + |a|);
    assert r.state.(size := s.size + |a|) == s.(size := s.size + |a|);
    ReadStuck(parse, ReadAll(parse, r, a), b);
  }

  lemma FitsStep(buffer: seq<byte>, chunks: seq<seq<byte>>)
    requires chunks != []
    ensures
      var pending := Unfinished(buffer + chunks[0]);
      BoundariesFit(buffer, chunks) <==> |pending| <= MAX_LINE && BoundariesFit(pending, chunks[1..])
  {
    var pending := Unfinished(buffer + chunks[0]);
    forall k | 0 < k <= |chunks|
      ensures Unfinished(buffer + Flatten(chunks[..k])) == Unfinished(pending + Flatten(chunks[1..][..k - 1]))
    {
      assert chunks[..k][1..] == chunks[1..][..k - 1];
      var rest := Flatten(chunks[1..][..k - 1]);
      assert buffer + Flatten(chunks[..k]) == (buffer + chunks[0]) + rest;
      UnfinishedAppend(buffer + chunks[0], rest);
    }
    assert chunks[1..][..0] == [];
    assert pending + Flatten(chunks[1..][..0]) == pending;
    UnfinishedAppend(buffer + chunks[0], []);
    assert pending + [] == pending && buffer + chunks[0] + [] == buffer + chunks[0];
    if BoundariesFit(buffer, chunks) {
      assert |Unfinished(buffer + Flatten(chunks[..1]))| <= MAX_LINE;
      forall k | 0 < k <= |chunks[1..]|
        ensures |Unfinished(pending + Flatten(chunks[1..][..k]))| <= MAX_LINE
      {
        assert |Unfinished(buffer + Flatten(chunks[..k + 1]))| <= MAX_LINE;
        assert chunks[1..][..k + 1 - 1] == chunks[1..][..k];
      }
    }
    if |pending| <= MAX_LINE && BoundariesFit(pending, chunks[1..]) {
      forall k | 0 < k <= |chunks|
        ensures |Unfinished(buffer + Flatten(chunks[..k]))| <= MAX_LINE
      {
        if k == 1 {
          assert chunks[1..][..k - 1] == [];
        }
      }
    }
  }

  /** Splitting a stream into chunks changes nothing but the line bound: the split stream is read
      without error exactly when the whole is and no chunk leaves too long a line unfinished, and
      then events and state agree. An error in the content is the same error after the same events. */
  lemma {:induction false} Chunking<V>(parse: seq<byte> -> Option<V>, s: State, chunks: seq<seq<byte>>)
    requires Settled(s)
    ensures
      var split, whole := FeedAll(parse, s, chunks), Feed(parse, s, Flatten(chunks));
      && (split.fault.None? <==> whole.fault.None? && BoundariesFit(s.buffer, chunks))
      && (split.fault.None? ==> split == whole)
      && (ContentFault(split.fault) && s.size + |Flatten(chunks)| <= MAX_STREAM ==>
        whole.fault == split.fault && whole.events == split.events)
    decreases |chunks|
  {
    if chunks == [] {
    } else {
      var a, rest := chunks[0], chunks[1..];
      var b := Flatten(rest);
      var first, whole := Feed(parse, s, a), Feed(parse, s, a + b);
      FeedSettles(parse, s, a);
      FeedSettles(parse, s, a + b);
      FitsStep(s.buffer, chunks);
      if first.fault.None? {
        Chunking(parse, first.state, rest);
        FeedSettles(parse, first.state, b);
        if s.size + |a + b| <= MAX_STREAM {
          FeedTwo(parse, s, a, b);
        }
      } else if s.size + |a + b| <= MAX_STREAM && ContentFault(first.fault) {
        FeedBroken(parse, s, a, b);
      } else {
        ReadFaults(parse, Result(s.(size := s.size + |a|), [], None), a);
      }
    }
  }

  // ----- streams whose lines are short -----

  // Every line of the text, finished or not, is within the bound.
  ghost predicate LinesFit(s: seq<byte>) {
    forall i, j | 0 <= i <= j <= |s| && LF !in s[i..j] :: j - i <= MAX_LINE
  }

  lemma UnfinishedIsSuffix(s: seq<byte>)
    ensures |Unfinished(s)| <= |s| && Unfinished(s) == s[|s| - |Unfinished(s)|..]
  {
    if LF in s {
      UnfinishedIsSuffix(s[1..]);
    }
  }

  lemma FlattenPrefix<T>(xss: seq<seq<T>>, k: nat)
    requires k <= |xss|
    ensures Flatten(xss[..k]) <= Flatten(xss)
  {
    assert xss == xss[..k] + xss[k..];
    FlattenAppend(xss[..k], xss[k..]);
  }

  lemma PrefixFits(all: seq<byte>, part: seq<byte>)
    requires LinesFit(all) && part <= all
    ensures |Unfinished(part)| <= MAX_LINE
  {
    hide Unfinished;
    var pending := Unfinished(part);
    UnfinishedIsSuffix(part);
    UnfinishedAppend(part, []);
    var i := |part| - |pending|;
    assert part == all[..|part|];
    assert all[i..|part|] == part[i..] == pending;
    assert LF !in all[i..|part|];
  }

  lemma PrefixAfter<T>(a: seq<T>, b: seq<T>, c: seq<T>)
    requires b <= c
    ensures a + b <= a + c
  {
  }

  lemma LinesFitBoundaries(buffer: seq<byte>, chunks: seq<seq<byte>>)
    requires LinesFit(buffer + Flatten(chunks))
    ensures BoundariesFit(buffer, chunks)
  {
    hide Flatten, Unfinished, LinesFit;
    forall k | 0 < k <= |chunks|
      ensures |Unfinished(buffer + Flatten(chunks[..k]))| <= MAX_LINE
    {
      FlattenPrefix(chunks, k);
      PrefixAfter(buffer, Flatten(chunks[..k]), Flatten(chunks));
      PrefixFits(buffer + Flatten(chunks), buffer + Flatten(chunks[..k]));
    }
  }

  /** When every line of the stream is within the bound, the chunks do not matter at all. */
  lemma ChunkingInvariance<V>(parse: seq<byte> -> Option<V>, s: State, chunks: seq<seq<byte>>, others: seq<seq<byte>>)
    requires Settled(s) && Flatten(chunks) == Flatten(others) && LinesFit(s.buffer + Flatten(chunks))
    ensures
      var one, two := FeedAll(parse, s, chunks), FeedAll(parse, s, others);
      && (one.fault.None? <==> two.fault.None?)
      && (one.fault.None? ==> one == two)
  {
    LinesFitBoundaries(s.buffer, chunks);
    LinesFitBoundaries(s.buffer, others);
    Chunking(parse, s, chunks);
    Chunking(parse, s, others);
  }

  // Within both bounds only the content of a stream can be at fault.
  lemma {:induction false} FaultsAreContent<V>(parse: seq<byte> -> Option<V>, s: State, chunks: seq<seq<byte>>)
    requires Settled(s) && BoundariesFit(s.buffer, chunks) && s.size + |Flatten(chunks)| <= MAX_STREAM
    ensures
      var split := FeedAll(parse, s, chunks);
      split.fault.None? || ContentFault(split.fault)
    decreases |chunks|
  {
    hide Feed, BoundariesFit, Unfinished;
    if chunks != [] {
      var first := Feed(parse, s, chunks[0]);
      FeedSettles(parse, s, chunks[0]);
      FitsStep(s.buffer, chunks);
      if first.fault.None? {
        FaultsAreContent(parse, first.state, chunks[1..]);
      }
    }
  }

  /** And when the stream is within its own bound too, even one that fails gives the same events and the
      same error however it is cut. */
  lemma WholeDecides<V>(parse: seq<byte> -> Option<V>, s: State, chunks: seq<seq<byte>>, others: seq<seq<byte>>)
    requires Settled(s) && Flatten(chunks) == Flatten(others) && LinesFit(s.buffer + Flatten(chunks))
    requires s.size + |Flatten(chunks)| <= MAX_STREAM
    ensures
      var one, two := FeedAll(parse, s, chunks), FeedAll(parse, s, others);
      one.events == two.events && one.fault == two.fault && (one.fault.None? ==> one == two)
  {
    hide FeedAll, Feed, LinesFit, BoundariesFit;
    LinesFitBoundaries(s.buffer, chunks);
    LinesFitBoundaries(s.buffer, others);
    FaultsAreContent(parse, s, chunks);
    FaultsAreContent(parse, s, others);
    Chunking(parse, s, chunks);
    Chunking(parse, s, others);
  }

  lemma {:induction false} Utf8AfterAscii(ascii: seq<byte>, s: seq<byte>)
    requires (forall i | 0 <= i < |ascii| :: ascii[i] < 0x80) && Utf8(s)
    ensures Utf8(ascii + s)
  {
    if ascii == [] {
      assert ascii + s == s;
    } else {
      Utf8AfterAscii(ascii[1..], s);
      assert (ascii + s)[1..] == ascii[1..] + s;
    }
  }

  /** Without that condition they do: a comment line one byte over the bound is skipped when it
      arrives in one chunk, and ends the stream when its line feed comes in the next chunk. */
  lemma LongLineDependsOnChunks<V>(parse: seq<byte> -> Option<V>)
    ensures
      var line := seq(65_537, _ => COLON);
      && FeedAll(parse, START, [line + [LF]]).fault.None?
      && FeedAll(parse, START, [line, [LF]]).fault == Some(LineBound)
  {
    var line := seq(MAX_LINE + 1, _ => COLON);
    Utf8AfterAscii(line, []);
    assert line + [] == line;
    LongComment(parse, line);
  }

  lemma LongComment<V>(parse: seq<byte> -> Option<V>, line: seq<byte>)
    requires |line| == MAX_LINE + 1 && line[0] == COLON && line[|line| - 1] != CR && LF !in line && Utf8(line)
    ensures FeedAll(parse, START, [line + [LF]]).fault.None?
    ensures FeedAll(parse, START, [line, [LF]]).fault == Some(LineBound)
  {
    WholeComment(parse, line);
    CutComment(parse, line);
  }

  lemma CutComment<V>(parse: seq<byte> -> Option<V>, line: seq<byte>)
    requires |line| == MAX_LINE + 1 && LF !in line
    ensures FeedAll(parse, START, [line, [LF]]).fault == Some(LineBound)
  {
    hide ReadAll, Line;
    var r := Result(START.(size := |line|), [], None);
    ReadPlain(parse, r, line);
    assert [] + line == line;
    assert Feed(parse, START, line).fault == Some(LineBound);
  }

  lemma WholeComment<V>(parse: seq<byte> -> Option<V>, line: seq<byte>)
    requires |line| == MAX_LINE + 1 && line[0] == COLON && line[|line| - 1] != CR && LF !in line && Utf8(line)
    ensures FeedAll(parse, START, [line + [LF]]).fault.None?
  {
    var s := START.(size := |line| + 1);
    ReadLine(parse, s, [], line, []);
    assert line + [LF] + [] == line + [LF];
    assert Line(parse, s, line) == Result(s, [], None);
    assert Feed(parse, START, line + [LF]).fault.None?;
    assert [line + [LF]][1..] == [];
    assert FeedAll(parse, Feed(parse, START, line + [LF]).state, []).fault.None?;
  }

  // ----- the round trip -----

  // chat_sse on a serialized payload, and the terminal event.
  function Frame(payload: seq<byte>): seq<byte> { DATA + [SPACE] + payload + [LF, LF] }

  const CHAT_DONE: seq<byte> := Frame(DONE)

  function Frames(payloads: seq<seq<byte>>): seq<byte> {
    if payloads == [] then CHAT_DONE else Frame(payloads[0]) + Frames(payloads[1..])
  }

  // A payload the serializer can write: one line of UTF-8 that does not end in a carriage return
  // and leaves room for "data: ".
  predicate OneLine(payload: seq<byte>) {
    && LF !in payload
    && (payload != [] ==> payload[|payload| - 1] != CR)
    && Utf8(payload)
    && |payload| + 6 <= MAX_LINE
  }

  ghost predicate Serialized<V>(parse: seq<byte> -> Option<V>, payloads: seq<seq<byte>>) {
    forall i | 0 <= i < |payloads| :: OneLine(payloads[i]) && payloads[i] != DONE && parse(payloads[i]).Some?
  }

  lemma ReadFrame<V>(parse: seq<byte> -> Option<V>, s: State, events: seq<Event<V>>, payload: seq<byte>,
      rest: seq<byte>)
    requires s.buffer == [] && s.data == [] && !s.done && OneLine(payload)
    requires payload == DONE || parse(payload).Some?
    ensures
      var event := if payload == DONE then Done else Value(parse(payload).value);
      ReadAll(parse, Result(s, events, None), Frame(payload) + rest)
      == ReadAll(parse, Result(s.(done := payload == DONE), events + [event], None), rest)
  {
    hide ReadAll, Line, Utf8, StripCr;
    var line := DATA + [SPACE] + payload;
    assert Frame(payload) + rest == line + [LF] + ([LF] + rest);
    ReadLine(parse, s, events, line, [LF] + rest);
    HoldPayload(parse, s, payload);
    var held := s.(data := [payload]);
    assert events + [] == events;
    ReadLine(parse, held, events, [], rest);
    assert [] + [LF] + rest == [LF] + rest;
    EmitPayload(parse, s, payload);
  }

  lemma HoldPayload<V>(parse: seq<byte> -> Option<V>, s: State, payload: seq<byte>)
    requires s.data == [] && OneLine(payload)
    ensures Line(parse, s, DATA + [SPACE] + payload) == Result(s.(data := [payload]), [], None)
  {
    var line := DATA + [SPACE] + payload;
    Utf8AfterAscii(DATA + [SPACE], payload);
    assert line[5..] == [SPACE] + payload;
    assert ([SPACE] + payload)[1..] == payload;
    assert StripCr(line) == line;
    assert DATA <= line;
    assert [] + [payload] == [payload];
  }

  lemma EmitPayload<V>(parse: seq<byte> -> Option<V>, s: State, payload: seq<byte>)
    requires s.data == [] && !s.done && (payload == DONE || parse(payload).Some?)
    ensures
      var event := if payload == DONE then Done else Value(parse(payload).value);
      Line(parse, s.(data := [payload]), []) == Result(s.(done := payload == DONE), [event], None)
  {
    assert Join([payload]) == payload;
  }

  lemma {:induction false} ReadFrames<V>(parse: seq<byte> -> Option<V>, s: State, events: seq<Event<V>>,
      payloads: seq<seq<byte>>)
    requires s.buffer == [] && s.data == [] && !s.done
    requires Serialized(parse, payloads)
    ensures ReadAll(parse, Result(s, events, None), Frames(payloads))
         == Result(s.(done := true), events + Values(parse, payloads) + [Done], None)
    decreases |payloads|
  {
    hide Read, Line, Frame;
    if payloads == [] {
      Utf8AfterAscii(DONE, []);
      assert DONE + [] == DONE;
      ReadFrame(parse, s, events, DONE, []);
      assert Frame(DONE) + [] == Frames(payloads);
      assert events + Values(parse, payloads) == events;
    } else {
      var p := payloads[0];
      ReadFrame(parse, s, events, p, Frames(payloads[1..]));
      ReadFrames(parse, s, events + [Value(parse(p).value)], payloads[1..]);
      assert s == s.(done := false);
      assert events + [Value(parse(p).value)] + Values(parse, payloads[1..]) == events + Values(parse, payloads);
    }
  }

  function Values<V>(parse: seq<byte> -> Option<V>, payloads: seq<seq<byte>>): seq<Event<V>>
    requires forall i | 0 <= i < |payloads| :: parse(payloads[i]).Some?
  {
    if payloads == [] then [] else [Value(parse(payloads[0]).value)] + Values(parse, payloads[1..])
  }

  lemma LinesFitAppend(line: seq<byte>, rest: seq<byte>)
    requires LF !in line && |line| <= MAX_LINE && LinesFit(rest)
    ensures LinesFit(line + [LF] + rest)
  {
    var s := line + [LF] + rest;
    forall i, j | 0 <= i <= j <= |s|
      ensures LF in s[i..j] || j - i <= MAX_LINE
    {
      if i <= |line| < j {
        assert s[i..j][|line| - i] == LF;
      } else if |line| < i {
        assert s[i..j] == rest[i - |line| - 1..j - |line| - 1];
      }
    }
  }

  lemma {:induction false} FramesFit(payloads: seq<seq<byte>>)
    requires forall i | 0 <= i < |payloads| :: OneLine(payloads[i])
    ensures LinesFit(Frames(payloads))
    decreases |payloads|
  {
    var p := if payloads == [] then DONE else payloads[0];
    var rest := if payloads == [] then [] else Frames(payloads[1..]);
    if payloads != [] {
      FramesFit(payloads[1..]);
    }
    FrameFits(p, rest);
    FramesAre(payloads);
  }

  lemma FramesAre(payloads: seq<seq<byte>>)
    ensures Frames(payloads) == if payloads == [] then Frame(DONE) + [] else Frame(payloads[0]) + Frames(payloads[1..])
  {
    hide Frame;
  }

  lemma FrameFits(p: seq<byte>, rest: seq<byte>)
    requires OneLine(p) && LinesFit(rest)
    ensures LinesFit(Frame(p) + rest)
  {
    hide LinesFit;
    LinesFitAppend([], rest);
    LinesFitAppend(DATA + [SPACE] + p, [] + [LF] + rest);
    FrameParts(DATA + [SPACE] + p, rest);
  }

  lemma FrameParts(line: seq<byte>, rest: seq<byte>)
    ensures line + [LF] + ([] + [LF] + rest) == line + [LF, LF] + rest
  {
    assert [] + [LF] + rest == [LF] + rest;
    assert line + [LF] + [LF] == line + [LF, LF];
    Regroup(line + [LF], [LF], rest);
  }

  /** What the encoder writes, the decoder reads back, however the bytes were chunked: exactly the
      payloads and then the terminal event, in a state that finish accepts. Only the size of the
      whole stream can prevent it. */
  lemma RoundTrip<V>(parse: seq<byte> -> Option<V>, payloads: seq<seq<byte>>, chunks: seq<seq<byte>>)
    requires Serialized(parse, payloads)
    requires Flatten(chunks) == Frames(payloads)
    ensures
      var r := FeedAll(parse, START, chunks);
      && (r.fault.None? <==> |Frames(payloads)| <= 1_048_576)
      && (r.fault.None? ==> r.events == Values(parse, payloads) + [Done] && Finished(r.state))
  {
    FramesFit(payloads);
    assert START.buffer + Flatten(chunks) == Frames(payloads);
    LinesFitBoundaries(START.buffer, chunks);
    Chunking(parse, START, chunks);
    var sized := START.(size := |Frames(payloads)|);
    ReadFrames(parse, sized, [], payloads);
    assert [] + Values(parse, payloads) == Values(parse, payloads);
  }
}

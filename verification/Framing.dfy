/** Model of src/ipc/framing.ts and of `encodeFrame` in src/ipc/protocol.ts: one JSON text per line. */
module Framing {
  import opened JavaScript
  import opened Wrappers

  // JSON itself is a pair of functions. All that is used of it is that a text reads back as the
  // message it was written from, is not empty, and has no raw line feed in it (control characters
  // are escaped, section 7 of RFC 8259).

  const NEWLINE: Byte := 0x0A

  const MAX_IPC_FRAME_BYTES: nat := 512 * 1024

  // ---- The stream, byte by byte ----

  /** What a stretch of the stream leads to. A failure keeps what was decoded before it. */
  datatype Outcome<M> = Decoded(messages: seq<M>, remainder: seq<Byte>) | Failed(messages: seq<M>)

  function FeedByte<M>(parse: seq<Byte> -> Option<M>, remainder: seq<Byte>, b: Byte): Outcome<M> {
    if b == NEWLINE then
      if remainder == [] then Decoded([], [])
      else
        match parse(remainder)
        case Some(m) => Decoded([m], [])
        case None => Failed([])
    else if |remainder| + 1 > MAX_IPC_FRAME_BYTES then Failed([])
    else Decoded([], remainder + [b])
  }

  function Feed<M>(parse: seq<Byte> -> Option<M>, remainder: seq<Byte>, bytes: seq<Byte>): Outcome<M>
    decreases bytes
  {
    if bytes == [] then Decoded([], remainder)
    else
      match FeedByte(parse, remainder, bytes[0])
      case Failed(_) => Failed([])
      case Decoded(messages, rest) => After(messages, Feed(parse, rest, bytes[1..]))
  }

  function After<M>(messages: seq<M>, o: Outcome<M>): Outcome<M> {
    o.(messages := messages + o.messages)
  }

  /** What follows an outcome. */
  function Then<M>(parse: seq<Byte> -> Option<M>, o: Outcome<M>, bytes: seq<Byte>): Outcome<M> {
    match o
    case Failed(messages) => o
    case Decoded(messages, rest) => After(messages, Feed(parse, rest, bytes))
  }

  lemma AfterTwice<M>(a: seq<M>, b: seq<M>, o: Outcome<M>)
    ensures After(a, After(b, o)) == After(a + b, o)
  {
    assert a + (b + o.messages) == a + b + o.messages;
  }

  lemma AfterNothing<M>(a: seq<M>, remainder: seq<Byte>)
    ensures After(a, Decoded([], remainder)) == Decoded(a, remainder)
    ensures After([], Decoded(a, remainder)) == Decoded(a, remainder)
  {
    assert a + [] == a && [] + a == a;
  }

  lemma ThenAfter<M>(parse: seq<Byte> -> Option<M>, messages: seq<M>, o: Outcome<M>, bytes: seq<Byte>)
    ensures Then(parse, After(messages, o), bytes) == After(messages, Then(parse, o, bytes))
  {
    if o.Decoded? {
      AfterTwice(messages, o.messages, Feed(parse, o.remainder, bytes));
    }
  }

  /** Feeding two stretches is feeding the second from where the first ended. */
  lemma {:induction false} FeedInTwo<M>(parse: seq<Byte> -> Option<M>, remainder: seq<Byte>, a: seq<Byte>, b: seq<Byte>)
    ensures Feed(parse, remainder, a + b) == Then(parse, Feed(parse, remainder, a), b)
    decreases a
  {
    if a == [] {
      assert a + b == b;
      AfterEmpty(Feed(parse, remainder, b));
    } else {
      assert (a + b)[1..] == a[1..] + b;
      var first := FeedByte(parse, remainder, a[0]);
      if first.Decoded? {
        FeedInTwo(parse, first.remainder, a[1..], b);
        ThenAfter(parse, first.messages, Feed(parse, first.remainder, a[1..]), b);
      }
    }
  }

  lemma AfterEmpty<M>(o: Outcome<M>)
    ensures After([], o) == o
  {
    assert [] + o.messages == o.messages;
  }

  /** A stretch without a line feed is only collected. */
  lemma {:induction false} FeedSegment<M>(parse: seq<Byte> -> Option<M>, remainder: seq<Byte>, segment: seq<Byte>)
    requires NEWLINE !in segment && |remainder| <= MAX_IPC_FRAME_BYTES
    ensures Feed(parse, remainder, segment) ==
            if |remainder| + |segment| > MAX_IPC_FRAME_BYTES then Failed([]) else Decoded([], remainder + segment)
    decreases segment
  {
    if segment == [] {
      assert remainder + segment == remainder;
    } else if |remainder| + 1 <= MAX_IPC_FRAME_BYTES {
      FeedSegment(parse, remainder + [segment[0]], segment[1..]);
      assert remainder + [segment[0]] + segment[1..] == remainder + segment;
    }
  }

  /** The end of a line. */
  function LineOutcome<M>(parse: seq<Byte> -> Option<M>, line: seq<Byte>): Outcome<M> {
    if |line| > MAX_IPC_FRAME_BYTES then Failed([]) else FeedByte(parse, line, NEWLINE)
  }

  lemma FeedLine<M>(parse: seq<Byte> -> Option<M>, remainder: seq<Byte>, segment: seq<Byte>)
    requires NEWLINE !in segment && |remainder| <= MAX_IPC_FRAME_BYTES
    ensures Feed(parse, remainder, segment + [NEWLINE]) == LineOutcome(parse, remainder + segment)
  {
    FeedInTwo(parse, remainder, segment, [NEWLINE]);
    FeedSegment(parse, remainder, segment);
    var line := remainder + segment;
    if |line| <= MAX_IPC_FRAME_BYTES {
      FeedOne(parse, line, NEWLINE);
      AfterEmpty(FeedByte(parse, line, NEWLINE));
    }
  }

  lemma FeedOne<M>(parse: seq<Byte> -> Option<M>, remainder: seq<Byte>, b: Byte)
    ensures Feed(parse, remainder, [b]) == FeedByte(parse, remainder, b)
  {
    var o := FeedByte(parse, remainder, b);
    if o.Decoded? {
      assert [b][1..] == [];
      AfterNothing(o.messages, o.remainder);
    }
  }

  /** The stream from `cursor` on, when the next line feed is at `newline`. */
  lemma FeedNextLine<M>(parse: seq<Byte> -> Option<M>, remainder: seq<Byte>, input: seq<Byte>, cursor: nat, newline: nat)
    requires cursor <= newline < |input| && input[newline] == NEWLINE && NEWLINE !in input[cursor..newline]
    requires |remainder| <= MAX_IPC_FRAME_BYTES
    ensures Feed(parse, remainder, input[cursor..]) ==
            Then(parse, LineOutcome(parse, remainder + input[cursor..newline]), input[newline + 1..])
  {
    var segment, rest := input[cursor..newline], input[newline + 1..];
    assert input[cursor..] == segment + [NEWLINE] + rest;
    FeedLine(parse, remainder, segment);
    FeedInTwo(parse, remainder, segment + [NEWLINE], rest);
  }

  // ---- The decoder ----

  function IndexOf(input: seq<Byte>, b: Byte, from: nat): (i: int)
    requires from <= |input|
    ensures i == -1 ==> b !in input[from..]
    ensures i != -1 ==> from <= i < |input| && input[i] == b && b !in input[from..i]
    decreases |input| - from
  {
    if from == |input| then -1
    else if input[from] == b then from
    else
      var i := IndexOf(input, b, from + 1);
      assert input[from..] == [input[from]] + input[from + 1..];
      assert i != -1 ==> input[from..i] == [input[from]] + input[from + 1..i];
      i
  }

  class JsonLineDecoder<M> {
    const parse: seq<Byte> -> Option<M>
    var remainder: seq<Byte>

    constructor (parse: seq<Byte> -> Option<M>)
      ensures this.parse == parse && remainder == []
    {
      this.parse := parse;
      remainder := [];
    }

    /** Decodes what the stream decodes to. On a failure the whole chunk is lost, and with it the
        messages decoded from it. */
    method Push(chunk: seq<Byte>) returns (r: Option<seq<M>>)
      requires |remainder| <= MAX_IPC_FRAME_BYTES
      modifies this
      ensures |remainder| <= MAX_IPC_FRAME_BYTES
      ensures match Feed(parse, old(remainder), chunk)
              case Decoded(messages, rest) => r == Some(messages) && remainder == rest
              case Failed(_) => r == None && remainder == []
    {
      var decoded: seq<M> := [];
      var cursor := 0;
      ghost var whole := Feed(parse, remainder, chunk);
      assert chunk[0..] == chunk;
      AfterEmpty(whole);
      while cursor < |chunk|
        invariant cursor <= |chunk| && |remainder| <= MAX_IPC_FRAME_BYTES
        invariant whole == After(decoded, Feed(parse, remainder, chunk[cursor..]))
      {
        var newline := IndexOf(chunk, NEWLINE, cursor);
        if newline < 0 {
          var rest := chunk[cursor..];
          FeedSegment(parse, remainder, rest);
          AfterNothing(decoded, remainder + rest);
          var ok := Append(rest);
          return if ok then Some(decoded) else None;
        }
        FeedNextLine(parse, remainder, chunk, cursor, newline);
        var messages := TakeLine(chunk[cursor..newline]);
        cursor := newline + 1;
        if messages.None? {
          return None;
        }
        AfterTwice(decoded, messages.value, Feed(parse, [], chunk[cursor..]));
        decoded := decoded + messages.value;
      }
      AfterNothing(decoded, remainder);
      return Some(decoded);
    }

    /** The end of a line: the `try` block of `push`. */
    method TakeLine(segment: seq<Byte>) returns (r: Option<seq<M>>)
      requires |remainder| <= MAX_IPC_FRAME_BYTES
      modifies this
      ensures remainder == []
      ensures match LineOutcome(parse, old(remainder) + segment)
              case Decoded(messages, rest) => r == Some(messages) && rest == []
              case Failed(_) => r == None
    {
      var ok := Append(segment);
      if !ok {
        return None;
      }
      r := Some([]);
      if remainder != [] {
        var m := parse(remainder);
        r := if m.Some? then Some([m.value]) else None;
      }
      remainder := [];
    }

    method End() returns (r: Option<seq<M>>)
      modifies this
      ensures remainder == []
      ensures old(remainder) == [] ==> r == Some([])
      ensures old(remainder) != [] ==>
                r == match parse(old(remainder)) case Some(m) => Some([m]) case None => None
    {
      if remainder == [] {
        return Some([]);
      }
      var m := parse(remainder);
      remainder := [];
      r := if m.Some? then Some([m.value]) else None;
    }

    method Append(segment: seq<Byte>) returns (ok: bool)
      modifies this
      ensures ok == (|old(remainder)| + |segment| <= MAX_IPC_FRAME_BYTES)
      ensures remainder == if ok then old(remainder) + segment else []
    {
      if |remainder| + |segment| > MAX_IPC_FRAME_BYTES {
        remainder := [];
        return false;
      }
      if segment == [] {
        return true;
      }
      remainder := if remainder == [] then segment else remainder + segment;
      return true;
    }
  }

  // ---- Chunking ----

  /** The results of pushing chunk after chunk, up to the first push that fails; that push delivers
      nothing. */
  function PushAll<M>(parse: seq<Byte> -> Option<M>, remainder: seq<Byte>, chunks: seq<seq<Byte>>): Outcome<M>
    decreases chunks
  {
    if chunks == [] then Decoded([], remainder)
    else
      match Feed(parse, remainder, chunks[0])
      case Failed(_) => Failed([])
      case Decoded(messages, rest) => After(messages, PushAll(parse, rest, chunks[1..]))
  }

  /** Chunking does not matter: some push fails exactly when the stream does, and if none fails the
      messages and the remainder are the stream's. Before a failure no push delivers more than the
      stream had decoded by then, in that order. */
  lemma {:induction false} ChunkingIsInvisible<M>(parse: seq<Byte> -> Option<M>, remainder: seq<Byte>, chunks: seq<seq<Byte>>)
    ensures var byChunks, whole := PushAll(parse, remainder, chunks), Feed(parse, remainder, Concat(chunks));
            && (byChunks.Decoded? <==> whole.Decoded?)
            && (whole.Decoded? ==> byChunks == whole)
            && byChunks.messages <= whole.messages
    decreases chunks
  {
    if chunks == [] {
    } else {
      FeedInTwo(parse, remainder, chunks[0], Concat(chunks[1..]));
      match Feed(parse, remainder, chunks[0]) {
        case Failed(_) =>
        case Decoded(messages, rest) => ChunkingIsInvisible(parse, rest, chunks[1..]);
      }
    }
  }

  // ---- Lines ----

  function Joined(lines: seq<seq<Byte>>, tail: seq<Byte>): seq<Byte> {
    if lines == [] then tail else lines[0] + [NEWLINE] + Joined(lines[1..], tail)
  }

  /** Blank lines carry nothing. */
  predicate Readable<M>(parse: seq<Byte> -> Option<M>, line: seq<Byte>) {
    |line| <= MAX_IPC_FRAME_BYTES && (line == [] || parse(line).Some?)
  }

  function Parsed<M>(parse: seq<Byte> -> Option<M>, lines: seq<seq<Byte>>): seq<M>
    requires forall i :: 0 <= i < |lines| ==> Readable(parse, lines[i])
  {
    if lines == [] then []
    else
      assert Readable(parse, lines[0]);
      (if lines[0] == [] then [] else [parse(lines[0]).value]) + Parsed(parse, lines[1..])
  }

  /** A stream decodes exactly when each of its lines is short enough and is blank or parses, and
      what follows the last line feed is short enough; it then yields the lines' messages. */
  lemma {:induction false} DecodesLines<M>(parse: seq<Byte> -> Option<M>, lines: seq<seq<Byte>>, tail: seq<Byte>)
    requires NEWLINE !in tail && forall i :: 0 <= i < |lines| ==> NEWLINE !in lines[i]
    ensures var o := Feed(parse, [], Joined(lines, tail));
            var readable := (forall i :: 0 <= i < |lines| ==> Readable(parse, lines[i])) && |tail| <= MAX_IPC_FRAME_BYTES;
            && (o.Decoded? <==> readable)
            && (readable ==> o == Decoded(Parsed(parse, lines), tail))
  {
    if lines == [] {
      FeedSegment(parse, [], tail);
      assert [] + tail == tail;
    } else {
      var rest := lines[1..];
      FeedLine(parse, [], lines[0]);
      assert [] + lines[0] == lines[0];
      FeedInTwo(parse, [], lines[0] + [NEWLINE], Joined(rest, tail));
      DecodesLines(parse, rest, tail);
      if !(forall i :: 0 <= i < |rest| ==> Readable(parse, rest[i])) {
        var i :| 0 <= i < |rest| && !Readable(parse, rest[i]);
        assert lines[i + 1] == rest[i];
      }
    }
  }

  // ---- Frames ----

  /** `encodeFrame`: the limit counts the line feed. */
  function EncodeFrame<M>(json: M -> seq<Byte>, m: M): Option<seq<Byte>> {
    var frame := json(m) + [NEWLINE];
    if |frame| > MAX_IPC_FRAME_BYTES then None else Some(frame)
  }

  /** What is used of JSON. */
  ghost predicate Faithful<M(!new)>(json: M -> seq<Byte>, parse: seq<Byte> -> Option<M>) {
    forall m: M :: parse(json(m)) == Some(m) && json(m) != [] && NEWLINE !in json(m)
  }

  function Frames<M>(json: M -> seq<Byte>, messages: seq<M>): seq<Byte>
    requires forall i :: 0 <= i < |messages| ==> EncodeFrame(json, messages[i]).Some?
  {
    if messages == [] then [] else EncodeFrame(json, messages[0]).value + Frames(json, messages[1..])
  }

  /** The round trip: however the bytes of the encoded messages are cut into chunks, the pushes
      yield exactly the messages and leave nothing behind. */
  lemma RoundTrip<M(!new)>(json: M -> seq<Byte>, parse: seq<Byte> -> Option<M>, messages: seq<M>, chunks: seq<seq<Byte>>)
    requires Faithful(json, parse)
    requires forall i :: 0 <= i < |messages| ==> EncodeFrame(json, messages[i]).Some?
    requires Concat(chunks) == Frames(json, messages)
    ensures PushAll(parse, [], chunks) == Decoded(messages, [])
  {
    FramesDecode(json, parse, messages);
    ChunkingIsInvisible(parse, [], chunks);
  }

  lemma {:induction false} FramesDecode<M(!new)>(json: M -> seq<Byte>, parse: seq<Byte> -> Option<M>, messages: seq<M>)
    requires Faithful(json, parse)
    requires forall i :: 0 <= i < |messages| ==> EncodeFrame(json, messages[i]).Some?
    ensures Feed(parse, [], Frames(json, messages)) == Decoded(messages, [])
  {
    if messages == [] {
    } else {
      var m := messages[0];
      FeedLine(parse, [], json(m));
      assert [] + json(m) == json(m);
      FeedInTwo(parse, [], json(m) + [NEWLINE], Frames(json, messages[1..]));
      FramesDecode(json, parse, messages[1..]);
      assert [m] + messages[1..] == messages;
    }
  }

  /** The two limits differ by the line feed: the decoder takes exactly one size more than the
      encoder produces. */
  lemma LimitsDifferByOne<M(!new)>(json: M -> seq<Byte>, parse: seq<Byte> -> Option<M>, m: M)
    requires Faithful(json, parse)
    ensures EncodeFrame(json, m).Some? <==> |json(m)| < MAX_IPC_FRAME_BYTES
    ensures Feed(parse, [], json(m) + [NEWLINE]).Decoded? <==> |json(m)| <= MAX_IPC_FRAME_BYTES
  {
    FeedLine(parse, [], json(m));
    assert [] + json(m) == json(m);
  }
}

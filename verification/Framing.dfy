/**
 Incremental assembly of frames from a byte stream cut anywhere: `Message::consume` as a step
 function, the connection's loop over it, and the one-shot parser they are measured against.
 */
module Framing {
  import opened Bytes
  import opened Protocol

  datatype Header = Header(version: byte, flags: int, stream: int, opcode: byte, length: int)

  datatype Frame = Frame(header: Header, body: Bytes)

  /** Why a run cannot go on: allocation of a negative size, no body type, a write past a buffer. */
  datatype Fault = BadLength | BadOpcode | Overrun

  /** The opcodes `allocate_body` knows. */
  predicate KnownOpcode(op: byte) {
    op in {0x00, 0x01, 0x02, 0x05, 0x06, 0x07, 0x08, 0x09}
  }

  function DecodeHeader(h: Bytes): Header
    requires |h| >= HEADER_SIZE
  {
    Header(h[0], Int8(h[1]), Int8(h[2]), h[3], Int32(U32(h, 4)))
  }

  // ---------------------------------------------------------------------------------------------
  // The one-shot parser
  // ---------------------------------------------------------------------------------------------

  datatype Tail = Partial(rest: Bytes) | Stopped(fault: Fault)

  datatype Parse = Parse(frames: seq<Frame>, tail: Tail)

  /** What becomes of the first frame of s. */
  datatype First = Incomplete | Malformed(fault: Fault) | Complete(frame: Frame, size: nat)

  function FirstFrame(s: Bytes): (r: First)
    ensures r.Complete? ==> HEADER_SIZE <= r.size <= |s|
  {
    if |s| < HEADER_SIZE then Incomplete
    else
      var h := DecodeHeader(s);
      if h.length < 0 then Malformed(BadLength)
      else if !KnownOpcode(h.opcode) then Malformed(BadOpcode)
      else if |s| < HEADER_SIZE + h.length then Incomplete
      else Complete(Frame(h, s[HEADER_SIZE..HEADER_SIZE + h.length]), HEADER_SIZE + h.length)
  }

  function ParseAll(s: Bytes): Parse
    decreases |s|
  {
    match FirstFrame(s)
    case Incomplete => Parse([], Partial(s))
    case Malformed(f) => Parse([], Stopped(f))
    case Complete(frame, size) =>
      var more := ParseAll(s[size..]);
      more.(frames := [frame] + more.frames)
  }

  // ---------------------------------------------------------------------------------------------
  // Message::consume
  // ---------------------------------------------------------------------------------------------

  /** The fields of a message that is being received. */
  datatype Msg = Msg(
    header: Header,
    received: nat,
    headerReceived: bool,
    headerBuffer: Bytes,
    headerPos: nat,
    bodyBuffer: Bytes,
    bodyPos: nat,
    bodyReady: bool
  )

  function Fresh(): Msg {
    Msg(Header(0x02, 0, 0, 0, 0), 0, false, [0, 0, 0, 0, 0, 0, 0, 0], 0, [], 0, false)
  }

  /** An unfinished message lacks part of its header, or has it and lacks part of its body. */
  ghost predicate Unfinished(m: Msg) {
    && |m.headerBuffer| == HEADER_SIZE && !m.bodyReady
    && (!m.headerReceived ==> m.headerPos == m.received < HEADER_SIZE)
    && (m.headerReceived ==>
          && HEADER_SIZE <= m.received < HEADER_SIZE + m.header.length
          && |m.bodyBuffer| == m.header.length)
  }

  /**
   How the partial-body branch moves the body cursor: by the size of the whole input, as the code
   has it, or by the number of bytes it copied.
   */
  datatype CursorRule = BySize | ByCopied

  datatype Outcome = Consumed(count: nat, message: Msg) | Faulted(fault: Fault)

  predicate Fits(buffer: Bytes, pos: nat, x: Bytes) {
    x == [] || pos + |x| <= |buffer|
  }

  function CopyInto(buffer: Bytes, pos: nat, x: Bytes): (r: Bytes)
    requires Fits(buffer, pos, x)
    ensures |r| == |buffer|
  {
    if x == [] then buffer else Overwrite(buffer, pos, x)
  }

  /** The second half of `consume`: `used` bytes of the input went into the header. */
  function ConsumeBody(rule: CursorRule, m: Msg, input: Bytes, used: nat): (r: Outcome)
    requires used <= |input| && m.headerReceived && m.header.length >= 0
    requires m.received >= HEADER_SIZE + |input| - used
    requires m.received - (|input| - used) <= HEADER_SIZE + m.header.length
    ensures r.Consumed? ==> used <= r.count <= |input|
  {
    if m.received - HEADER_SIZE >= m.header.length then
      var overage := m.received - m.header.length - HEADER_SIZE;
      var needed := |input| - used - overage;
      var piece := input[used..used + needed];
      if !Fits(m.bodyBuffer, m.bodyPos, piece) then Faulted(Overrun)
      else Consumed(used + needed, m.(bodyBuffer := CopyInto(m.bodyBuffer, m.bodyPos, piece),
                                      bodyPos := m.bodyPos + needed, bodyReady := true))
    else
      var piece := input[used..];
      if !Fits(m.bodyBuffer, m.bodyPos, piece) then Faulted(Overrun)
      else Consumed(|input|, m.(bodyBuffer := CopyInto(m.bodyBuffer, m.bodyPos, piece),
                                bodyPos := m.bodyPos + if rule == BySize then |input| else |piece|))
  }

  /** The message once its header is complete; its body buffer is allocated, not yet filled. */
  function WithHeader(m: Msg, input: Bytes): Msg
    requires Unfinished(m) && !m.headerReceived && m.received + |input| >= HEADER_SIZE
    requires DecodeHeader(Overwrite(m.headerBuffer, m.headerPos, input[..HEADER_SIZE - m.received])).length >= 0
  {
    var buffer := Overwrite(m.headerBuffer, m.headerPos, input[..HEADER_SIZE - m.received]);
    var h := DecodeHeader(buffer);
    Msg(h, m.received + |input|, true, buffer, HEADER_SIZE, seq(h.length, _ => 0), 0, false)
  }

  function Consume(rule: CursorRule, m: Msg, input: Bytes): (r: Outcome)
    requires Unfinished(m)
    ensures r.Consumed? ==> r.count <= |input| && (input != [] ==> r.count > 0)
    ensures r.Consumed? && !r.message.bodyReady ==> Unfinished(r.message) && r.count == |input|
  {
    if m.headerReceived then
      ConsumeBody(rule, m.(received := m.received + |input|), input, 0)
    else if m.received + |input| >= HEADER_SIZE then
      var overage := m.received + |input| - HEADER_SIZE;
      var needed := |input| - overage;
      var h := DecodeHeader(Overwrite(m.headerBuffer, m.headerPos, input[..needed]));
      if h.length < 0 then Faulted(BadLength)
      else if !KnownOpcode(h.opcode) then Faulted(BadOpcode)
      else ConsumeBody(rule, WithHeader(m, input), input, needed)
    else
      Consumed(|input|, m.(received := m.received + |input|, headerPos := m.headerPos + |input|,
                           headerBuffer := Overwrite(m.headerBuffer, m.headerPos, input)))
  }

  // ---------------------------------------------------------------------------------------------
  // The connection's loop
  // ---------------------------------------------------------------------------------------------

  datatype Held = Holding(message: Msg) | Broken(fault: Fault)

  datatype Fed = Fed(frames: seq<Frame>, held: Held)

  /** `ClientConnection::consume` on one chunk: consume, hand over a finished message, go on. */
  function Feed(rule: CursorRule, m: Msg, input: Bytes): (r: Fed)
    requires Unfinished(m)
    ensures r.held.Holding? ==> Unfinished(r.held.message)
    decreases |input|
  {
    if input == [] then Fed([], Holding(m))
    else
      match Consume(rule, m, input)
      case Faulted(f) => Fed([], Broken(f))
      case Consumed(n, m') =>
        if m'.bodyReady then
          var more := Feed(rule, Fresh(), input[n..]);
          more.(frames := [Frame(m'.header, m'.bodyBuffer)] + more.frames)
        else Feed(rule, m', input[n..])
  }

  /** A run over all the chunks that arrive; nothing happens after a fault. */
  function FeedAll(rule: CursorRule, m: Msg, chunks: seq<Bytes>): (r: Fed)
    requires Unfinished(m)
    ensures r.held.Holding? ==> Unfinished(r.held.message)
    decreases |chunks|
  {
    if chunks == [] then Fed([], Holding(m))
    else
      var n := |chunks| - 1;
      var before := FeedAll(rule, m, chunks[..n]);
      if before.held.Broken? then before
      else
        var now := Feed(rule, before.held.message, chunks[n]);
        Fed(before.frames + now.frames, now.held)
  }

  function Concat(chunks: seq<Bytes>): Bytes {
    if chunks == [] then [] else Concat(chunks[..|chunks| - 1]) + chunks[|chunks| - 1]
  }

  lemma ConcatSnoc(chunks: seq<Bytes>, c: Bytes)
    ensures Concat(chunks + [c]) == Concat(chunks) + c
  {
    assert (chunks + [c])[..|chunks|] == chunks;
  }

  // ---------------------------------------------------------------------------------------------
  // Chunking independence
  // ---------------------------------------------------------------------------------------------

  /** m holds exactly the bytes pre of an incomplete frame, each where it belongs. */
  ghost predicate Holds(m: Msg, pre: Bytes) {
    && Unfinished(m) && m.received == |pre|
    && (m.headerReceived <==> |pre| >= HEADER_SIZE)
    && (!m.headerReceived ==> m.headerBuffer[..|pre|] == pre)
    && (m.headerReceived ==>
          && m.header == DecodeHeader(pre) && KnownOpcode(m.header.opcode)
          && m.bodyPos == |pre| - HEADER_SIZE
          && m.bodyBuffer[..m.bodyPos] == pre[HEADER_SIZE..])
  }

  /** What one call must do, given the bytes held before it and its input. */
  ghost predicate CallIsRight(r: Outcome, pre: Bytes, input: Bytes) {
    match FirstFrame(pre + input)
    case Incomplete => r.Consumed? && r.count == |input| && !r.message.bodyReady && Holds(r.message, pre + input)
    case Malformed(f) => r == Faulted(f)
    case Complete(frame, size) =>
      && r.Consumed? && r.count == size - |pre| && r.message.bodyReady
      && Frame(r.message.header, r.message.bodyBuffer) == frame
  }

  lemma HeaderOfPrefix(s: Bytes, t: Bytes)
    requires |s| >= HEADER_SIZE && |t| >= HEADER_SIZE && s[..HEADER_SIZE] == t[..HEADER_SIZE]
    ensures DecodeHeader(s) == DecodeHeader(t)
  {
    forall i: nat | i < HEADER_SIZE ensures s[i] == t[i] {
      assert s[i] == s[..HEADER_SIZE][i] && t[i] == t[..HEADER_SIZE][i];
    }
  }

  /** The body half of a call, once the header is known. */
  lemma BodyIsRight(m: Msg, s: Bytes, input: Bytes, used: nat)
    requires used <= |input| && |s| == m.received >= HEADER_SIZE + |input| - used
    requires m.headerReceived && !m.bodyReady && |m.headerBuffer| == HEADER_SIZE
    requires m.header == DecodeHeader(s) && KnownOpcode(m.header.opcode) && m.header.length >= 0
    requires |s| - (|input| - used) <= HEADER_SIZE + m.header.length
    requires |m.bodyBuffer| == m.header.length && m.bodyPos == |s| - (|input| - used) - HEADER_SIZE
    requires m.bodyBuffer[..m.bodyPos] == s[HEADER_SIZE..HEADER_SIZE + m.bodyPos]
    requires input[used..] == s[HEADER_SIZE + m.bodyPos..]
    ensures var r := ConsumeBody(ByCopied, m, input, used);
            match FirstFrame(s)
            case Incomplete => r.Consumed? && r.count == |input| && !r.message.bodyReady && Holds(r.message, s)
            case Malformed(f) => r == Faulted(f)
            case Complete(frame, size) =>
              && r.Consumed? && r.count == size - (|s| - |input|) && r.message.bodyReady
              && Frame(r.message.header, r.message.bodyBuffer) == frame
  {
    var p, len := m.bodyPos, m.header.length;
    var r := ConsumeBody(ByCopied, m, input, used);
    if |s| >= HEADER_SIZE + len {
      var needed := len - p;
      var piece := input[used..used + needed];
      assert piece == input[used..][..needed] == s[HEADER_SIZE + p..HEADER_SIZE + len];
      assert s[HEADER_SIZE..HEADER_SIZE + len] == s[HEADER_SIZE..HEADER_SIZE + p] + piece;
      assert m.bodyBuffer[..p] + piece + m.bodyBuffer[len..] == s[HEADER_SIZE..HEADER_SIZE + len];
      assert piece == [] ==> m.bodyBuffer == m.bodyBuffer[..p];
    } else {
      var piece := input[used..];
      assert s[HEADER_SIZE..] == s[HEADER_SIZE..HEADER_SIZE + p] + piece;
      assert (m.bodyBuffer[..p] + piece + m.bodyBuffer[p + |piece|..])[..p + |piece|] == s[HEADER_SIZE..];
      assert piece == [] ==> m.bodyBuffer[..p] == s[HEADER_SIZE..];
    }
  }

  /** The call that completes the header. */
  lemma HeaderIsRight(m: Msg, pre: Bytes, input: Bytes)
    requires Holds(m, pre) && !m.headerReceived && |pre + input| >= HEADER_SIZE
    ensures CallIsRight(Consume(ByCopied, m, input), pre, input)
  {
    var s := pre + input;
    var needed := HEADER_SIZE - |pre|;
    var buffer := Overwrite(m.headerBuffer, m.headerPos, input[..needed]);
    assert buffer == pre + input[..needed] == s[..HEADER_SIZE];
    HeaderOfPrefix(buffer, s);
    if DecodeHeader(s).length >= 0 && KnownOpcode(DecodeHeader(s).opcode) {
      assert input[needed..] == s[HEADER_SIZE..];
      BodyIsRight(WithHeader(m, input), s, input, needed);
    }
  }

  /** One call of the repaired `consume` assembles exactly the next piece of the stream. */
  lemma ConsumeIsRight(m: Msg, pre: Bytes, input: Bytes)
    requires Holds(m, pre) && input != []
    ensures CallIsRight(Consume(ByCopied, m, input), pre, input)
  {
    var s := pre + input;
    if m.headerReceived {
      HeaderOfPrefix(pre, s);
      var p := m.bodyPos;
      assert s[HEADER_SIZE..HEADER_SIZE + p] == pre[HEADER_SIZE..];
      assert input[0..] == s[HEADER_SIZE + p..];
      BodyIsRight(m.(received := m.received + |input|), s, input, 0);
    } else if |s| >= HEADER_SIZE {
      HeaderIsRight(m, pre, input);
    } else {
      assert Overwrite(m.headerBuffer, m.headerPos, input)[..|s|] == s;
    }
  }

  lemma HeldIsIncomplete(m: Msg, pre: Bytes)
    requires Holds(m, pre)
    ensures FirstFrame(pre) == Incomplete
  {
  }

  /** The held state left by a feed stands for the tail the parser leaves. */
  ghost predicate HeldIs(held: Held, tail: Tail) {
    match tail
    case Partial(rest) => held.Holding? && Holds(held.message, rest)
    case Stopped(f) => held == Broken(f)
  }

  lemma {:induction false} FeedIsParse(m: Msg, pre: Bytes, input: Bytes)
    requires Holds(m, pre)
    ensures Feed(ByCopied, m, input).frames == ParseAll(pre + input).frames
    ensures HeldIs(Feed(ByCopied, m, input).held, ParseAll(pre + input).tail)
    decreases |input|
  {
    if input == [] {
      assert pre + input == pre;
      HeldIsIncomplete(m, pre);
    } else {
      ConsumeIsRight(m, pre, input);
      var s := pre + input;
      match FirstFrame(s)
      case Malformed(f) =>
      case Incomplete =>
        assert input[|input|..] == [];
      case Complete(frame, size) =>
        HeldIsIncomplete(m, pre);
        FirstAppend(pre, input);
        RestOfInput(pre, input, size);
        FeedIsParse(Fresh(), [], input[size - |pre|..]);
    }
  }

  lemma RestOfInput(pre: Bytes, input: Bytes, size: nat)
    requires |pre| <= size <= |pre + input|
    ensures (pre + input)[size..] == input[size - |pre|..] == [] + input[size - |pre|..]
  {
  }

  /** Parsing more bytes continues from the unparsed rest, or stays stopped. */
  lemma {:induction false} ParseAppend(s: Bytes, t: Bytes)
    ensures match ParseAll(s).tail
            case Partial(rest) =>
              && ParseAll(s + t).frames == ParseAll(s).frames + ParseAll(rest + t).frames
              && ParseAll(s + t).tail == ParseAll(rest + t).tail
            case Stopped(f) => ParseAll(s + t) == ParseAll(s)
    decreases |s|
  {
    FirstAppend(s, t);
    match FirstFrame(s)
    case Incomplete =>
      assert [] + ParseAll(s + t).frames == ParseAll(s + t).frames;
    case Malformed(f) =>
    case Complete(frame, size) =>
      ParseAppend(s[size..], t);
      assert (s + t)[size..] == s[size..] + t;
      ConsFrames(frame, ParseAll(s[size..]).frames);
  }

  lemma ConsFrames(frame: Frame, frames: seq<Frame>)
    ensures forall more: seq<Frame> :: [frame] + (frames + more) == [frame] + frames + more
  {
  }

  /** A first frame that is settled stays as it is when more bytes follow. */
  lemma FirstAppend(s: Bytes, t: Bytes)
    ensures !FirstFrame(s).Incomplete? ==> FirstFrame(s + t) == FirstFrame(s)
  {
    if |s| >= HEADER_SIZE {
      assert (s + t)[..HEADER_SIZE] == s[..HEADER_SIZE];
      HeaderOfPrefix(s, s + t);
      var n := HEADER_SIZE + DecodeHeader(s).length;
      if HEADER_SIZE <= n <= |s| {
        assert (s + t)[HEADER_SIZE..n] == s[HEADER_SIZE..n];
      }
    }
  }

  /**
   With the cursor moved by the bytes copied, every cut of every byte stream gives the frames of the
   uncut stream in order, stops where the uncut stream is malformed, and otherwise holds exactly
   the unparsed rest.
   */
  lemma {:induction false} ChunkingIndependent(chunks: seq<Bytes>)
    ensures FeedAll(ByCopied, Fresh(), chunks).frames == ParseAll(Concat(chunks)).frames
    ensures HeldIs(FeedAll(ByCopied, Fresh(), chunks).held, ParseAll(Concat(chunks)).tail)
    decreases |chunks|
  {
    if chunks != [] {
      var n := |chunks| - 1;
      ChunkingIndependent(chunks[..n]);
      ParseAppend(Concat(chunks[..n]), chunks[n]);
      var before := FeedAll(ByCopied, Fresh(), chunks[..n]);
      match ParseAll(Concat(chunks[..n])).tail
      case Stopped(_) =>
      case Partial(rest) => FeedIsParse(before.held.message, rest, chunks[n]);
    }
  }

  // ---------------------------------------------------------------------------------------------
  // The code as written
  // ---------------------------------------------------------------------------------------------

  /** No chunk ends inside a body: after each one, less than a header is left over. */
  predicate BodiesWhole(chunks: seq<Bytes>)
    decreases |chunks|
  {
    BoundaryClean(Concat(chunks)) && (chunks == [] || BodiesWhole(chunks[..|chunks| - 1]))
  }

  predicate BoundaryClean(s: Bytes) {
    ParseAll(s).tail.Partial? ==> |ParseAll(s).tail.rest| < HEADER_SIZE
  }

  /** The body cursor stands further right than the bytes received for the body. */
  ghost predicate Displaced(held: Held) {
    || held == Broken(Overrun)
    || (held.Holding? && Unfinished(held.message) && held.message.headerReceived
        && held.message.bodyPos > held.message.received - HEADER_SIZE)
  }

  /** Once displaced, always displaced, and nothing is ever delivered again. */
  lemma {:induction false} DisplacedForever(m: Msg, input: Bytes)
    requires Displaced(Holding(m))
    ensures Feed(BySize, m, input).frames == [] && Displaced(Feed(BySize, m, input).held)
    decreases |input|
  {
    if input != [] {
      var r := Consume(BySize, m, input);
      if r.Consumed? {
        assert !r.message.bodyReady && r.count == |input|;
        assert input[|input|..] == [];
        DisplacedForever(r.message, []);
      }
    }
  }

  /** On one call, starting short of a header, the two rules part just where the input ends inside the body. */
  lemma OneCall(m: Msg, pre: Bytes, input: Bytes)
    requires Holds(m, pre) && |pre| < HEADER_SIZE && input != []
    ensures var s, r := pre + input, Consume(BySize, m, input);
            if FirstFrame(s).Incomplete? && |s| >= HEADER_SIZE
            then && r.Consumed? && r.count == |input| && !r.message.bodyReady && Displaced(Holding(r.message))
                 && r.message.bodyPos == |input| && r.message.received == |s|
            else r == Consume(ByCopied, m, input)
  {
    ConsumeIsRight(m, pre, input);
  }

  /** On one chunk, starting short of a header, they part exactly at an unclean boundary. */
  lemma {:induction false} OneChunk(m: Msg, pre: Bytes, input: Bytes)
    requires Holds(m, pre) && |pre| < HEADER_SIZE
    ensures BoundaryClean(pre + input) ==> Feed(BySize, m, input) == Feed(ByCopied, m, input)
    ensures !BoundaryClean(pre + input) ==> Displaced(Feed(BySize, m, input).held)
    decreases |input|
  {
    var s := pre + input;
    if input == [] {
      assert s == pre;
      HeldIsIncomplete(m, pre);
    } else {
      OneCall(m, pre, input);
      ConsumeIsRight(m, pre, input);
      match FirstFrame(s)
      case Malformed(f) =>
      case Incomplete =>
        assert input[|input|..] == [];
      case Complete(frame, size) =>
        RestOfInput(pre, input, size);
        OneChunk(Fresh(), [], input[size - |pre|..]);
    }
  }

  lemma {:induction false} CleanSoFar(chunks: seq<Bytes>)
    ensures BodiesWhole(chunks) ==> FeedAll(BySize, Fresh(), chunks) == FeedAll(ByCopied, Fresh(), chunks)
    ensures !BodiesWhole(chunks) ==> Displaced(FeedAll(BySize, Fresh(), chunks).held)
    decreases |chunks|
  {
    if chunks != [] {
      var n := |chunks| - 1;
      CleanSoFar(chunks[..n]);
      var before := FeedAll(BySize, Fresh(), chunks[..n]);
      if !BodiesWhole(chunks[..n]) {
        if before.held.Holding? { DisplacedForever(before.held.message, chunks[n]); }
      } else {
        ChunkingIndependent(chunks[..n]);
        ParseAppend(Concat(chunks[..n]), chunks[n]);
        match ParseAll(Concat(chunks[..n])).tail
        case Stopped(_) =>
        case Partial(rest) =>
          OneChunk(before.held.message, rest, chunks[n]);
      }
    }
  }

  /**
   The code as written assembles what the repaired code assembles if and only if no chunk ends
   inside a body; otherwise its body cursor is displaced for good.
   */
  lemma AsWrittenIff(chunks: seq<Bytes>)
    ensures FeedAll(BySize, Fresh(), chunks) == FeedAll(ByCopied, Fresh(), chunks) <==> BodiesWhole(chunks)
  {
    CleanSoFar(chunks);
    ChunkingIndependent(chunks);
    if !BodiesWhole(chunks) {
      NotDisplaced(chunks);
    }
  }

  /** One frame with a one-byte body, cut right after its header: the code writes past the buffer. */
  lemma CutInsideBodyOverruns()
    ensures var chunks: seq<Bytes> := [[2, 0, 0, 0, 0, 0, 0, 1], [7]];
            && FeedAll(BySize, Fresh(), chunks) == Fed([], Broken(Overrun))
            && FeedAll(ByCopied, Fresh(), chunks).frames == [Frame(Header(2, 0, 0, 0, 1), [7])]
  {
    var head: Bytes, body: Bytes := [2, 0, 0, 0, 0, 0, 0, 1], [7];
    var chunks := [head, body];
    assert chunks[..1] == [head] && [head][..0] == [] && Concat([head]) == head && Concat(chunks) == head + body;
    ChunkingIndependent(chunks);
    var s := head + body;
    assert DecodeHeader(s) == Header(2, 0, 0, 0, 1) && s[8..9] == [7] && |s[9..]| == 0;
    assert ParseAll(s).frames == [Frame(Header(2, 0, 0, 0, 1), [7])] + ParseAll(s[9..]).frames;
    CutRun(head, body);
  }

  lemma CutRun(head: Bytes, body: Bytes)
    requires head == [2, 0, 0, 0, 0, 0, 0, 1] && body == [7]
    ensures FeedAll(BySize, Fresh(), [head, body]) == Fed([], Broken(Overrun))
  {
    var m := Fresh();
    assert Overwrite(m.headerBuffer, 0, head[..8]) == head;
    assert DecodeHeader(head) == Header(2, 0, 0, 0, 1);
    var r := Consume(BySize, m, head);
    assert r.Consumed? && r.count == 8 && r.message.bodyPos == 8 && head[8..] == [];
    assert Feed(BySize, m, head) == Feed(BySize, r.message, []) == Fed([], Holding(r.message));
    assert Feed(BySize, r.message, body) == Fed([], Broken(Overrun));
    assert [head, body][..1] == [head] && [head][..0] == [];
    assert FeedAll(BySize, m, [head]) == Fed([], Holding(r.message));
  }

  lemma {:induction false} ParseNeverOverruns(s: Bytes)
    ensures ParseAll(s).tail != Stopped(Overrun)
    decreases |s|
  {
    if FirstFrame(s).Complete? {
      ParseNeverOverruns(s[FirstFrame(s).size..]);
    }
  }

  /** Moved by the bytes copied, the body cursor stands where the bytes received say after any cut. */
  lemma NotDisplaced(chunks: seq<Bytes>)
    ensures var held := FeedAll(ByCopied, Fresh(), chunks).held;
            && !Displaced(held)
            && match ParseAll(Concat(chunks)).tail
               case Stopped(f) => held == Broken(f)
               case Partial(rest) =>
                 && held.Holding? && held.message.received == |rest|
                 && (held.message.headerReceived <==> |rest| >= HEADER_SIZE)
                 && (held.message.headerReceived ==> held.message.bodyPos == |rest| - HEADER_SIZE)
  {
    ChunkingIndependent(chunks);
    ParseNeverOverruns(Concat(chunks));
  }
}

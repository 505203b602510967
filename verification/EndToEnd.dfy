/** From prepared messages, over a byte stream cut anywhere, back to the same messages. */
module EndToEnd {
  import opened Prelude
  import opened Bytes
  import opened Protocol
  import opened ErrorBody
  import opened StartupBody
  import opened Messages
  import F = Framing

  datatype Content = ErrorContent(error: Error) | StartupContent(startup: Startup)

  datatype Mail = Mail(version: byte, flags: int, stream: int, content: Content)

  function EncContent(c: Content): Bytes {
    match c
    case ErrorContent(e) => EncError(e)
    case StartupContent(s) => EncStartup(s)
  }

  function HeaderOf(m: Mail): F.Header {
    F.Header(m.version, m.flags, m.stream, if m.content.ErrorContent? then OPCODE_ERROR else OPCODE_STARTUP,
             |EncContent(m.content)|)
  }

  /** What `Message::prepare` produces. */
  function EncMail(m: Mail): Bytes {
    EncHeader(HeaderOf(m)) + EncContent(m.content)
  }

  function EncMails(ms: seq<Mail>): Bytes {
    if ms == [] then [] else EncMail(ms[0]) + EncMails(ms[1..])
  }

  /** The receiver's reading of a frame; a STARTUP body is consumed into a fresh object. */
  function ReadFrame(f: F.Frame): Option<Mail> {
    var h := f.header;
    if h.opcode == OPCODE_ERROR then
      var e := GetError(f.body);
      if e.None? then None else Some(Mail(h.version, h.flags, h.stream, ErrorContent(e.value)))
    else if h.opcode == OPCODE_STARTUP then
      var s := GetStartup(f.body, FRESH);
      if s.None? then None else Some(Mail(h.version, h.flags, h.stream, StartupContent(s.value)))
    else None
  }

  predicate ContentFits(c: Content) {
    match c
    case ErrorContent(e) => ErrorFits(e)
    case StartupContent(s) => StartupFits(s)
  }

  predicate MailFits(m: Mail) {
    -0x80 <= m.flags < 0x80 && -0x80 <= m.stream < 0x80 && ContentFits(m.content)
  }

  lemma HeaderRoundTrip(h: F.Header, t: Bytes)
    ensures F.DecodeHeader(EncHeader(h) + t)
         == F.Header(h.version, Int8(h.flags % 256), Int8(h.stream % 256), h.opcode, Int32(h.length % 0x1_0000_0000))
  {
    var b := EncHeader(h) + t;
    assert At(b, 4, EncInt(h.length));
    IntAt(b, 4, h.length);
  }

  lemma ContentSize(c: Content)
    requires ContentFits(c)
    ensures |EncContent(c)| < 0x8000_0000
  {
    if c.StartupContent? { OptionsSize(c.startup); }
  }

  /** The frame a message becomes: its header as eight bytes carry it, and its body. */
  function FrameOf(m: Mail): F.Frame {
    F.Frame(F.DecodeHeader(EncHeader(HeaderOf(m))), EncContent(m.content))
  }

  /** Reading back one message succeeds exactly when its fields fit their encodings. */
  lemma ReadFrameIff(m: Mail)
    ensures ReadFrame(FrameOf(m)) == Some(m) <==> MailFits(m)
  {
    var h := HeaderOf(m);
    assert EncHeader(h) + [] == EncHeader(h);
    HeaderRoundTrip(h, []);
    SignedReadings(m.flags);
    SignedReadings(m.stream);
    match m.content
    case ErrorContent(e) => ErrorRoundTripIff(e);
    case StartupContent(s) => StartupRoundTripIff(s);
  }

  /** A prepared message at the front of a stream is its first frame. */
  lemma FirstIsMail(m: Mail, t: Bytes)
    requires MailFits(m)
    ensures F.FirstFrame(EncMail(m) + t) == F.Complete(FrameOf(m), |EncMail(m)|)
  {
    var s, h, body := EncMail(m) + t, HeaderOf(m), EncContent(m.content);
    assert s == EncHeader(h) + (body + t);
    HeaderRoundTrip(h, body + t);
    assert EncHeader(h) + [] == EncHeader(h);
    HeaderRoundTrip(h, []);
    ContentSize(m.content);
    SignedReadings(|body|);
    assert s[HEADER_SIZE..HEADER_SIZE + |body|] == body;
  }

  function FramesOf(ms: seq<Mail>): (r: seq<F.Frame>)
    ensures |r| == |ms| && forall i | 0 <= i < |ms| :: r[i] == FrameOf(ms[i])
  {
    if ms == [] then [] else [FrameOf(ms[0])] + FramesOf(ms[1..])
  }

  lemma {:induction false} MailsParse(ms: seq<Mail>)
    requires forall m | m in ms :: MailFits(m)
    ensures F.ParseAll(EncMails(ms)) == F.Parse(FramesOf(ms), F.Partial([]))
    decreases |ms|
  {
    if ms != [] {
      var first, rest := EncMail(ms[0]), EncMails(ms[1..]);
      FirstIsMail(ms[0], rest);
      MailsParse(ms[1..]);
      assert (first + rest)[|first|..] == rest;
    }
  }

  /** The frames read as exactly these messages, in order. */
  ghost predicate ReadAs(frames: seq<F.Frame>, ms: seq<Mail>) {
    |frames| == |ms| && forall i | 0 <= i < |ms| :: ReadFrame(frames[i]) == Some(ms[i])
  }

  /** The feed delivered exactly these messages and is between two frames. */
  ghost predicate Delivers(fed: F.Fed, ms: seq<Mail>) {
    && ReadAs(fed.frames, ms)
    && fed.held.Holding? && F.Holds(fed.held.message, [])
  }

  lemma FramesRead(ms: seq<Mail>)
    requires forall m | m in ms :: MailFits(m)
    ensures ReadAs(FramesOf(ms), ms)
  {
    forall i | 0 <= i < |ms| ensures ReadFrame(FramesOf(ms)[i]) == Some(ms[i]) {
      ReadFrameIff(ms[i]);
    }
  }

  lemma RepairedDelivers(ms: seq<Mail>, chunks: seq<Bytes>)
    requires forall m | m in ms :: MailFits(m)
    requires F.Concat(chunks) == EncMails(ms)
    ensures Delivers(F.FeedAll(F.ByCopied, F.Fresh(), chunks), ms)
  {
    MailsParse(ms);
    F.ChunkingIndependent(chunks);
    FramesRead(ms);
  }

  lemma DisplacedDeliversNot(fed: F.Fed, ms: seq<Mail>)
    requires F.Displaced(fed.held)
    ensures !Delivers(fed, ms)
  {
  }

  /**
   Any list of messages, prepared one after another and cut into any chunks, comes back as the same
   list; the code as written does the same exactly when no chunk ends inside a body.
   */
  lemma PreparedMailsArrive(ms: seq<Mail>, chunks: seq<Bytes>)
    requires forall m | m in ms :: MailFits(m)
    requires F.Concat(chunks) == EncMails(ms)
    ensures Delivers(F.FeedAll(F.ByCopied, F.Fresh(), chunks), ms)
    ensures Delivers(F.FeedAll(F.BySize, F.Fresh(), chunks), ms) <==> F.BodiesWhole(chunks)
  {
    RepairedDelivers(ms, chunks);
    F.CleanSoFar(chunks);
    if !F.BodiesWhole(chunks) {
      DisplacedDeliversNot(F.FeedAll(F.BySize, F.Fresh(), chunks), ms);
    }
  }

  /** One chunk for each message. */
  function OneChunkEach(ms: seq<Mail>): (chunks: seq<Bytes>)
    ensures |chunks| == |ms|
  {
    if ms == [] then [] else OneChunkEach(ms[..|ms| - 1]) + [EncMail(ms[|ms| - 1])]
  }

  lemma {:induction false} ChunksAreMails(ms: seq<Mail>)
    ensures F.Concat(OneChunkEach(ms)) == EncMails(ms)
    decreases |ms|
  {
    if ms != [] {
      var n := |ms| - 1;
      ChunksAreMails(ms[..n]);
      EncMailsSnoc(ms[..n], ms[n]);
      SplitLast(ms);
      F.ConcatSnoc(OneChunkEach(ms[..n]), EncMail(ms[n]));
    }
  }

  /** Sent one chunk for each message, the messages arrive under the code as written too. */
  lemma {:induction false} WholeMessagesAreClean(ms: seq<Mail>)
    requires forall m | m in ms :: MailFits(m)
    ensures F.Concat(OneChunkEach(ms)) == EncMails(ms) && F.BodiesWhole(OneChunkEach(ms))
    decreases |ms|
  {
    ChunksAreMails(ms);
    MailsParse(ms);
    assert F.BoundaryClean(EncMails(ms));
    if ms != [] {
      var n := |ms| - 1;
      WholeMessagesAreClean(ms[..n]);
      assert OneChunkEach(ms)[..n] == OneChunkEach(ms[..n]);
    }
  }

  lemma {:induction false} EncMailsSnoc(ms: seq<Mail>, m: Mail)
    ensures EncMails(ms + [m]) == EncMails(ms) + EncMail(m)
    decreases |ms|
  {
    if ms == [] {
      assert (ms + [m])[1..] == [];
    } else {
      EncMailsSnoc(ms[1..], m);
      assert (ms + [m])[1..] == ms[1..] + [m];
      Associative(EncMail(ms[0]), EncMails(ms[1..]), EncMail(m));
    }
  }

  /** `Message::prepare` on an ERROR body. */
  method PrepareError(message: Message, body: BodyError) returns (output: array<byte>)
    requires message.opcode == OPCODE_ERROR
    modifies message`length
    ensures fresh(output)
    ensures output[..] == EncMail(Mail(message.version, message.flags, message.stream, ErrorContent(body.Value())))
    ensures message.length == |EncError(body.Value())|
  {
    output := body.Prepare(HEADER_SIZE);
    message.Prepare(output);
  }

  /** `Message::prepare` on a STARTUP body. */
  method PrepareStartup(message: Message, body: BodyStartup) returns (output: array<byte>)
    requires message.opcode == OPCODE_STARTUP
    modifies message`length
    ensures fresh(output)
    ensures output[..] == EncMail(Mail(message.version, message.flags, message.stream, StartupContent(body.Value())))
    ensures message.length == |EncStartup(body.Value())|
  {
    output := body.Prepare(HEADER_SIZE);
    message.Prepare(output);
  }
}

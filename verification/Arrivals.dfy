/** From the bytes of a response, cut anywhere, to the step the connection takes. */
module Arrivals {
  import opened Bytes
  import opened Codecs
  import opened Serialization
  import opened Connection
  import opened ClientConnections
  import opened EndToEnd
  import opened Messages
  import E = ErrorBody
  import F = Framing
  import R = ResultBody

  // ---------------------------------------------------------------------------------------------
  // The first frame of a byte string
  // ---------------------------------------------------------------------------------------------

  predicate HeaderFits(h: F.Header) {
    -0x80 <= h.flags < 0x80 && -0x80 <= h.stream < 0x80 && -0x8000_0000 <= h.length < 0x8000_0000
  }

  lemma HeaderUndone(h: F.Header, t: Bytes)
    requires HeaderFits(h)
    ensures F.DecodeHeader(EncHeader(h) + t) == h
  {
    HeaderRoundTrip(h, t);
    SignedReadings(h.flags);
    SignedReadings(h.stream);
    SignedReadings(h.length);
  }

  /** Every eight bytes are the header they decode to. */
  lemma EveryHeader(s: Bytes)
    requires |s| >= 8
    ensures HeaderFits(F.DecodeHeader(s)) && s == EncHeader(F.DecodeHeader(s)) + s[8..]
  {
    var n := U32(s, 4);
    LowBytes(s[4], s[5], s[6], s[7]);
    assert EncInt(Int32(n)) == EncInt(n) by { SameLowBits(n); }
  }

  lemma OneByteLess(x: int, k: int)
    ensures (x - 256 * k) / 256 == x / 256 - k && (x - 256 * k) % 256 == x % 256
  {
  }

  lemma SameLowBits(n: nat)
    requires n < 0x1_0000_0000
    ensures EncInt(Int32(n)) == EncInt(n)
  {
    var m: int := n - 0x1_0000_0000;
    OneByteLess(n, 0x100_0000);
    OneByteLess(n / 256, 0x1_0000);
    OneByteLess(n / 256 / 256, 0x100);
    assert m / 256 == n / 256 - 0x100_0000 && m / 256 / 256 == n / 256 / 256 - 0x1_0000;
    assert (m / 256 / 256 / 256) % 256 == (n / 256 / 256 / 256) % 256;
  }

  lemma OneByteMore(x: int, d: byte)
    ensures (256 * x + d) / 256 == x && (256 * x + d) % 256 == d
  {
  }

  lemma LowBytes(a: byte, b: byte, c: byte, d: byte)
    ensures EncInt(0x100_0000 * (a as int) + 0x1_0000 * (b as int) + 0x100 * (c as int) + d) == [a, b, c, d]
  {
    var x: int := a;
    OneByteMore(0, a);
    OneByteMore(x, b);
    OneByteMore(256 * x + b, c);
    OneByteMore(256 * (256 * x + b) + c, d);
  }

  /**
   What becomes of a header and what follows it: a negative length and an opcode without a body class
   are errors, a body that is not all there waits, and otherwise the frame is complete.  With
   EveryHeader this covers every byte string of eight bytes or more.
   */
  lemma FirstFrameIs(h: F.Header, rest: Bytes)
    requires HeaderFits(h)
    ensures F.FirstFrame(EncHeader(h) + rest)
         == if h.length < 0 then F.Malformed(F.BadLength)
            else if h.opcode !in {0, 1, 2, 5, 6, 7, 8, 9} then F.Malformed(F.BadOpcode)
            else if |rest| < h.length then F.Incomplete
            else F.Complete(F.Frame(h, rest[..h.length]), 8 + h.length)
  {
    var s := EncHeader(h) + rest;
    HeaderUndone(h, rest);
    assert 0 <= h.length <= |rest| ==> s[8..8 + h.length] == rest[..h.length];
  }

  // ---------------------------------------------------------------------------------------------
  // One message
  // ---------------------------------------------------------------------------------------------

  /** The chunks are one message with this header and body. */
  predicate OneMessage(chunks: seq<Bytes>, h: F.Header, body: Bytes) {
    && HeaderFits(h) && h.length == |body| && h.opcode in {0, 1, 2, 5, 6, 7, 8, 9}
    && F.Concat(chunks) == EncHeader(h) + body
  }

  lemma OneMessageParses(h: F.Header, body: Bytes)
    requires HeaderFits(h) && h.length == |body| && h.opcode in {0, 1, 2, 5, 6, 7, 8, 9}
    ensures F.ParseAll(EncHeader(h) + body) == F.Parse([F.Frame(h, body)], F.Partial([]))
  {
    FirstFrameIs(h, body);
    assert body[..|body|] == body;
    assert (EncHeader(h) + body)[8 + |body|..] == [];
    assert F.ParseAll([]) == F.Parse([], F.Partial([]));
  }

  /** However it is cut, a message is handled as the frame it is; as written for cuts that leave its body whole. */
  lemma MessageIsHandled(c: Conn, chunks: seq<Bytes>, h: F.Header, body: Bytes)
    requires OneMessage(chunks, h, body)
    ensures HandleAll(c, F.FeedAll(F.ByCopied, F.Fresh(), chunks).frames) == Handle(c, F.Frame(h, body))
    ensures F.BodiesWhole(chunks) ==>
              HandleAll(c, F.FeedAll(F.BySize, F.Fresh(), chunks).frames) == Handle(c, F.Frame(h, body))
  {
    CutsDoNotMatter(c, chunks);
    OneMessageParses(h, body);
    var fs := [F.Frame(h, body)];
    assert fs[..0] == [];
    assert HandleAll(c, fs) == Handle(c, fs[0]);
  }

  /** The step the connection takes on a message that arrives in these chunks. */
  ghost predicate Leads(c: Conn, chunks: seq<Bytes>, o: Outcome) {
    && HandleAll(c, F.FeedAll(F.ByCopied, F.Fresh(), chunks).frames) == o
    && (F.BodiesWhole(chunks) ==> HandleAll(c, F.FeedAll(F.BySize, F.Fresh(), chunks).frames) == o)
  }

  function Responded(c: Conn, h: F.Header, body: Body): Outcome {
    Step(c, Receive(Response(h.stream, body)))
  }

  /** A RESULT of any kind, opcode 8. */
  lemma ResultLeads(c: Conn, chunks: seq<Bytes>, h: F.Header, r: R.Result)
    requires OneMessage(chunks, h, R.EncResult(r)) && h.opcode == 8 && R.ResultFits(r)
    ensures Leads(c, chunks, Responded(c, h, ResultBody(match r
                                                         case Void => 1
                                                         case Rows(_, _, _) => 2
                                                         case SetKeyspace(_) => 3
                                                         case Prepared(_, _) => 4
                                                         case SchemaChange(_, _, _) => 5)))
  {
    MessageIsHandled(c, chunks, h, R.EncResult(r));
    ResultArrives(h, r);
  }

  /** A SUPPORTED, opcode 6. */
  lemma SupportedLeads(c: Conn, chunks: seq<Bytes>, h: F.Header, es: seq<MultiEntry>)
    requires OneMessage(chunks, h, EncMultimap(es)) && h.opcode == 6 && KeyedFits(ListFits, es)
    ensures Leads(c, chunks, Responded(c, h, SupportedBody))
  {
    var b := EncMultimap(es);
    MessageIsHandled(c, chunks, h, b);
    ListsExact(b);
    KeyedDecodes(CountedEncoder(EncString), CountedDecoder(GetString), ListFits, b, 0, es);
  }

  /** An ERROR, opcode 0. */
  lemma ErrorLeads(c: Conn, chunks: seq<Bytes>, h: F.Header, e: E.Error)
    requires OneMessage(chunks, h, E.EncError(e)) && h.opcode == 0 && E.ErrorFits(e)
    ensures Leads(c, chunks, Responded(c, h, ErrorBody))
  {
    MessageIsHandled(c, chunks, h, E.EncError(e));
    E.ErrorRoundTripIff(e);
  }

  /** A READY, opcode 2, whatever its body; and the opcodes a server does not send, on which the client asserts. */
  lemma OthersLead(c: Conn, chunks: seq<Bytes>, h: F.Header, body: Bytes)
    requires OneMessage(chunks, h, body)
    ensures h.opcode == 2 ==> Leads(c, chunks, Responded(c, h, ReadyBody))
    ensures h.opcode in {1, 5, 7, 9} ==> Leads(c, chunks, Faulted(Asserted))
  {
    MessageIsHandled(c, chunks, h, body);
  }

  /** A frame is unreadable exactly when its decoder leaves the body. */
  lemma UnreadableIff(c: Conn, f: F.Frame)
    ensures Handle(c, f) == Faulted(Unreadable) <==>
            (f.header.opcode == 0 && E.GetError(f.body).None?)
            || (f.header.opcode == 6 && GetMultimap(f.body, 0).None?)
            || (f.header.opcode == 8 && R.GetResult(f.body).None?)
  {
    var m := ResponseOf(f);
    if m.Some? { NeverUnreadable(c, m.value); }
  }

  lemma NeverUnreadable(c: Conn, m: Response)
    ensures Dispatch(c, m) != Faulted(Unreadable)
  {
  }
}

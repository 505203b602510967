/** The message object with its two buffers and cursors, and one turn of the loop that feeds it. */
module Messages {
  import opened Prelude
  import opened Bytes
  import opened Protocol
  import opened Buffers
  import F = Framing

  datatype Call = Took(count: nat) | Failed(fault: F.Fault)

  /** The eight header bytes `prepare` writes. */
  function EncHeader(h: F.Header): (r: Bytes)
    ensures |r| == HEADER_SIZE
  {
    [h.version, h.flags % 256, h.stream % 256, h.opcode] + EncInt(h.length)
  }

  class Message {
    var version: byte
    var flags: int
    var stream: int
    var opcode: byte
    var length: int
    var received: nat
    var headerReceived: bool
    const headerBuffer: array<byte>
    var headerBufferPos: nat
    var bodyBuffer: array<byte>
    var bodyBufferPos: nat
    var bodyReady: bool

    constructor ()
      ensures Value() == F.Fresh() && F.Unfinished(Value())
      ensures version == 2 && flags == stream == length == 0 && opcode == 0
      ensures fresh(headerBuffer) && fresh(bodyBuffer) && Separate()
    {
      version, flags, stream, opcode, length := 0x02, 0, 0, 0, 0;
      received, headerReceived, headerBufferPos := 0, false, 0;
      headerBuffer := new byte[8](_ => 0);
      bodyBuffer := new byte[0];
      bodyBufferPos, bodyReady := 0, false;
      new;
      assert headerBuffer[..] == [0, 0, 0, 0, 0, 0, 0, 0];
    }

    ghost predicate Separate()
      reads this
    {
      headerBuffer != bodyBuffer
    }

    ghost function Value(): F.Msg
      reads this, headerBuffer, bodyBuffer
    {
      F.Msg(F.Header(version, flags, stream, opcode, length), received, headerReceived,
            headerBuffer[..], headerBufferPos, bodyBuffer[..], bodyBufferPos, bodyReady)
    }

    /** A call does what the step function says with the cursor rule of the code; a fault ends the run. */
    ghost predicate Follows(r: Call, o: F.Outcome)
      reads this, headerBuffer, bodyBuffer
    {
      match o
      case Faulted(f) => r == Failed(f)
      case Consumed(n, m) => r == Took(n) && Value() == m
    }

    /** The body half of `consume`. */
    method ConsumeBody(input: Bytes, used: nat) returns (r: Call)
      requires Separate() && used <= |input| && headerReceived && length >= 0
      requires received >= HEADER_SIZE + |input| - used
      requires received - (|input| - used) <= HEADER_SIZE + length
      modifies this, bodyBuffer
      ensures bodyBuffer == old(bodyBuffer)
      ensures Follows(r, F.ConsumeBody(F.BySize, old(Value()), input, used))
    {
      if received - HEADER_SIZE >= length {
        var overage := received - length - HEADER_SIZE;
        var needed := (|input| - used) - overage;
        var piece := input[used..used + needed];
        if !F.Fits(bodyBuffer[..], bodyBufferPos, piece) { return Failed(F.Overrun); }
        CopyPiece(piece);
        bodyBufferPos := bodyBufferPos + needed;
        bodyReady := true;
        return Took(used + needed);
      } else {
        var piece := input[used..];
        if !F.Fits(bodyBuffer[..], bodyBufferPos, piece) { return Failed(F.Overrun); }
        CopyPiece(piece);
        bodyBufferPos := bodyBufferPos + |input|;
        return Took(|input|);
      }
    }

    /** memcpy to the body cursor. */
    method CopyPiece(piece: Bytes)
      requires F.Fits(bodyBuffer[..], bodyBufferPos, piece)
      modifies bodyBuffer
      ensures bodyBuffer[..] == F.CopyInto(old(bodyBuffer[..]), bodyBufferPos, piece)
    {
      if piece != [] {
        var end := Copy(bodyBuffer, bodyBufferPos, piece);
      }
    }

    /** The call that completes the header: decode it and allocate the body buffer. */
    method ReceiveHeader(input: Bytes, needed: nat) returns (fault: Option<F.Fault>)
      requires Separate() && needed <= |input| && headerBufferPos + needed == headerBuffer.Length == HEADER_SIZE
      modifies this, headerBuffer
      ensures Separate() && (bodyBuffer == old(bodyBuffer) || fresh(bodyBuffer))
      ensures var buffer := Overwrite(old(headerBuffer[..]), old(headerBufferPos), input[..needed]);
              var h := F.DecodeHeader(buffer);
              && (fault == Some(F.BadLength) <==> h.length < 0)
              && (fault == Some(F.BadOpcode) <==> h.length >= 0 && !F.KnownOpcode(h.opcode))
              && (fault == None <==> h.length >= 0 && F.KnownOpcode(h.opcode))
              && (fault == None ==> Value() == F.Msg(h, old(received), true, buffer, HEADER_SIZE,
                                                     seq(h.length, _ => 0), 0, old(bodyReady)))
    {
      var end := Copy(headerBuffer, headerBufferPos, input[..needed]);
      version := headerBuffer[0];
      flags := Int8(headerBuffer[1]);
      stream := Int8(headerBuffer[2]);
      opcode := headerBuffer[3];
      length := Int32(U32(headerBuffer[..], 4));
      headerBufferPos := HEADER_SIZE;
      headerReceived := true;
      if length < 0 { return Some(F.BadLength); }
      bodyBuffer := new byte[length](_ => 0);
      bodyBufferPos := 0;
      if !F.KnownOpcode(opcode) { return Some(F.BadOpcode); }
      assert bodyBuffer[..] == seq(length, _ => 0);
      return None;
    }

    method Consume(input: Bytes) returns (r: Call)
      requires F.Unfinished(Value()) && Separate()
      modifies this, headerBuffer, bodyBuffer
      ensures Separate() && (bodyBuffer == old(bodyBuffer) || fresh(bodyBuffer))
      ensures Follows(r, F.Consume(F.BySize, old(Value()), input))
    {
      ghost var before := Value();
      received := received + |input|;
      if !headerReceived {
        if received >= HEADER_SIZE {
          var overage := received - HEADER_SIZE;
          var needed := |input| - overage;
          var fault := ReceiveHeader(input, needed);
          if fault.Some? { return Failed(fault.value); }
          assert Value() == F.WithHeader(before, input);
          r := ConsumeBody(input, needed);
        } else {
          KeepHeaderPart(input);
          return Took(|input|);
        }
      } else {
        assert Value() == before.(received := before.received + |input|);
        r := ConsumeBody(input, 0);
      }
    }

    /** Not yet eight bytes: the whole input goes into the header buffer. */
    method KeepHeaderPart(input: Bytes)
      requires Separate() && headerBufferPos + |input| <= headerBuffer.Length
      modifies this`headerBufferPos, headerBuffer
      ensures Value() == old(Value()).(headerPos := old(headerBufferPos) + |input|,
                                       headerBuffer := Overwrite(old(headerBuffer[..]), old(headerBufferPos), input))
    {
      var end := Copy(headerBuffer, headerBufferPos, input);
      headerBufferPos := headerBufferPos + |input|;
    }

    /**
     `prepare` once the body has written itself behind the reserved bytes of `output`: the length is
     what the body left, and the header goes in front.
     */
    method Prepare(output: array<byte>)
      requires output.Length >= HEADER_SIZE
      modifies this`length, output
      ensures length == output.Length - HEADER_SIZE
      ensures output[..] == EncHeader(F.Header(version, flags, stream, opcode, length)) + old(output[HEADER_SIZE..])
    {
      length := output.Length - HEADER_SIZE;
      ghost var before := output[..];
      var end := Copy(output, 0, EncHeader(F.Header(version, flags, stream, opcode, length)));
      assert output[..] == output[..][0..HEADER_SIZE] + output[..][HEADER_SIZE..];
    }
  }

  /** The receiving side of the connection: the message in progress and the frames handed over. */
  class Receiver {
    var incoming: Message
    var delivered: seq<F.Frame>

    constructor ()
      ensures Ready() && incoming.Value() == F.Fresh() && delivered == []
      ensures fresh(Repr())
    {
      incoming := new Message();
      delivered := [];
    }

    ghost function Repr(): set<object>
      reads this, incoming
    {
      {incoming, incoming.headerBuffer, incoming.bodyBuffer}
    }

    ghost predicate Ready()
      reads this, incoming, incoming.headerBuffer, incoming.bodyBuffer
    {
      F.Unfinished(incoming.Value()) && incoming.Separate()
    }

    /** The frames of the feed have been handed over, and its held message is the one in progress. */
    ghost predicate After(was: seq<F.Frame>, fault: Option<F.Fault>, fed: F.Fed)
      reads this, incoming, incoming.headerBuffer, incoming.bodyBuffer
    {
      && delivered == was + fed.frames
      && match fed.held
         case Broken(f) => fault == Some(f)
         case Holding(m) => fault == None && Ready() && incoming.Value() == m
    }

    /** With `buffer` still to be fed, the run goes on as `all` says, starting from `was`. */
    ghost predicate Going(was: seq<F.Frame>, all: F.Fed, buffer: Bytes)
      reads this, incoming, incoming.headerBuffer, incoming.bodyBuffer
    {
      && Ready() && was <= delivered
      && FeedLeft(all, delivered[|was|..], incoming.Value(), buffer)
    }

    /** One turn of the loop: a call of `consume` and, when a message is finished, its delivery. */
    method Turn(buffer: Bytes, ghost was: seq<F.Frame>, ghost all: F.Fed) returns (r: Call)
      requires buffer != [] && Going(was, all, buffer)
      modifies this, Repr()
      ensures r.Failed? ==> After(was, Some(r.fault), all)
      ensures r.Took? ==> 0 < r.count <= |buffer| && Going(was, all, buffer[r.count..])
      ensures r.Failed? ==> delivered == old(delivered)
      ensures delivered == old(delivered) ||
              (|delivered| == |old(delivered)| + 1 && old(delivered) == delivered[..|old(delivered)|])
      ensures fresh(Repr() - old(Repr()))
    {
      FeedMoves(all, delivered[|was|..], incoming.Value(), buffer);
      r := incoming.Consume(buffer);
      if r.Took? && incoming.bodyReady {
        ghost var done := delivered[|was|..];
        Deliver();
        assert delivered[|was|..] == done + [delivered[|delivered| - 1]];
      }
    }

    /** A finished message is handed over and a new one takes its place. */
    method Deliver()
      modifies this
      ensures fresh(Repr()) && Ready() && incoming.Value() == F.Fresh()
      ensures delivered == old(delivered) + [F.Frame(old(incoming.Value()).header, old(incoming.Value()).bodyBuffer)]
    {
      var message := incoming;
      var frame := F.Frame(F.Header(message.version, message.flags, message.stream,
                                    message.opcode, message.length), message.bodyBuffer[..]);
      incoming := new Message();
      delivered := delivered + [frame];
    }
  }

  /** Feeding the rest of the chunk completes what has been delivered so far. */
  ghost predicate FeedLeft(all: F.Fed, done: seq<F.Frame>, m: F.Msg, buffer: Bytes) {
    F.Unfinished(m) &&
    var rest := F.Feed(F.BySize, m, buffer);
    all.frames == done + rest.frames && all.held == rest.held
  }

  lemma FeedDone(all: F.Fed, done: seq<F.Frame>, m: F.Msg)
    requires FeedLeft(all, done, m, [])
    ensures all == F.Fed(done, F.Holding(m))
  {
    assert done + [] == done;
  }

  /** One call of `consume` and, when a message is finished, its delivery. */
  lemma FeedMoves(all: F.Fed, done: seq<F.Frame>, m: F.Msg, buffer: Bytes)
    requires FeedLeft(all, done, m, buffer) && buffer != []
    ensures match F.Consume(F.BySize, m, buffer)
            case Faulted(f) => all == F.Fed(done, F.Broken(f))
            case Consumed(n, m') =>
              if m'.bodyReady then FeedLeft(all, done + [F.Frame(m'.header, m'.bodyBuffer)], F.Fresh(), buffer[n..])
              else FeedLeft(all, done, m', buffer[n..])
  {
    var r := F.Consume(F.BySize, m, buffer);
    if r.Consumed? && r.message.bodyReady {
      var frame := F.Frame(r.message.header, r.message.bodyBuffer);
      var rest := F.Feed(F.BySize, F.Fresh(), buffer[r.count..]);
      assert done + ([frame] + rest.frames) == done + [frame] + rest.frames;
    }
  }
}

/** The connection object: its handlers, and its loop over the bytes that arrive. */
module ClientConnections {
  import opened Prelude
  import opened Bytes
  import opened Protocol
  import opened Connection
  import opened Messages
  import E = ErrorBody
  import F = Framing
  import R = ResultBody
  import S = StreamStorage
  import Z = Serialization

  // ---------------------------------------------------------------------------------------------
  // From frames to responses
  // ---------------------------------------------------------------------------------------------

  /** What the handlers see of a frame; None when decoding its body leaves the body. */
  function ResponseOf(f: F.Frame): Option<Response> {
    var s, op := f.header.stream, f.header.opcode;
    if op == OPCODE_SUPPORTED then
      if Z.GetMultimap(f.body, 0).None? then None else Some(Response(s, SupportedBody))
    else if op == OPCODE_ERROR then
      if E.GetError(f.body).None? then None else Some(Response(s, ErrorBody))
    else if op == OPCODE_READY then Some(Response(s, ReadyBody))
    else if op == OPCODE_RESULT then
      var r := R.GetResult(f.body);
      if r.None? then None else Some(Response(s, ResultBody(R.Kind(r.value))))
    else Some(Response(s, OtherBody))
  }

  function Handle(c: Conn, f: F.Frame): Outcome {
    var m := ResponseOf(f);
    if m.None? then Faulted(Unreadable) else Dispatch(c, m.value)
  }

  /** The frames one after another, up to the first fault. */
  function HandleAll(c: Conn, fs: seq<F.Frame>): Outcome
    decreases |fs|
  {
    if fs == [] then Running(c) else
    match HandleAll(c, fs[..|fs| - 1])
    case Faulted(x) => Faulted(x)
    case Running(d) => Handle(d, fs[|fs| - 1])
  }

  lemma HandleOneMore(c: Conn, fs: seq<F.Frame>, f: F.Frame)
    ensures HandleAll(c, fs + [f])
         == match HandleAll(c, fs) case Faulted(x) => Faulted(x) case Running(d) => Handle(d, f)
  {
    assert (fs + [f])[..|fs|] == fs;
  }

  lemma {:induction false} FaultSticks(c: Conn, fs: seq<F.Frame>, gs: seq<F.Frame>)
    requires HandleAll(c, fs).Faulted?
    ensures HandleAll(c, fs + gs) == HandleAll(c, fs)
    decreases |gs|
  {
    if gs == [] {
      assert fs + gs == fs;
    } else {
      var n := |gs| - 1;
      FaultSticks(c, fs, gs[..n]);
      assert fs + gs == fs + gs[..n] + [gs[n]];
      HandleOneMore(c, fs + gs[..n], gs[n]);
    }
  }

  predicate AllReadable(fs: seq<F.Frame>) {
    forall f | f in fs :: ResponseOf(f).Some?
  }

  function Received(fs: seq<F.Frame>): seq<Event>
    requires AllReadable(fs)
  {
    seq(|fs|, i requires 0 <= i < |fs| => Receive(ResponseOf(fs[i]).value))
  }

  /** Handling readable frames is a run of the connection's state machine. */
  lemma {:induction false} HandledIsRun(c: Conn, fs: seq<F.Frame>)
    requires AllReadable(fs)
    ensures HandleAll(c, fs) == After(c, Received(fs))
    decreases |fs|
  {
    if fs != [] {
      var n := |fs| - 1;
      HandledIsRun(c, fs[..n]);
      assert Received(fs)[..n] == Received(fs[..n]);
    }
  }

  /**
   A chunk that arrives after any history of calls, lookups, connects and earlier responses leads to a
   state that history and the chunk's responses reach in the state machine, so whatever holds over all
   its runs holds of the object.
   */
  lemma ChunkIsRun(start: Conn, history: seq<Event>, c: Conn, fs: seq<F.Frame>)
    requires After(start, history) == Running(c) && AllReadable(fs)
    ensures HandleAll(c, fs) == After(start, history + Received(fs))
  {
    HandledIsRun(c, fs);
    AfterAppend(start, history, Received(fs));
  }

  /** A new object on which `init` is called is at the start of those runs. */
  lemma InitStarts(cells: nat)
    ensures EventReceived(Start(cells).(resolving := 0)) == Running(Start(cells))
  {
  }

  /**
   However the same bytes are cut, the repaired framing brings the connection to the same outcome, the
   one of handling the frames of the uncut stream; the code as written does so too for any cut that
   leaves bodies whole.
   */
  lemma CutsDoNotMatter(c: Conn, chunks: seq<Bytes>)
    ensures HandleAll(c, F.FeedAll(F.ByCopied, F.Fresh(), chunks).frames)
         == HandleAll(c, F.ParseAll(F.Concat(chunks)).frames)
    ensures F.BodiesWhole(chunks) ==>
              HandleAll(c, F.FeedAll(F.BySize, F.Fresh(), chunks).frames)
              == HandleAll(c, F.ParseAll(F.Concat(chunks)).frames)
  {
    F.ChunkingIndependent(chunks);
    F.AsWrittenIff(chunks);
  }

  /** A printed RESULT body reaches the handler with its own stream id and kind. */
  lemma ResultArrives(h: F.Header, r: R.Result)
    requires h.opcode == OPCODE_RESULT && R.ResultFits(r)
    ensures ResponseOf(F.Frame(h, R.EncResult(r))) == Some(Response(h.stream, ResultBody(R.Kind(r))))
  {
    R.ResultRoundTripIff(r);
  }

  /** A fault at some frame is the outcome of all of them. */
  lemma Stopped(c: Conn, done: seq<F.Frame>, all: seq<F.Frame>)
    requires HandleAll(c, done).Faulted? && done <= all
    ensures HandleAll(c, all) == HandleAll(c, done)
  {
    FaultSticks(c, done, all[|done|..]);
    assert done + all[|done|..] == all;
  }

  // ---------------------------------------------------------------------------------------------
  // The object
  // ---------------------------------------------------------------------------------------------

  /** Stopped in a handler or in the framing. */
  datatype Stop = InHandler(fault: Fault) | InFraming(cause: F.Fault)

  /**
   The stream storage is part of the object; what its operations do to it is module StreamStorage's
   Set and Get, and it has as many cells as the source gives it.
   */
  class ClientConnection {
    var phase: Phase
    var streams: S.Streams<Owner>
    const incoming: Receiver
    var resolving: nat
    var connecting: nat
    var created: nat
    var sent: seq<Sent>
    var notices: seq<Notice>
    var calls: seq<Callback>
    ghost var answered: set<int>
    ghost var kept: seq<int>

    constructor ()
      ensures Value() == Start(STREAM_ID_MAX).(resolving := 0)
      ensures fresh(incoming) && fresh(incoming.Repr()) && Valid()
    {
      phase := New;
      streams := S.Init(STREAM_ID_MAX, STREAM_ID_MAX);
      incoming := new Receiver();
      resolving, connecting, created := 0, 0, 0;
      sent, notices, calls := [], [], [];
      answered, kept := {}, [];
    }

    ghost predicate Valid()
      reads this, incoming, incoming.incoming, incoming.incoming.headerBuffer, incoming.incoming.bodyBuffer
    {
      incoming.Ready()
    }

    ghost function Value(): Conn
      reads this
    {
      Conn(phase, streams, resolving, connecting, created, sent, notices, calls, answered, kept)
    }

    /** The handler did what the step function says; after a fault nothing is said. */
    ghost predicate Follows(fault: Option<Fault>, o: Outcome)
      reads this
    {
      match o
      case Faulted(f) => fault == Some(f)
      case Running(c) => fault == None && Value() == c
    }

    /** `init`; called on a new object it leaves it at the start of the runs the theorems speak of. */
    method Init() returns (fault: Option<Fault>)
      modifies this
      ensures Follows(fault, EventReceived(old(Value())))
      ensures old(Value()) == Start(STREAM_ID_MAX).(resolving := 0) ==>
                fault == None && Value() == Start(STREAM_ID_MAX)
    {
      InitStarts(STREAM_ID_MAX);
      fault := OnEvent();
    }

    method OnEvent() returns (fault: Option<Fault>)
      modifies this
      ensures Follows(fault, EventReceived(old(Value())))
    {
      match phase
      case New => resolving := resolving + 1; return None;
      case Resolved => connecting := connecting + 1; return None;
      case Connected =>
        phase := Handshake;
        fault := SendOwn(Options);
      case Handshake => fault := SendOwn(Options);
      case Supported => fault := SendOwn(Startup);
      case Ready => calls := calls + [ReadyCall]; return None;
    }

    /** `send_message` with a NULL request. */
    method SendOwn(p: Purpose) returns (fault: Option<Fault>)
      modifies this`streams, this`sent
      ensures Follows(fault, SendInternal(old(Value()), p))
    {
      match S.Set(streams, Internal(p))
      case NoStreams => return None;
      case SetOutside => return Some(OutsideArrays);
      case Given(id, after) =>
        streams := after;
        sent := sent + [Sent(id, Internal(p))];
        return None;
    }

    method SetKeyspace() returns (fault: Option<Fault>)
      modifies this
      ensures Follows(fault, Step(old(Value()), UseKeyspace))
    {
      fault := SendOwn(Keyspace);
    }

    /** `exec`; `prepare` differs in the body it sends. */
    method Exec() returns (request: nat, fault: Option<Fault>)
      modifies this
      ensures request == old(created) && Follows(fault, Step(old(Value()), Submit))
    {
      request := created;
      match S.Set(streams, Caller(request))
      case NoStreams =>
        created := created + 1;
        notices := notices + [Refused(request)];
        return request, None;
      case SetOutside => return request, Some(OutsideArrays);
      case Given(id, after) =>
        created := created + 1;
        streams := after;
        sent := sent + [Sent(id, Caller(request))];
        return request, None;
    }

    method WhenResolved(ok: bool) returns (fault: Option<Fault>)
      modifies this
      ensures Follows(fault, Step(old(Value()), ResolveDone(ok)))
    {
      if resolving == 0 { return None; }
      resolving := resolving - 1;
      if !ok { return None; }
      phase := Resolved;
      fault := OnEvent();
    }

    method WhenConnected(ok: bool) returns (fault: Option<Fault>)
      modifies this
      ensures Follows(fault, Step(old(Value()), ConnectDone(ok)))
    {
      if connecting == 0 { return None; }
      connecting := connecting - 1;
      if !ok { return None; }
      phase := Connected;
      fault := OnEvent();
    }

    /** History only: a response arrived that does not give its id back. */
    ghost method Remember(stream: int)
      modifies this`answered, this`kept
      ensures Value() == Keep(old(Value()), stream)
    {
      var d := Keep(Value(), stream);
      answered, kept := d.answered, d.kept;
    }

    method OnSupported(stream: int) returns (fault: Option<Fault>)
      requires stream >= 0
      modifies this
      ensures Follows(fault, Dispatch(old(Value()), Response(stream, SupportedBody)))
    {
      Remember(stream);
      phase := Supported;
      fault := OnEvent();
    }

    method OnReady(stream: int) returns (fault: Option<Fault>)
      requires stream >= 0
      modifies this
      ensures Follows(fault, Dispatch(old(Value()), Response(stream, ReadyBody)))
    {
      Remember(stream);
      phase := Ready;
      fault := OnEvent();
    }

    method OnServerError(stream: int)
      modifies this`answered, this`kept, this`calls
      ensures Value() == OnError(old(Value()), stream)
    {
      Remember(stream);
      if phase != Ready {
        calls := calls + [ServerError];
      }
    }

    method OnResultOf(stream: int, kind: int) returns (fault: Option<Fault>)
      modifies this`streams, this`answered, this`kept, this`notices, this`calls
      ensures Follows(fault, OnResult(old(Value()), stream, kind))
    {
      if kind < 1 || kind > 5 { return Some(Asserted); }
      if kind == KIND_SET_KEYSPACE {
        Remember(stream);
        return None;
      }
      match S.Get(streams, stream, true)
      case GetOutside => return Some(OutsideArrays);
      case NotAllocated(_) =>
        if kind != KIND_PREPARED {
          calls := calls + [LibraryError];
        }
        return None;
      case Found(owner, after) =>
        if owner.None? || owner.value.Internal? { return Some(NullRequest); }
        streams := after;
        answered := answered - {stream};
        notices := notices + [Answered(owner.value.request, stream)];
        return None;
    }

    /** A finished message goes to its handler. */
    method OnMessage(frame: F.Frame) returns (fault: Option<Fault>)
      modifies this
      ensures Follows(fault, Handle(old(Value()), frame))
    {
      var m := ResponseOf(frame);
      if m.None? { return Some(Unreadable); }
      if m.value.stream < 0 { return Some(Asserted); }
      match m.value.body
      case SupportedBody => fault := OnSupported(m.value.stream);
      case ErrorBody => OnServerError(m.value.stream); return None;
      case ReadyBody => fault := OnReady(m.value.stream);
      case ResultBody(kind) => fault := OnResultOf(m.value.stream, kind);
      case OtherBody => return Some(Asserted);
    }

    /** The frames delivered so far have been handled, and `buffer` is still to be fed. */
    ghost predicate Working(c: Conn, was: seq<F.Frame>, all: F.Fed, buffer: Bytes)
      reads this, incoming, incoming.incoming, incoming.incoming.headerBuffer, incoming.incoming.bodyBuffer
    {
      incoming.Going(was, all, buffer) && HandleAll(c, incoming.delivered[|was|..]) == Running(Value())
    }

    /** The frames of the feed went to their handlers in order, and the rest is the message in progress. */
    ghost predicate Ended(stop: Option<Stop>, c: Conn, fed: F.Fed)
      reads this, incoming, incoming.incoming, incoming.incoming.headerBuffer, incoming.incoming.bodyBuffer
    {
      match HandleAll(c, fed.frames)
      case Faulted(f) => stop == Some(InHandler(f))
      case Running(d) =>
        Value() == d &&
        match fed.held
        case Broken(x) => stop == Some(InFraming(x))
        case Holding(m) => stop == None && Valid() && incoming.incoming.Value() == m
    }

    /** One chunk from the socket. */
    method Consume(input: Bytes) returns (stop: Option<Stop>)
      requires Valid()
      modifies this, incoming, incoming.Repr()
      ensures fresh(incoming.Repr() - old(incoming.Repr()))
      ensures Ended(stop, old(Value()), F.Feed(F.BySize, old(incoming.incoming.Value()), input))
    {
      var buffer := input;
      ghost var was, c, all := incoming.delivered, Value(), F.Feed(F.BySize, incoming.incoming.Value(), input);
      StartsWorking(c, was, all, buffer);
      while |buffer| != 0
        invariant Working(c, was, all, buffer)
        invariant fresh(incoming.Repr() - old(incoming.Repr()))
        decreases |buffer|
      {
        var count;
        count, stop := Turn(buffer, c, was, all);
        if stop.Some? { return; }
        buffer := buffer[count..];
      }
      DoneWorking(c, was, all);
      stop := None;
    }

    lemma StartsWorking(c: Conn, was: seq<F.Frame>, all: F.Fed, buffer: Bytes)
      requires Valid() && was == incoming.delivered && c == Value()
      requires all == F.Feed(F.BySize, incoming.incoming.Value(), buffer)
      ensures Working(c, was, all, buffer)
    {
      assert incoming.delivered[|was|..] == [] && [] + all.frames == all.frames;
    }

    lemma DoneWorking(c: Conn, was: seq<F.Frame>, all: F.Fed)
      requires Working(c, was, all, [])
      ensures Ended(None, c, all)
    {
      FeedDone(all, incoming.delivered[|was|..], incoming.incoming.Value());
    }

    /** One turn of the loop: a call of the message's `consume` and, when it is finished, its handler. */
    method Turn(buffer: Bytes, ghost c: Conn, ghost was: seq<F.Frame>, ghost all: F.Fed)
      returns (count: nat, stop: Option<Stop>)
      requires buffer != [] && Working(c, was, all, buffer)
      modifies this, incoming, incoming.Repr()
      ensures fresh(incoming.Repr() - old(incoming.Repr()))
      ensures stop.Some? ==> Ended(stop, c, all)
      ensures stop.None? ==> 0 < count <= |buffer| && Working(c, was, all, buffer[count..])
    {
      var before := incoming.delivered;
      var r := incoming.Turn(buffer, was, all);
      if r.Failed? {
        assert incoming.delivered[|was|..] == all.frames;
        return 0, Some(InFraming(r.fault));
      }
      count, stop := r.count, None;
      if incoming.delivered != before {
        stop := HandleLast(c, was, before, all);
      }
    }

    /** The message just delivered goes to its handler. */
    method HandleLast(ghost c: Conn, ghost was: seq<F.Frame>, before: seq<F.Frame>, ghost all: F.Fed)
      returns (stop: Option<Stop>)
      requires was <= before && |incoming.delivered| == |before| + 1 && before == incoming.delivered[..|before|]
      requires HandleAll(c, before[|was|..]) == Running(Value()) && incoming.delivered[|was|..] <= all.frames
      modifies this
      ensures stop.Some? ==>
                var r := HandleAll(c, all.frames); r.Faulted? && stop == Some(InHandler(r.fault))
      ensures stop.None? ==> HandleAll(c, incoming.delivered[|was|..]) == Running(Value())
    {
      var frame := incoming.delivered[|before|];
      assert incoming.delivered[|was|..] == before[|was|..] + [frame];
      HandleOneMore(c, before[|was|..], frame);
      var fault := OnMessage(frame);
      if fault.None? { return None; }
      Stopped(c, incoming.delivered[|was|..], all.frames);
      return Some(InHandler(fault.value));
    }
  }
}

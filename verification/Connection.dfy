/**
 The client connection as a state machine: one step for each thing libuv or a caller makes happen.
 There is no TLS, and the model ends where `close` is called.
 */
module Connection {
  import opened Protocol
  import S = StreamStorage

  const STREAM_ID_MAX: nat := 127

  /** CLIENT_STATE_NEW to CLIENT_STATE_READY, in order. */
  datatype Phase = New | Resolved | Connected | Handshake | Supported | Ready

  function Rank(p: Phase): nat {
    match p
    case New => 0
    case Resolved => 1
    case Connected => 2
    case Handshake => 3
    case Supported => 4
    case Ready => 5
  }

  /** What the connection sends on its own account, with a NULL request. */
  datatype Purpose = Options | Startup | Keyspace

  /** Whose message an id was taken for; the source stores the request pointer, NULL for its own messages. */
  datatype Owner = Internal(purpose: Purpose) | Caller(request: nat)

  /** A message on the wire: the id in its header, and whose it is. */
  datatype Sent = Sent(stream: int, owner: Owner)

  /** `notify` with a result, whose header carries this id, or with the no-streams error. */
  datatype Notice = Answered(request: nat, stream: int) | Refused(request: nat)

  /** What the connect callback was called with. */
  datatype Callback = ReadyCall | ServerError | LibraryError

  /**
   The connection and the history the theorems speak of: the lookups and connects under way, how
   many requests callers made, what was sent, the notifications, the callback's calls, the live ids
   whose response came without giving them back, and the ids of callers' requests among those.
   */
  datatype Conn = Conn(
    phase: Phase,
    streams: S.Streams<Owner>,
    resolving: nat,
    connecting: nat,
    created: nat,
    sent: seq<Sent>,
    notices: seq<Notice>,
    calls: seq<Callback>,
    answered: set<int>,
    kept: seq<int>
  )

  datatype Body = SupportedBody | ErrorBody | ReadyBody | ResultBody(kind: int) | OtherBody

  datatype Response = Response(stream: int, body: Body)

  datatype Event =
    | ResolveDone(ok: bool)
    | ConnectDone(ok: bool)
    | Submit
    | UseKeyspace
    | Receive(response: Response)

  /**
   Why a run cannot go on: a failed assertion, a NULL request notified, an access outside the stream
   arrays, a body whose decoder leaves it.
   */
  datatype Fault = Asserted | NullRequest | OutsideArrays | Unreadable

  datatype Outcome = Running(conn: Conn) | Faulted(fault: Fault)

  /** A new connection after `init`: the host name is being looked up. */
  function Start(cells: nat): Conn {
    Conn(New, S.Init(STREAM_ID_MAX, cells), 1, 0, 0, [], [], [], {}, [])
  }

  // ---------------------------------------------------------------------------------------------
  // Sending
  // ---------------------------------------------------------------------------------------------

  /** `send_message` for the connection itself, which ignores the error. */
  function SendInternal(c: Conn, p: Purpose): Outcome {
    match S.Set(c.streams, Internal(p))
    case NoStreams => Running(c)
    case SetOutside => Faulted(OutsideArrays)
    case Given(id, after) => Running(c.(streams := after, sent := c.sent + [Sent(id, Internal(p))]))
  }

  /** `exec` and `prepare`: a new request, sent or notified of its refusal. */
  function DoSubmit(c: Conn): Outcome {
    var r := c.created;
    match S.Set(c.streams, Caller(r))
    case NoStreams => Running(c.(created := r + 1, notices := c.notices + [Refused(r)]))
    case SetOutside => Faulted(OutsideArrays)
    case Given(id, after) => Running(c.(created := r + 1, streams := after, sent := c.sent + [Sent(id, Caller(r))]))
  }

  // ---------------------------------------------------------------------------------------------
  // The phases
  // ---------------------------------------------------------------------------------------------

  /** `event_received`; without TLS the connected phase goes straight on to the handshake. */
  function EventReceived(c: Conn): Outcome {
    match c.phase
    case New => Running(c.(resolving := c.resolving + 1))
    case Resolved => Running(c.(connecting := c.connecting + 1))
    case Connected => SendInternal(c.(phase := Handshake), Options)
    case Handshake => SendInternal(c, Options)
    case Supported => SendInternal(c, Startup)
    case Ready => Running(c.(calls := c.calls + [ReadyCall]))
  }

  function OnResolve(c: Conn, ok: bool): Outcome {
    if c.resolving == 0 then Running(c)
    else if ok then EventReceived(c.(resolving := c.resolving - 1, phase := Resolved))
    else Running(c.(resolving := c.resolving - 1))
  }

  function OnConnect(c: Conn, ok: bool): Outcome {
    if c.connecting == 0 then Running(c)
    else if ok then EventReceived(c.(connecting := c.connecting - 1, phase := Connected))
    else Running(c.(connecting := c.connecting - 1))
  }

  // ---------------------------------------------------------------------------------------------
  // Responses
  // ---------------------------------------------------------------------------------------------

  /** The response arrived and its id, when live, stays live. */
  function Keep(c: Conn, stream: int): Conn {
    if stream in S.LiveIds(c.streams) && 0 <= stream < |c.streams.storage| then
      var caller := stream !in c.answered && c.streams.storage[stream].Some? && c.streams.storage[stream].value.Caller?;
      c.(answered := c.answered + {stream}, kept := if caller then c.kept + [stream] else c.kept)
    else c
  }

  function OnError(c: Conn, stream: int): Conn {
    var d := Keep(c, stream);
    if Rank(c.phase) < Rank(Ready) then d.(calls := d.calls + [ServerError]) else d
  }

  predicate KnownKind(kind: int) {
    1 <= kind <= 5
  }

  /** `on_result`: only SET_KEYSPACE leaves the id alone. */
  function OnResult(c: Conn, stream: int, kind: int): Outcome {
    if !KnownKind(kind) then Faulted(Asserted)
    else if kind == KIND_SET_KEYSPACE then Running(Keep(c, stream))
    else
      match S.Get(c.streams, stream, true)
      case GetOutside => Faulted(OutsideArrays)
      case NotAllocated(_) =>
        Running(if kind == KIND_PREPARED then c else c.(calls := c.calls + [LibraryError]))
      case Found(owner, after) =>
        if owner.None? || owner.value.Internal? then Faulted(NullRequest)
        else Running(c.(streams := after, answered := c.answered - {stream},
                        notices := c.notices + [Answered(owner.value.request, stream)]))
  }

  /** The switch in `consume`. */
  function Dispatch(c: Conn, m: Response): Outcome {
    if m.stream < 0 then Faulted(Asserted)
    else
      match m.body
      case SupportedBody => EventReceived(Keep(c, m.stream).(phase := Supported))
      case ErrorBody => Running(OnError(c, m.stream))
      case ReadyBody => EventReceived(Keep(c, m.stream).(phase := Ready))
      case ResultBody(kind) => OnResult(c, m.stream, kind)
      case OtherBody => Faulted(Asserted)
  }

  function Step(c: Conn, e: Event): Outcome {
    match e
    case ResolveDone(ok) => OnResolve(c, ok)
    case ConnectDone(ok) => OnConnect(c, ok)
    case Submit => DoSubmit(c)
    case UseKeyspace => SendInternal(c, Keyspace)
    case Receive(m) => Dispatch(c, m)
  }

  /** A run; nothing happens after a fault. */
  function After(c: Conn, es: seq<Event>): Outcome
    decreases |es|
  {
    if es == [] then Running(c) else
    match After(c, es[..|es| - 1])
    case Faulted(f) => Faulted(f)
    case Running(d) => Step(d, es[|es| - 1])
  }

  lemma AfterOneMore(c: Conn, es: seq<Event>, e: Event)
    ensures After(c, es + [e]) == match After(c, es) case Faulted(f) => Faulted(f) case Running(d) => Step(d, e)
  {
    assert (es + [e])[..|es|] == es;
  }

  /** A run goes on from where an earlier one ended. */
  lemma {:induction false} AfterAppend(c: Conn, es: seq<Event>, more: seq<Event>)
    ensures After(c, es + more) == match After(c, es) case Faulted(f) => Faulted(f) case Running(d) => After(d, more)
    decreases |more|
  {
    if more == [] {
      assert es + more == es;
    } else {
      var n := |more| - 1;
      AfterAppend(c, es, more[..n]);
      assert es + more == es + more[..n] + [more[n]];
      AfterOneMore(c, es + more[..n], more[n]);
    }
  }

  /** How many steps of the run start in a state and with an event that satisfy p. */
  function Times(c: Conn, es: seq<Event>, p: (Conn, Event) -> bool): nat
    decreases |es|
  {
    if es == [] then 0 else
    var n := |es| - 1;
    Times(c, es[..n], p) +
    match After(c, es[..n])
    case Running(d) => if p(d, es[n]) then 1 else 0
    case Faulted(_) => 0
  }

  // ---------------------------------------------------------------------------------------------
  // What a step does to the streams
  // ---------------------------------------------------------------------------------------------

  ghost predicate GoodStreams(s: S.Streams<Owner>, answered: set<int>) {
    S.Good(s) && s.max == STREAM_ID_MAX && answered <= S.LiveIds(s)
  }

  ghost predicate Good(c: Conn) {
    GoodStreams(c.streams, c.answered)
  }

  /** What the theorems about requests and streams look at. */
  datatype Ledger = Ledger(streams: S.Streams<Owner>, created: nat, sent: seq<Sent>, notices: seq<Notice>)

  function Books(c: Conn): Ledger {
    Ledger(c.streams, c.created, c.sent, c.notices)
  }

  /**
   A step leaves the ledger alone, takes a fresh id for a message of its own or of a new request,
   refuses a new request, or gives the id of a caller's request back and notifies that request.
   */
  datatype Move = Idle | TakeFor(id: int, owner: Owner) | Refuse | GiveBack(id: int, request: nat)

  ghost predicate Moves(a: Ledger, m: Move, b: Ledger)
    requires S.Stored(a.streams)
  {
    match m
    case Idle => a == b
    case TakeFor(id, owner) =>
      && id !in S.LiveIds(a.streams) && 1 <= id <= STREAM_ID_MAX
      && S.Good(b.streams) && S.Live(b.streams) == S.Live(a.streams)[id := owner]
      && b.sent == a.sent + [Sent(id, owner)] && b.notices == a.notices
      && (owner.Internal? ==> b.created == a.created)
      && (owner.Caller? ==> owner.request == a.created && b.created == a.created + 1)
    case Refuse =>
      && b.streams == a.streams && b.sent == a.sent && |S.Live(a.streams)| == STREAM_ID_MAX
      && b.notices == a.notices + [Refused(a.created)] && b.created == a.created + 1
    case GiveBack(id, request) =>
      && id in S.LiveIds(a.streams) && S.Live(a.streams)[id] == Caller(request)
      && S.Good(b.streams) && S.Live(b.streams) == S.Live(a.streams) - {id}
      && b.sent == a.sent && b.notices == a.notices + [Answered(request, id)] && b.created == a.created
  }

  lemma SetMoves(c: Conn, owner: Owner)
    requires Good(c) && S.Set(c.streams, owner).Given?
    ensures var r := S.Set(c.streams, owner);
            && r.id !in S.LiveIds(c.streams) && 1 <= r.id <= STREAM_ID_MAX && r.after.max == STREAM_ID_MAX
            && S.Good(r.after) && S.Live(r.after) == S.Live(c.streams)[r.id := owner]
            && S.LiveIds(r.after) == S.LiveIds(c.streams) + {r.id}
  {
    S.SetRefines(c.streams, owner);
    var after := S.Set(c.streams, owner).after;
    assert S.Live(after).Keys == S.LiveIds(after) && S.Live(c.streams).Keys == S.LiveIds(c.streams);
  }

  lemma SendMoves(c: Conn, p: Purpose) returns (m: Move)
    requires Good(c) && SendInternal(c, p).Running?
    ensures var d := SendInternal(c, p).conn; Good(d) && Moves(Books(c), m, Books(d))
  {
    var r := S.Set(c.streams, Internal(p));
    if r.Given? {
      SetMoves(c, Internal(p));
      m := TakeFor(r.id, Internal(p));
    } else {
      m := Idle;
    }
  }

  lemma SubmitMoves(c: Conn) returns (m: Move)
    requires Good(c) && DoSubmit(c).Running?
    ensures var d := DoSubmit(c).conn; Good(d) && Moves(Books(c), m, Books(d))
  {
    var owner := Caller(c.created);
    var r := S.Set(c.streams, owner);
    S.SetRefines(c.streams, owner);
    if r.Given? {
      SetMoves(c, owner);
      m := TakeFor(r.id, owner);
    } else {
      m := Refuse;
    }
  }

  lemma EventMoves(c: Conn) returns (m: Move)
    requires Good(c) && EventReceived(c).Running?
    ensures var d := EventReceived(c).conn; Good(d) && Moves(Books(c), m, Books(d))
  {
    match c.phase
    case Connected => m := SendMoves(c.(phase := Handshake), Options);
    case Handshake => m := SendMoves(c, Options);
    case Supported => m := SendMoves(c, Startup);
    case _ => m := Idle;
  }

  lemma ResultMoves(c: Conn, stream: int, kind: int) returns (m: Move)
    requires Good(c) && stream >= 0 && OnResult(c, stream, kind).Running?
    ensures var d := OnResult(c, stream, kind).conn; Good(d) && Moves(Books(c), m, Books(d))
  {
    S.GetRefines(c.streams, stream, true);
    var r := S.Get(c.streams, stream, true);
    if kind == KIND_SET_KEYSPACE || !r.Found? {
      m := Idle;
    } else {
      m := GiveBack(stream, r.value.value.request);
      assert S.Live(r.after).Keys == S.LiveIds(r.after) && S.Live(c.streams).Keys == S.LiveIds(c.streams);
    }
  }

  lemma KeepGood(c: Conn, stream: int)
    requires Good(c)
    ensures Good(Keep(c, stream)) && Books(Keep(c, stream)) == Books(c)
  {
  }

  lemma DispatchMoves(c: Conn, r: Response) returns (m: Move)
    requires Good(c) && Dispatch(c, r).Running?
    ensures var d := Dispatch(c, r).conn; Good(d) && Moves(Books(c), m, Books(d))
  {
    KeepGood(c, r.stream);
    match r.body
    case SupportedBody => m := EventMoves(Keep(c, r.stream).(phase := Supported));
    case ReadyBody => m := EventMoves(Keep(c, r.stream).(phase := Ready));
    case ErrorBody => m := Idle;
    case ResultBody(kind) => m := ResultMoves(c, r.stream, kind);
    case OtherBody => m := Idle;
  }

  lemma ResolveMoves(c: Conn, ok: bool) returns (m: Move)
    requires Good(c) && OnResolve(c, ok).Running?
    ensures var d := OnResolve(c, ok).conn; Good(d) && Moves(Books(c), m, Books(d))
  {
    if c.resolving > 0 && ok {
      m := EventMoves(c.(resolving := c.resolving - 1, phase := Resolved));
    } else {
      m := Idle;
    }
  }

  lemma ConnectMoves(c: Conn, ok: bool) returns (m: Move)
    requires Good(c) && OnConnect(c, ok).Running?
    ensures var d := OnConnect(c, ok).conn; Good(d) && Moves(Books(c), m, Books(d))
  {
    if c.connecting > 0 && ok {
      m := EventMoves(c.(connecting := c.connecting - 1, phase := Connected));
    } else {
      m := Idle;
    }
  }

  /** Every step of a good connection that does not fault is one of the moves and leaves it good. */
  lemma StepMoves(c: Conn, e: Event) returns (m: Move)
    requires Good(c) && Step(c, e).Running?
    ensures var d := Step(c, e).conn; Good(d) && Moves(Books(c), m, Books(d))
  {
    match e
    case Submit => m := SubmitMoves(c);
    case UseKeyspace => m := SendMoves(c, Keyspace);
    case Receive(r) => m := DispatchMoves(c, r);
    case ResolveDone(ok) => m := ResolveMoves(c, ok);
    case ConnectDone(ok) => m := ConnectMoves(c, ok);
  }

  lemma StartGood(cells: nat)
    requires cells == STREAM_ID_MAX || cells == STREAM_ID_MAX + 1
    ensures Good(Start(cells)) && S.Live(Start(cells).streams) == map[]
  {
    S.InitGood<Owner>(STREAM_ID_MAX, cells);
  }

  /** Every reachable connection is good, whatever the server sends. */
  lemma {:induction false} AlwaysGood(cells: nat, es: seq<Event>)
    requires (cells == STREAM_ID_MAX || cells == STREAM_ID_MAX + 1) && After(Start(cells), es).Running?
    ensures Good(After(Start(cells), es).conn)
    decreases |es|
  {
    if es == [] {
      StartGood(cells);
    } else {
      var n := |es| - 1;
      AlwaysGood(cells, es[..n]);
      var m := StepMoves(After(Start(cells), es[..n]).conn, es[n]);
    }
  }
}

/** The handshake: phases, the two messages it sends, and the ready callback. */
module ConnectionHandshake {
  import opened Protocol
  import opened Connection
  import opened ConnectionStreams
  import S = StreamStorage

  /** The handshake messages sent, in order. */
  function Log(sent: seq<Sent>): seq<Purpose> {
    if sent == [] then [] else
    var x := sent[|sent| - 1];
    Log(sent[..|sent| - 1]) + if x.owner.Internal? && x.owner.purpose != Keyspace then [x.owner.purpose] else []
  }

  lemma LogMore(sent: seq<Sent>, x: Sent)
    ensures Log(sent + [x])
         == Log(sent) + if x.owner.Internal? && x.owner.purpose != Keyspace then [x.owner.purpose] else []
  {
    assert (sent + [x])[..|sent|] == sent;
  }

  /** The live ids of the messages sent for this purpose. */
  function Ids(live: map<int, Owner>, p: Purpose): set<int> {
    set id | id in live && live[id] == Internal(p)
  }

  lemma IdsMore(live: map<int, Owner>, id: int, owner: Owner, p: Purpose)
    requires id !in live
    ensures Ids(live[id := owner], p) == if owner == Internal(p) then Ids(live, p) + {id} else Ids(live, p)
  {
  }

  lemma IdsLess(live: map<int, Owner>, id: int, p: Purpose)
    requires id in live && live[id].Caller?
    ensures Ids(live - {id}, p) == Ids(live, p)
  {
  }

  function ReadyCalls(calls: seq<Callback>): nat {
    if calls == [] then 0
    else ReadyCalls(calls[..|calls| - 1]) + if calls[|calls| - 1] == ReadyCall then 1 else 0
  }

  lemma ReadyCallsMore(calls: seq<Callback>, x: Callback)
    ensures ReadyCalls(calls + [x]) == ReadyCalls(calls) + if x == ReadyCall then 1 else 0
  {
    assert (calls + [x])[..|calls|] == calls;
  }

  // ---------------------------------------------------------------------------------------------
  // What each phase means
  // ---------------------------------------------------------------------------------------------

  /** At most one message of this kind, which is in the log just when its id is live. */
  predicate SentAs(ids: set<int>, there: bool) {
    |ids| == if there then 1 else 0
  }

  /**
   How far the handshake has come: which of the two messages are out and which are answered.  A phase
   whose message found no id has not sent it.
   */
  predicate InStep(phase: Phase, log: seq<Purpose>, options: set<int>, startup: set<int>, answered: set<int>) {
    && SentAs(options, Options in log) && SentAs(startup, Startup in log)
    && match phase
       case New => log == []
       case Resolved => log == []
       case Connected => false
       case Handshake => log == [] || log == [Options]
       case Supported => (log == [Options] || log == [Options, Startup]) && options <= answered
       case Ready => log == [Options, Startup] && options <= answered && startup <= answered
  }

  /** What libuv still owes the connection. */
  predicate Awaited(phase: Phase, resolving: nat, connecting: nat) {
    && resolving <= (if phase == New then 1 else 0)
    && connecting <= (if phase == Resolved then 1 else 0)
  }

  ghost predicate Orderly(c: Conn)
    requires S.Stored(c.streams)
  {
    && InStep(c.phase, Log(c.sent), Ids(Live(c), Options), Ids(Live(c), Startup), c.answered)
    && Awaited(c.phase, c.resolving, c.connecting)
    && ReadyCalls(c.calls) == if c.phase == Ready then 1 else 0
  }

  // ---------------------------------------------------------------------------------------------
  // Steps
  // ---------------------------------------------------------------------------------------------

  /** Sending something that is not of the handshake, or failing to, keeps every phase in step. */
  lemma SendOther(c: Conn, owner: Owner)
    requires Good(c) && S.Set(c.streams, owner).Given? && owner != Internal(Options) && owner != Internal(Startup)
    ensures var r := S.Set(c.streams, owner);
            && S.Good(r.after)
            && Log(c.sent + [Sent(r.id, owner)]) == Log(c.sent)
            && Ids(S.Live(r.after), Options) == Ids(Live(c), Options)
            && Ids(S.Live(r.after), Startup) == Ids(Live(c), Startup)
  {
    var r := S.Set(c.streams, owner);
    SetMoves(c, owner);
    LogMore(c.sent, Sent(r.id, owner));
    LiveKeys(c);
    IdsMore(Live(c), r.id, owner, Options);
    IdsMore(Live(c), r.id, owner, Startup);
  }

  lemma LiveKeys(c: Conn)
    requires S.Stored(c.streams)
    ensures Live(c).Keys == S.LiveIds(c.streams)
  {
  }

  /** What else a connection has besides its streams and messages. */
  predicate SameRest(c: Conn, d: Conn) {
    && d.phase == c.phase && d.resolving == c.resolving && d.connecting == c.connecting
    && d.calls == c.calls && d.answered == c.answered
  }

  /** No message went out. */
  ghost predicate SentNothing(c: Conn, d: Conn)
    requires S.Stored(c.streams) && S.Stored(d.streams)
  {
    && Log(d.sent) == Log(c.sent)
    && Ids(Live(d), Options) == Ids(Live(c), Options) && Ids(Live(d), Startup) == Ids(Live(c), Startup)
  }

  /** One message of this purpose went out. */
  ghost predicate SentAlso(c: Conn, p: Purpose, other: Purpose, d: Conn)
    requires S.Stored(c.streams) && S.Stored(d.streams)
  {
    && Log(d.sent) == Log(c.sent) + [p]
    && |Ids(Live(d), p)| == |Ids(Live(c), p)| + 1 && Ids(Live(d), other) == Ids(Live(c), other)
  }

  /** Sending a handshake message, or failing to. */
  lemma SendOne(c: Conn, p: Purpose, other: Purpose)
    requires Good(c) && SendInternal(c, p).Running? && {p, other} == {Options, Startup}
    ensures var d := SendInternal(c, p).conn;
            Good(d) && SameRest(c, d) && (SentNothing(c, d) || SentAlso(c, p, other, d))
  {
    var m := SendMoves(c, p);
    SendRest(c, p);
    if S.Set(c.streams, Internal(p)).Given? { SentOne(c, p, other); }
  }

  lemma SendRest(c: Conn, p: Purpose)
    requires SendInternal(c, p).Running?
    ensures var r, d := S.Set(c.streams, Internal(p)), SendInternal(c, p).conn;
            && SameRest(c, d) && (r.NoStreams? ==> d == c)
            && (r.Given? ==> d.streams == r.after && d.sent == c.sent + [Sent(r.id, Internal(p))])
  {
  }

  lemma SentOne(c: Conn, p: Purpose, other: Purpose)
    requires Good(c) && S.Set(c.streams, Internal(p)).Given? && {p, other} == {Options, Startup}
    ensures var r := S.Set(c.streams, Internal(p));
            && S.Good(r.after) && Log(c.sent + [Sent(r.id, Internal(p))]) == Log(c.sent) + [p]
            && |Ids(S.Live(r.after), p)| == |Ids(Live(c), p)| + 1 && Ids(S.Live(r.after), other) == Ids(Live(c), other)
  {
    var r := S.Set(c.streams, Internal(p));
    assert p != other && p != Keyspace;
    SetMoves(c, Internal(p));
    LogMore(c.sent, Sent(r.id, Internal(p)));
    LiveKeys(c);
    IdsMore(Live(c), r.id, Internal(p), p);
    IdsMore(Live(c), r.id, Internal(p), other);
  }

  lemma SameOrderly(c: Conn, d: Conn)
    requires S.Stored(c.streams) && S.Stored(d.streams)
    requires Orderly(c) && SameRest(c, d) && SentNothing(c, d)
    ensures Orderly(d)
  {
  }

  lemma SubmitOrderly(c: Conn)
    requires Good(c) && Orderly(c) && DoSubmit(c).Running?
    ensures var d := DoSubmit(c).conn; Good(d) && Orderly(d) && d.phase == c.phase
  {
    var m := SubmitMoves(c);
    SubmitSendsNothing(c);
    SameOrderly(c, DoSubmit(c).conn);
  }

  lemma SubmitSendsNothing(c: Conn)
    requires Good(c) && DoSubmit(c).Running?
    ensures var d := DoSubmit(c).conn; S.Stored(d.streams) && SameRest(c, d) && SentNothing(c, d)
  {
    if S.Set(c.streams, Caller(c.created)).Given? { SendOther(c, Caller(c.created)); }
  }

  lemma KeyspaceOrderly(c: Conn)
    requires Good(c) && Orderly(c) && SendInternal(c, Keyspace).Running?
    ensures var d := SendInternal(c, Keyspace).conn; Good(d) && Orderly(d) && d.phase == c.phase
  {
    var m := SendMoves(c, Keyspace);
    KeyspaceSendsNothing(c);
    SameOrderly(c, SendInternal(c, Keyspace).conn);
  }

  lemma KeyspaceSendsNothing(c: Conn)
    requires Good(c) && SendInternal(c, Keyspace).Running?
    ensures var d := SendInternal(c, Keyspace).conn; S.Stored(d.streams) && SameRest(c, d) && SentNothing(c, d)
  {
    if S.Set(c.streams, Internal(Keyspace)).Given? { SendOther(c, Internal(Keyspace)); }
  }

  lemma ResolveOrderly(c: Conn, ok: bool)
    requires Good(c) && Orderly(c) && OnResolve(c, ok).Running?
    ensures var d := OnResolve(c, ok).conn; Good(d) && Orderly(d) && Rank(c.phase) <= Rank(d.phase)
  {
  }

  /** Entering the handshake phase, with nothing sent before. */
  lemma OptionsOrderly(c: Conn)
    requires Good(c) && c.phase == Handshake && c.resolving == 0 && c.connecting == 0
    requires Log(c.sent) == [] && Ids(Live(c), Options) == {} && Ids(Live(c), Startup) == {} && ReadyCalls(c.calls) == 0
    requires SendInternal(c, Options).Running?
    ensures var d := SendInternal(c, Options).conn; Good(d) && Orderly(d) && d.phase == Handshake
  {
    SendOne(c, Options, Startup);
  }

  lemma ConnectOrderly(c: Conn, ok: bool)
    requires Good(c) && Orderly(c) && OnConnect(c, ok).Running?
    ensures var d := OnConnect(c, ok).conn; Good(d) && Orderly(d) && Rank(c.phase) <= Rank(d.phase)
  {
    if c.connecting > 0 {
      if ok {
        Connects(c);
      } else {
        FewerAwaited(c, c.(connecting := c.connecting - 1));
      }
    }
  }

  /** Nothing changed but what libuv owes. */
  lemma FewerAwaited(c: Conn, d: Conn)
    requires Good(c) && Orderly(c) && c.connecting > 0 && d == c.(connecting := c.connecting - 1)
    ensures Good(d) && Orderly(d)
  {
  }

  lemma Connects(c: Conn)
    requires Good(c) && Orderly(c) && c.connecting > 0 && OnConnect(c, true).Running?
    ensures var d := OnConnect(c, true).conn; Good(d) && Orderly(d) && c.phase == Resolved && d.phase == Handshake
  {
    BeforeOptions(c);
    OptionsOrderly(c.(connecting := c.connecting - 1, phase := Handshake));
    ConnectSends(c);
  }

  /** A connect is under way in the resolved phase only, where nothing was sent. */
  lemma BeforeOptions(c: Conn)
    requires S.Stored(c.streams) && Orderly(c) && c.connecting > 0
    ensures c.phase == Resolved && c.connecting == 1 && c.resolving == 0 && Log(c.sent) == []
    ensures Ids(Live(c), Options) == {} && Ids(Live(c), Startup) == {} && ReadyCalls(c.calls) == 0
  {
  }

  lemma ConnectSends(c: Conn)
    requires c.connecting > 0
    ensures OnConnect(c, true) == SendInternal(c.(connecting := c.connecting - 1, phase := Handshake), Options)
  {
  }

  /** Entering the supported phase, with OPTIONS sent and answered. */
  lemma StartupOrderly(c: Conn)
    requires Good(c) && c.phase == Supported && c.resolving == 0 && c.connecting == 0 && ReadyCalls(c.calls) == 0
    requires InStep(Supported, Log(c.sent), Ids(Live(c), Options), Ids(Live(c), Startup), c.answered)
    requires Log(c.sent) == [Options] && SendInternal(c, Startup).Running?
    ensures var d := SendInternal(c, Startup).conn; Good(d) && Orderly(d) && d.phase == Supported
  {
    SendOne(c, Startup, Options);
    StartupInStep(c, SendInternal(c, Startup).conn);
  }

  lemma StartupInStep(c: Conn, d: Conn)
    requires S.Stored(c.streams) && S.Stored(d.streams) && SameRest(c, d)
    requires SentNothing(c, d) || SentAlso(c, Startup, Options, d)
    requires c.phase == Supported && c.resolving == 0 && c.connecting == 0 && ReadyCalls(c.calls) == 0
    requires InStep(Supported, Log(c.sent), Ids(Live(c), Options), Ids(Live(c), Startup), c.answered)
    requires Log(c.sent) == [Options]
    ensures Orderly(d)
  {
  }

  lemma TheOnly(ids: set<int>, id: int)
    requires |ids| <= 1 && id in ids
    ensures ids == {id}
  {
    assert ids == {id} + (ids - {id});
  }

  /** A conforming SUPPORTED answers the one OPTIONS sent. */
  lemma AnswersOptions(c: Conn, r: Response)
    requires S.Stored(c.streams) && Orderly(c) && Answers(c, r) && r.body == SupportedBody
    ensures c.phase == Handshake && Log(c.sent) == [Options] && Ids(Live(c), Options) == {r.stream}
    ensures Ids(Live(c), Startup) == {} && c.resolving == 0 && c.connecting == 0 && ReadyCalls(c.calls) == 0
  {
    LiveKeys(c);
    assert r.stream in Ids(Live(c), Options);
    TheOnly(Ids(Live(c), Options), r.stream);
  }

  /** It comes in the handshake phase and leads to the supported one. */
  lemma SupportedOrderly(c: Conn, r: Response)
    requires Good(c) && Orderly(c) && Answers(c, r) && r.body == SupportedBody && Dispatch(c, r).Running?
    ensures c.phase == Handshake
    ensures var d := Dispatch(c, r).conn; Good(d) && Orderly(d) && d.phase == Supported
  {
    AnswersOptions(c, r);
    KeepIsMore(c, r);
    StartupOrderly(Keep(c, r.stream).(phase := Supported));
  }

  /** Entering the ready phase, with both messages sent and answered. */
  lemma ReadyEvent(c: Conn, d: Conn)
    requires Good(c) && c.phase == Ready && c.resolving == 0 && c.connecting == 0 && ReadyCalls(c.calls) == 0
    requires InStep(Ready, Log(c.sent), Ids(Live(c), Options), Ids(Live(c), Startup), c.answered)
    requires EventReceived(c) == Running(d)
    ensures Good(d) && Orderly(d) && d.phase == Ready
  {
    ReadyCallsMore(c.calls, ReadyCall);
  }

  /** A conforming READY comes in the supported phase, for the one STARTUP sent. */
  lemma ReadyOrderly(c: Conn, r: Response)
    requires Good(c) && Orderly(c) && Answers(c, r) && r.body == ReadyBody && Dispatch(c, r).Running?
    ensures c.phase == Supported
    ensures var d := Dispatch(c, r).conn; Good(d) && Orderly(d) && d.phase == Ready
  {
    LiveKeys(c);
    assert r.stream in Ids(Live(c), Startup);
    TheOnly(Ids(Live(c), Startup), r.stream);
    KeepIsMore(c, r);
    ReadyEvent(Keep(c, r.stream).(phase := Ready), Dispatch(c, r).conn);
  }

  lemma KeepOrderly(c: Conn, r: Response)
    requires Good(c) && Orderly(c) && Answers(c, r)
    ensures var d := Keep(c, r.stream); Good(d) && Orderly(d) && d.phase == c.phase
  {
    KeepIsMore(c, r);
  }

  lemma ErrorOrderly(c: Conn, r: Response)
    requires Good(c) && Orderly(c) && Answers(c, r)
    ensures var d := OnError(c, r.stream); Good(d) && Orderly(d) && d.phase == c.phase
  {
    KeepOrderly(c, r);
    ReadyCallsMore(c.calls, ServerError);
  }

  lemma ResultOrderly(c: Conn, r: Response)
    requires Good(c) && Orderly(c) && Answers(c, r) && r.body.ResultBody? && OnResult(c, r.stream, r.body.kind).Running?
    ensures var d := OnResult(c, r.stream, r.body.kind).conn; Good(d) && Orderly(d) && d.phase == c.phase
  {
    if r.body.kind == KIND_SET_KEYSPACE {
      KeepOrderly(c, r);
    } else {
      LiveKeys(c);
      S.GetRefines(c.streams, r.stream, true);
      var m := ResultMoves(c, r.stream, r.body.kind);
      var d := OnResult(c, r.stream, r.body.kind).conn;
      assert Live(d) == Live(c) - {r.stream};
      IdsLess(Live(c), r.stream, Options);
      IdsLess(Live(c), r.stream, Startup);
      assert c.answered - {r.stream} == c.answered;
    }
  }

  /** Against a conforming server every step keeps the handshake in order and the phase never goes back. */
  lemma StepOrderly(c: Conn, e: Event)
    requires Good(c) && Orderly(c) && Conforms(c, e) && Step(c, e).Running?
    ensures var d := Step(c, e).conn; Good(d) && Orderly(d) && Rank(c.phase) <= Rank(d.phase)
  {
    match e
    case ResolveDone(ok) => ResolveOrderly(c, ok);
    case ConnectDone(ok) => ConnectOrderly(c, ok);
    case Submit => SubmitOrderly(c);
    case UseKeyspace => KeyspaceOrderly(c);
    case Receive(r) =>
      match r.body
      case SupportedBody => SupportedOrderly(c, r);
      case ReadyBody => ReadyOrderly(c, r);
      case ErrorBody => ErrorOrderly(c, r);
      case ResultBody(_) => ResultOrderly(c, r);
      case OtherBody =>
  }

  lemma StartOrderly(cells: nat)
    requires cells == STREAM_ID_MAX || cells == STREAM_ID_MAX + 1
    ensures Good(Start(cells)) && Orderly(Start(cells))
  {
    StartGood(cells);
    NewOrderly(Start(cells));
  }

  lemma NewOrderly(c: Conn)
    requires S.Stored(c.streams) && Live(c) == map[] && c.sent == [] && c.calls == []
    requires c.phase == New && c.resolving == 1 && c.connecting == 0
    ensures Orderly(c)
  {
    assert Ids(Live(c), Options) == {} && Ids(Live(c), Startup) == {};
  }

  lemma {:induction false} AlwaysOrderly(cells: nat, es: seq<Event>)
    requires (cells == STREAM_ID_MAX || cells == STREAM_ID_MAX + 1) && After(Start(cells), es).Running?
    requires ConformingRun(Start(cells), es)
    ensures var c := After(Start(cells), es).conn; Good(c) && Orderly(c)
    decreases |es|
  {
    if es == [] {
      StartOrderly(cells);
    } else {
      var n := |es| - 1;
      AlwaysOrderly(cells, es[..n]);
      StepOrderly(After(Start(cells), es[..n]).conn, es[n]);
    }
  }

  /** The phase only moves forward: at any earlier point of a conforming run it is no further. */
  lemma {:induction false} ForwardOnly(cells: nat, es: seq<Event>, n: nat)
    requires (cells == STREAM_ID_MAX || cells == STREAM_ID_MAX + 1) && After(Start(cells), es).Running?
    requires ConformingRun(Start(cells), es) && n <= |es|
    ensures var was := After(Start(cells), es[..n]);
            was.Running? && Rank(was.conn.phase) <= Rank(After(Start(cells), es).conn.phase)
    decreases |es|
  {
    var last := |es| - 1;
    if n == |es| {
      assert es[..n] == es;
    } else {
      assert es[..last][..n] == es[..n];
      ForwardOnly(cells, es[..last], n);
      AlwaysOrderly(cells, es[..last]);
      StepOrderly(After(Start(cells), es[..last]).conn, es[last]);
    }
  }

  /**
   In every state a conforming run reaches, OPTIONS and STARTUP have been sent at most once each and
   in that order, and the ready callback has been called at most once, and then only with both sent
   and answered.
   */
  lemma HandshakeSafe(cells: nat, es: seq<Event>)
    requires (cells == STREAM_ID_MAX || cells == STREAM_ID_MAX + 1) && After(Start(cells), es).Running?
    requires ConformingRun(Start(cells), es)
    ensures var c := After(Start(cells), es).conn;
            && Log(c.sent) <= [Options, Startup] && ReadyCalls(c.calls) <= 1
            && (ReadyCalls(c.calls) == 1 <==> c.phase == Ready)
            && (c.phase == Ready ==> Log(c.sent) == [Options, Startup] && S.Stored(c.streams)
                                     && Ids(Live(c), Options) + Ids(Live(c), Startup) <= c.answered)
  {
    AlwaysOrderly(cells, es);
  }

  // ---------------------------------------------------------------------------------------------
  // Any server
  // ---------------------------------------------------------------------------------------------

  function CountSent(sent: seq<Sent>, p: Purpose): nat {
    if sent == [] then 0
    else CountSent(sent[..|sent| - 1], p) + if sent[|sent| - 1].owner == Internal(p) then 1 else 0
  }

  lemma CountSentMore(sent: seq<Sent>, x: Sent, p: Purpose)
    ensures CountSent(sent + [x], p) == CountSent(sent, p) + if x.owner == Internal(p) then 1 else 0
  {
    assert (sent + [x])[..|sent|] == sent;
  }

  /** The event that a message of the connection's own is sent on. */
  predicate Calls(c: Conn, e: Event, p: Purpose) {
    match p
    case Options => e == ConnectDone(true) && c.connecting > 0
    case Startup => e.Receive? && e.response.body == SupportedBody
    case Keyspace => e == UseKeyspace
  }

  /** Such an event when an id is free. */
  function CallsFor(p: Purpose): (Conn, Event) -> bool {
    (c, e) => Calls(c, e, p) && S.Available(c.streams) > 0
  }

  lemma SendCounts(c: Conn, q: Purpose, p: Purpose)
    requires SendInternal(c, q).Running?
    ensures CountSent(SendInternal(c, q).conn.sent, p)
         == CountSent(c.sent, p) + if q == p && S.Available(c.streams) > 0 then 1 else 0
  {
    var r := S.Set(c.streams, Internal(q));
    if r.Given? { CountSentMore(c.sent, Sent(r.id, Internal(q)), p); }
  }

  lemma SubmitCounts(c: Conn, p: Purpose)
    requires DoSubmit(c).Running?
    ensures CountSent(DoSubmit(c).conn.sent, p) == CountSent(c.sent, p)
  {
    var r := S.Set(c.streams, Caller(c.created));
    if r.Given? { CountSentMore(c.sent, Sent(r.id, Caller(c.created)), p); }
  }

  /** A response is taken up. */
  lemma ResponseCounts(c: Conn, r: Response, p: Purpose)
    requires Dispatch(c, r).Running?
    ensures CountSent(Dispatch(c, r).conn.sent, p)
         == CountSent(c.sent, p) +
            if p == Startup && r.body == SupportedBody && S.Available(c.streams) > 0 then 1 else 0
  {
    if r.body == SupportedBody { SendCounts(Keep(c, r.stream).(phase := Supported), Startup, p); }
  }

  lemma ConnectCounts(c: Conn, p: Purpose)
    requires c.connecting > 0 && OnConnect(c, true).Running?
    ensures CountSent(OnConnect(c, true).conn.sent, p)
         == CountSent(c.sent, p) + if p == Options && S.Available(c.streams) > 0 then 1 else 0
  {
    SendCounts(c.(connecting := c.connecting - 1, phase := Handshake), Options, p);
  }

  lemma StepCounts(c: Conn, e: Event, p: Purpose)
    requires Step(c, e).Running?
    ensures CountSent(Step(c, e).conn.sent, p) == CountSent(c.sent, p) + if CallsFor(p)(c, e) then 1 else 0
  {
    match e
    case Submit => SubmitCounts(c, p);
    case UseKeyspace => SendCounts(c, Keyspace, p);
    case ResolveDone(ok) =>
    case ConnectDone(ok) => if c.connecting > 0 && ok { ConnectCounts(c, p); }
    case Receive(r) => ResponseCounts(c, r, p);
  }

  /**
   Whatever the server sends, over a whole run OPTIONS went out once for each connect that succeeded,
   STARTUP once for each SUPPORTED and a keyspace change once for each call, an id being free.
   */
  lemma {:induction false} SentExactly(cells: nat, es: seq<Event>, p: Purpose)
    requires After(Start(cells), es).Running?
    ensures CountSent(After(Start(cells), es).conn.sent, p) == Times(Start(cells), es, CallsFor(p))
    decreases |es|
  {
    if es != [] {
      var n := |es| - 1;
      SentExactly(cells, es[..n], p);
      StepCounts(After(Start(cells), es[..n]).conn, es[n], p);
    }
  }

  predicate GetsReady(c: Conn, e: Event) {
    e.Receive? && e.response.body == ReadyBody
  }

  /** And the ready callback was called once for each READY. */
  lemma {:induction false} ReadyCalledExactly(cells: nat, es: seq<Event>)
    requires After(Start(cells), es).Running?
    ensures ReadyCalls(After(Start(cells), es).conn.calls) == Times(Start(cells), es, GetsReady)
    decreases |es|
  {
    if es != [] {
      var n := |es| - 1;
      ReadyCalledExactly(cells, es[..n]);
      CalledBy(After(Start(cells), es[..n]).conn, es[n]);
    }
  }

  lemma CalledBy(c: Conn, e: Event)
    requires Step(c, e).Running?
    ensures ReadyCalls(Step(c, e).conn.calls) == ReadyCalls(c.calls) + if GetsReady(c, e) then 1 else 0
  {
    match e
    case ResolveDone(ok) =>
      if c.resolving > 0 && ok { EventCalls(c.(resolving := c.resolving - 1, phase := Resolved)); }
    case ConnectDone(ok) =>
      if c.connecting > 0 && ok { EventCalls(c.(connecting := c.connecting - 1, phase := Connected)); }
    case Receive(r) => ResponseCalls(c, r);
    case _ =>
  }

  lemma EventCalls(c: Conn)
    requires EventReceived(c).Running?
    ensures ReadyCalls(EventReceived(c).conn.calls) == ReadyCalls(c.calls) + if c.phase == Ready then 1 else 0
  {
    ReadyCallsMore(c.calls, ReadyCall);
  }

  lemma ResponseCalls(c: Conn, r: Response)
    requires Dispatch(c, r).Running?
    ensures ReadyCalls(Dispatch(c, r).conn.calls) == ReadyCalls(c.calls) + if r.body == ReadyBody then 1 else 0
  {
    match r.body
    case SupportedBody => EventCalls(Keep(c, r.stream).(phase := Supported));
    case ReadyBody => EventCalls(Keep(c, r.stream).(phase := Ready));
    case ErrorBody => ReadyCallsMore(c.calls, ServerError);
    case ResultBody(_) => ReadyCallsMore(c.calls, LibraryError);
    case OtherBody =>
  }

  /** The one lookup leads to at most one connect, so whatever the server sends OPTIONS goes out at most once. */
  lemma {:induction false} OptionsOnce(cells: nat, es: seq<Event>)
    requires After(Start(cells), es).Running?
    ensures var c := After(Start(cells), es).conn; c.resolving + c.connecting + CountSent(c.sent, Options) <= 1
    decreases |es|
  {
    if es != [] {
      var n := |es| - 1;
      OptionsOnce(cells, es[..n]);
      StepCounts(After(Start(cells), es[..n]).conn, es[n], Options);
      Owed(After(Start(cells), es[..n]).conn, es[n]);
    }
  }

  /** What libuv owes goes down by a lookup or connect that completes; a lookup that succeeds starts a connect. */
  lemma Owed(c: Conn, e: Event)
    requires Step(c, e).Running?
    ensures var d := Step(c, e).conn;
            d.resolving + d.connecting <= c.resolving + c.connecting - if Calls(c, e, Options) then 1 else 0
  {
  }

  /**
   Exactly what moves the phase back: SUPPORTED once the connection is ready, or a lookup or connect
   that completes after the phase has already passed it.
   */
  lemma BackwardIff(c: Conn, e: Event)
    requires Step(c, e).Running?
    ensures Rank(Step(c, e).conn.phase) < Rank(c.phase) <==>
            match e
            case Receive(r) => r.body == SupportedBody && c.phase == Ready
            case ResolveDone(ok) => ok && c.resolving > 0 && Rank(c.phase) > Rank(Resolved)
            case ConnectDone(ok) => ok && c.connecting > 0 && Rank(c.phase) > Rank(Handshake)
            case _ => false
  {
  }

  /** An unasked-for SUPPORTED takes a ready connection back and makes it send STARTUP once more. */
  lemma SupportedAgain(c: Conn, stream: int)
    requires Good(c) && c.phase == Ready && stream >= 0 && S.Set(c.streams, Internal(Startup)).Given?
    ensures var r := Dispatch(c, Response(stream, SupportedBody));
            r.Running? && r.conn.phase == Supported && Log(r.conn.sent) == Log(c.sent) + [Startup]
  {
    KeepGood(c, stream);
    StartupGoesOut(Keep(c, stream).(phase := Supported));
  }

  lemma StartupGoesOut(c: Conn)
    requires c.phase == Supported && S.Set(c.streams, Internal(Startup)).Given?
    ensures var r := EventReceived(c);
            r.Running? && r.conn.phase == Supported && Log(r.conn.sent) == Log(c.sent) + [Startup]
  {
    LogMore(c.sent, Sent(S.Set(c.streams, Internal(Startup)).id, Internal(Startup)));
  }
}

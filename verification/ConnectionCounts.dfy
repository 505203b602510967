/**
 What the connection does, counted over whole runs against any server: lookups and connects, callers'
 requests, the calls of the connect callback; and which events stop it.
 */
module ConnectionCounts {
  import opened Connection
  import opened ConnectionStreams
  import S = StreamStorage

  // ---------------------------------------------------------------------------------------------
  // Lookups and connects
  // ---------------------------------------------------------------------------------------------

  predicate LookupEnds(c: Conn, e: Event) {
    e.ResolveDone? && c.resolving > 0
  }

  predicate LookupSucceeds(c: Conn, e: Event) {
    e == ResolveDone(true) && c.resolving > 0
  }

  predicate ConnectEnds(c: Conn, e: Event) {
    e.ConnectDone? && c.connecting > 0
  }

  lemma OwedExactly(c: Conn, e: Event)
    requires Step(c, e).Running?
    ensures var d := Step(c, e).conn;
            && d.resolving == c.resolving - (if LookupEnds(c, e) then 1 else 0)
            && d.connecting == c.connecting + (if LookupSucceeds(c, e) then 1 else 0)
                                            - (if ConnectEnds(c, e) then 1 else 0)
  {
  }

  /**
   Over every run the one lookup is under way or done, and every lookup that succeeded started a
   connect, which is under way or done.
   */
  lemma {:induction false} LookupsStartConnects(cells: nat, es: seq<Event>)
    requires After(Start(cells), es).Running?
    ensures var c, run := After(Start(cells), es).conn, (p: (Conn, Event) -> bool) => Times(Start(cells), es, p);
            && c.resolving + run(LookupEnds) == 1
            && c.connecting + run(ConnectEnds) == run(LookupSucceeds)
    decreases |es|
  {
    if es != [] {
      var n := |es| - 1;
      LookupsStartConnects(cells, es[..n]);
      OwedExactly(After(Start(cells), es[..n]).conn, es[n]);
    }
  }

  // ---------------------------------------------------------------------------------------------
  // Phases
  // ---------------------------------------------------------------------------------------------

  /** The phase after a step is the one its event stands for, and no other event changes it. */
  lemma PhaseAfter(c: Conn, e: Event)
    requires Step(c, e).Running?
    ensures Step(c, e).conn.phase ==
            if LookupSucceeds(c, e) then Resolved
            else if e == ConnectDone(true) && c.connecting > 0 then Handshake
            else if e.Receive? && e.response.body == SupportedBody then Supported
            else if e.Receive? && e.response.body == ReadyBody then Ready
            else c.phase
  {
  }

  lemma LookupStep(c: Conn)
    requires c.resolving > 0
    ensures Step(c, ResolveDone(true))
         == Running(c.(resolving := c.resolving - 1, connecting := c.connecting + 1, phase := Resolved))
  {
  }

  lemma ConnectStep(c: Conn)
    requires c.connecting > 0 && S.Set(c.streams, Internal(Options)).Given?
    ensures var r := S.Set(c.streams, Internal(Options));
            Step(c, ConnectDone(true))
              == Running(c.(connecting := c.connecting - 1, phase := Handshake, streams := r.after,
                            sent := c.sent + [Sent(r.id, Internal(Options))]))
  {
  }

  lemma SupportedStep(c: Conn, stream: nat)
    requires S.Set(c.streams, Internal(Startup)).Given?
    ensures var r, o := S.Set(c.streams, Internal(Startup)), Step(c, Receive(Response(stream, SupportedBody)));
            && o.Running? && o.conn.phase == Supported && o.conn.sent == c.sent + [Sent(r.id, Internal(Startup))]
            && o.conn.streams == r.after && o.conn.calls == c.calls && o.conn.notices == c.notices
            && o.conn.resolving == c.resolving && o.conn.connecting == c.connecting && o.conn.created == c.created
  {
  }

  lemma ReadyStep(c: Conn, stream: nat)
    ensures var o := Step(c, Receive(Response(stream, ReadyBody)));
            && o.Running? && o.conn.phase == Ready && o.conn.calls == c.calls + [ReadyCall]
            && o.conn.sent == c.sent && o.conn.streams == c.streams && o.conn.notices == c.notices
            && o.conn.resolving == c.resolving && o.conn.connecting == c.connecting && o.conn.created == c.created
  {
  }

  function Connecting(): seq<Event> {
    [ResolveDone(true), ConnectDone(true)]
  }

  function Answering(options: nat, startup: nat): seq<Event> {
    [Receive(Response(options, SupportedBody)), Receive(Response(startup, ReadyBody))]
  }

  lemma AfterTwo(c: Conn, a: Event, b: Event)
    requires Step(c, a).Running?
    ensures After(c, [a, b]) == Step(Step(c, a).conn, b)
  {
    assert [a, b][..1] == [a] && [a][..0] == [];
    assert After(c, [a]) == Step(c, a);
  }

  /** A lookup and a connect that succeed send OPTIONS. */
  lemma OptionsGoOut(c: Conn)
    requires c.resolving > 0 && S.Set(c.streams, Internal(Options)).Given?
    ensures var r := S.Set(c.streams, Internal(Options));
            After(c, Connecting())
              == Running(c.(resolving := c.resolving - 1, phase := Handshake, streams := r.after,
                            sent := c.sent + [Sent(r.id, Internal(Options))]))
  {
    LookupStep(c);
    var d := Step(c, ResolveDone(true)).conn;
    ConnectStep(d);
    AfterTwo(c, ResolveDone(true), ConnectDone(true));
  }

  lemma AnswersComplete(c: Conn, options: nat, startup: nat)
    requires S.Set(c.streams, Internal(Startup)).Given?
    ensures var r, o := S.Set(c.streams, Internal(Startup)), After(c, Answering(options, startup));
            && o.Running? && o.conn.phase == Ready && o.conn.calls == c.calls + [ReadyCall]
            && o.conn.sent == c.sent + [Sent(r.id, Internal(Startup))] && o.conn.streams == r.after
            && o.conn.resolving == c.resolving && o.conn.connecting == c.connecting && o.conn.created == c.created
            && o.conn.notices == c.notices
  {
    SupportedStep(c, options);
    var d := Step(c, Receive(Response(options, SupportedBody))).conn;
    ReadyStep(d, startup);
    AfterTwo(c, Receive(Response(options, SupportedBody)), Receive(Response(startup, ReadyBody)));
  }

  /**
   The handshake completes: on a new connection a lookup, a connect, SUPPORTED for the OPTIONS id and
   READY for the STARTUP id lead to the ready phase, with the two messages sent under ids 1 and 2 and
   the callback told once.
   */
  lemma HandshakeCompletes(cells: nat)
    requires cells == STREAM_ID_MAX || cells == STREAM_ID_MAX + 1
    ensures var o := After(Start(cells), Connecting() + Answering(1, 2));
            && o.Running? && o.conn.phase == Ready && o.conn.calls == [ReadyCall]
            && o.conn.sent == [Sent(1, Internal(Options)), Sent(2, Internal(Startup))]
            && o.conn.resolving == o.conn.connecting == o.conn.created == 0 && o.conn.notices == []
            && S.Stored(o.conn.streams) && Live(o.conn) == map[1 := Internal(Options), 2 := Internal(Startup)]
  {
    var c := Start(cells);
    FirstIds(cells);
    OptionsGoOut(c);
    var d := After(c, Connecting()).conn;
    AnswersComplete(d, 1, 2);
    AfterAppend(c, Connecting(), Answering(1, 2));
  }

  lemma ConformsThen(c: Conn, es: seq<Event>, e: Event)
    requires ConformingRun(c, es) && After(c, es).Running?
    requires S.Stored(After(c, es).conn.streams) && Conforms(After(c, es).conn, e)
    ensures ConformingRun(c, es + [e])
  {
    assert (es + [e])[..|es|] == es;
  }

  /** The server of that run is a conforming one. */
  lemma CompletingConforms(cells: nat)
    requires cells == STREAM_ID_MAX || cells == STREAM_ID_MAX + 1
    ensures ConformingRun(Start(cells), Connecting() + Answering(1, 2))
  {
    var c, es := Start(cells), Connecting();
    FirstIds(cells);
    OptionsGoOut(c);
    ConnectingConforms(cells);
    var d := After(c, es).conn;
    var supported, ready := Receive(Response(1, SupportedBody)), Receive(Response(2, ReadyBody));
    ConformsThen(c, es, supported);
    SupportedStep(d, 1);
    SupportedMarks(d, 1);
    AfterOneMore(c, es, supported);
    ConformsThen(c, es + [supported], ready);
    assert es + [supported] + [ready] == es + Answering(1, 2);
  }

  lemma ConnectingConforms(cells: nat)
    requires cells == STREAM_ID_MAX || cells == STREAM_ID_MAX + 1
    ensures ConformingRun(Start(cells), Connecting())
  {
    var c := Start(cells);
    FirstIds(cells);
    LookupStep(c);
    ConformsThen(c, [], ResolveDone(true));
    AfterOneMore(c, [], ResolveDone(true));
    assert [] + [ResolveDone(true)] == [ResolveDone(true)];
    ConformsThen(c, [ResolveDone(true)], ConnectDone(true));
    assert [ResolveDone(true)] + [ConnectDone(true)] == Connecting();
  }

  lemma SupportedMarks(c: Conn, stream: nat)
    requires Step(c, Receive(Response(stream, SupportedBody))).Running?
    ensures Step(c, Receive(Response(stream, SupportedBody))).conn.answered == Keep(c, stream).answered
  {
  }

  /** The first two ids are 1 and 2. */
  lemma FirstIds(cells: nat)
    requires cells == STREAM_ID_MAX || cells == STREAM_ID_MAX + 1
    ensures var a := S.Set(Start(cells).streams, Internal(Options));
            && S.Stored(Start(cells).streams) && a.Given? && a.id == 1
            && S.Stored(a.after) && S.Live(a.after) == map[1 := Internal(Options)]
            && var b := S.Set(a.after, Internal(Startup));
               && b.Given? && b.id == 2
               && S.Stored(b.after) && S.Live(b.after) == map[1 := Internal(Options), 2 := Internal(Startup)]
  {
  }

  // ---------------------------------------------------------------------------------------------
  // Callers' requests
  // ---------------------------------------------------------------------------------------------

  function CallersSent(sent: seq<Sent>): nat {
    if sent == [] then 0
    else CallersSent(sent[..|sent| - 1]) + if sent[|sent| - 1].owner.Caller? then 1 else 0
  }

  lemma CallersSentMore(sent: seq<Sent>, x: Sent)
    ensures CallersSent(sent + [x]) == CallersSent(sent) + if x.owner.Caller? then 1 else 0
  {
    assert (sent + [x])[..|sent|] == sent;
  }

  function Refusals(ns: seq<Notice>): nat {
    if ns == [] then 0 else Refusals(ns[..|ns| - 1]) + if ns[|ns| - 1].Refused? then 1 else 0
  }

  lemma RefusalsMore(ns: seq<Notice>, x: Notice)
    ensures Refusals(ns + [x]) == Refusals(ns) + if x.Refused? then 1 else 0
  {
    assert (ns + [x])[..|ns|] == ns;
  }

  predicate Submits(c: Conn, e: Event) {
    e.Submit?
  }

  predicate SubmitsWithId(c: Conn, e: Event) {
    e.Submit? && S.Available(c.streams) > 0
  }

  predicate SubmitsWithout(c: Conn, e: Event) {
    e.Submit? && S.Available(c.streams) <= 0
  }

  /** A RESULT, other than SET_KEYSPACE, under the id of a caller's message. */
  predicate AnswersCaller(c: Conn, e: Event) {
    && e.Receive? && e.response.body.ResultBody? && e.response.body.kind != 3
    && e.response.stream in S.LiveIds(c.streams) && IsCallers(c.streams, e.response.stream)
  }

  lemma AlwaysStored(cells: nat, es: seq<Event>)
    requires (cells == STREAM_ID_MAX || cells == STREAM_ID_MAX + 1) && After(Start(cells), es).Running?
    ensures S.Stored(After(Start(cells), es).conn.streams)
  {
    AlwaysGood(cells, es);
  }

  /** One submitted request, without a fault. */
  lemma SubmitCounted(c: Conn)
    requires DoSubmit(c).Running?
    ensures var d, free := DoSubmit(c).conn, S.Available(c.streams) > 0;
            && d.created == c.created + 1
            && CallersSent(d.sent) == CallersSent(c.sent) + (if free then 1 else 0)
            && Refusals(d.notices) == Refusals(c.notices) + (if free then 0 else 1)
            && |d.notices| == |c.notices| + (if free then 0 else 1)
  {
    var r := S.Set(c.streams, Caller(c.created));
    if r.Given? { CallersSentMore(c.sent, Sent(r.id, Caller(c.created))); }
    if r.NoStreams? { RefusalsMore(c.notices, Refused(c.created)); }
  }

  lemma OwnCounted(c: Conn, p: Purpose)
    requires SendInternal(c, p).Running?
    ensures var d := SendInternal(c, p).conn;
            d.created == c.created && CallersSent(d.sent) == CallersSent(c.sent) && d.notices == c.notices
  {
    var r := S.Set(c.streams, Internal(p));
    if r.Given? { CallersSentMore(c.sent, Sent(r.id, Internal(p))); }
  }

  lemma EventCounted(c: Conn)
    requires EventReceived(c).Running?
    ensures var d := EventReceived(c).conn;
            d.created == c.created && CallersSent(d.sent) == CallersSent(c.sent) && d.notices == c.notices
  {
    match c.phase
    case Connected => OwnCounted(c.(phase := Handshake), Options);
    case Handshake => OwnCounted(c, Options);
    case Supported => OwnCounted(c, Startup);
    case _ =>
  }

  lemma ResponseCounted(c: Conn, r: Response)
    requires S.Stored(c.streams) && Dispatch(c, r).Running?
    ensures var d, more := Dispatch(c, r).conn, if AnswersCaller(c, Receive(r)) then 1 else 0;
            && d.created == c.created && CallersSent(d.sent) == CallersSent(c.sent)
            && Refusals(d.notices) == Refusals(c.notices) && |d.notices| == |c.notices| + more
  {
    match r.body
    case SupportedBody => EventCounted(Keep(c, r.stream).(phase := Supported));
    case ReadyBody => EventCounted(Keep(c, r.stream).(phase := Ready));
    case ResultBody(kind) => ResultCounted(c, r.stream, kind);
    case _ =>
  }

  lemma ResultCounted(c: Conn, stream: int, kind: int)
    requires OnResult(c, stream, kind).Running?
    ensures var d := OnResult(c, stream, kind).conn;
            var answers := AnswersCaller(c, Receive(Response(stream, ResultBody(kind))));
            && d.created == c.created && d.sent == c.sent
            && Refusals(d.notices) == Refusals(c.notices) && |d.notices| == |c.notices| + if answers then 1 else 0
  {
    var r := S.Get(c.streams, stream, true);
    if r.Found? && r.value.Some? && r.value.value.Caller? {
      RefusalsMore(c.notices, Answered(r.value.value.request, stream));
    }
  }

  lemma StepCounted(c: Conn, e: Event)
    requires S.Stored(c.streams) && Step(c, e).Running?
    ensures var d := Step(c, e).conn;
            && d.created == c.created + (if Submits(c, e) then 1 else 0)
            && CallersSent(d.sent) == CallersSent(c.sent) + (if SubmitsWithId(c, e) then 1 else 0)
            && Refusals(d.notices) == Refusals(c.notices) + (if SubmitsWithout(c, e) then 1 else 0)
            && |d.notices| == |c.notices| + (if SubmitsWithout(c, e) then 1 else 0)
                                          + (if AnswersCaller(c, e) then 1 else 0)
  {
    match e
    case Submit => SubmitCounted(c);
    case UseKeyspace => OwnCounted(c, Keyspace);
    case ResolveDone(ok) =>
      if c.resolving > 0 && ok { EventCounted(c.(resolving := c.resolving - 1, phase := Resolved)); }
    case ConnectDone(ok) =>
      if c.connecting > 0 && ok { EventCounted(c.(connecting := c.connecting - 1, phase := Connected)); }
    case Receive(r) => ResponseCounted(c, r);
  }

  /**
   Over every run, each call of a caller makes a request; those made with an id free were sent, the
   others notified of their refusal; and the other notifications are one for each RESULT, other than
   SET_KEYSPACE, under a caller's live id.
   */
  lemma {:induction false} RequestsExactly(cells: nat, es: seq<Event>)
    requires (cells == STREAM_ID_MAX || cells == STREAM_ID_MAX + 1) && After(Start(cells), es).Running?
    ensures var c, run := After(Start(cells), es).conn, (p: (Conn, Event) -> bool) => Times(Start(cells), es, p);
            && c.created == run(Submits) && CallersSent(c.sent) == run(SubmitsWithId)
            && Refusals(c.notices) == run(SubmitsWithout)
            && |c.notices| == run(SubmitsWithout) + run(AnswersCaller)
    decreases |es|
  {
    if es != [] {
      var n := |es| - 1;
      RequestsExactly(cells, es[..n]);
      AlwaysStored(cells, es[..n]);
      StepCounted(After(Start(cells), es[..n]).conn, es[n]);
    }
  }

  // ---------------------------------------------------------------------------------------------
  // The connect callback's errors
  // ---------------------------------------------------------------------------------------------

  function CountCalls(calls: seq<Callback>, x: Callback): nat {
    if calls == [] then 0
    else CountCalls(calls[..|calls| - 1], x) + if calls[|calls| - 1] == x then 1 else 0
  }

  lemma CountCallsMore(calls: seq<Callback>, x: Callback, y: Callback)
    ensures CountCalls(calls + [y], x) == CountCalls(calls, x) + if x == y then 1 else 0
  {
    assert (calls + [y])[..|calls|] == calls;
  }

  /** What the callback is told of an event. */
  function Tells(c: Conn, e: Event): seq<Callback> {
    if !e.Receive? then []
    else
      match e.response.body
      case ReadyBody => [ReadyCall]
      case ErrorBody => if c.phase == Ready then [] else [ServerError]
      case ResultBody(kind) =>
        if kind in {1, 2, 5} && e.response.stream !in S.LiveIds(c.streams) then [LibraryError] else []
      case _ => []
  }

  function TellsOf(x: Callback): (Conn, Event) -> bool {
    (c, e) => Tells(c, e) == [x]
  }

  lemma ToldBy(c: Conn, e: Event)
    requires S.Stored(c.streams) && Step(c, e).Running?
    ensures Step(c, e).conn.calls == c.calls + Tells(c, e)
  {
    match e
    case Receive(r) => ResponseTells(c, r);
    case _ => assert c.calls + [] == c.calls;
  }

  lemma ResponseTells(c: Conn, r: Response)
    requires S.Stored(c.streams) && Dispatch(c, r).Running?
    ensures Dispatch(c, r).conn.calls == c.calls + Tells(c, Receive(r))
  {
    assert c.calls + [] == c.calls;
  }

  lemma OneTold(c: Conn, e: Event, x: Callback)
    requires S.Stored(c.streams) && Step(c, e).Running?
    ensures CountCalls(Step(c, e).conn.calls, x) == CountCalls(c.calls, x) + if TellsOf(x)(c, e) then 1 else 0
  {
    ToldBy(c, e);
    if Tells(c, e) == [] {
      assert c.calls + [] == c.calls;
    } else {
      CountCallsMore(c.calls, x, Tells(c, e)[0]);
    }
  }

  /**
   Over every run the callback was told of a server error once for each ERROR before the ready phase,
   of a library error once for each VOID, ROWS or SCHEMA_CHANGE result under an id that is not live,
   and of success once for each READY.
   */
  lemma {:induction false} CallbackExactly(cells: nat, es: seq<Event>, x: Callback)
    requires (cells == STREAM_ID_MAX || cells == STREAM_ID_MAX + 1) && After(Start(cells), es).Running?
    ensures CountCalls(After(Start(cells), es).conn.calls, x) == Times(Start(cells), es, TellsOf(x))
    decreases |es|
  {
    if es != [] {
      var n := |es| - 1;
      CallbackExactly(cells, es[..n], x);
      AlwaysStored(cells, es[..n]);
      var c := After(Start(cells), es[..n]).conn;
      OneTold(c, es[n], x);
    }
  }

  // ---------------------------------------------------------------------------------------------
  // What stops the connection
  // ---------------------------------------------------------------------------------------------

  lemma StopsBy(c: Conn, e: Event)
    requires S.Stored(c.streams) && (S.LiveIds(c.streams) != {} ==> 0 < c.streams.index <= |c.streams.available|)
    ensures Step(c, e) == Faulted(Asserted) <==> Asserts(e)
    ensures Step(c, e) == Faulted(NullRequest) <==> NotifiesNull(c, e)
    ensures Step(c, e) != Faulted(Unreadable)
  {
  }

  predicate Asserts(e: Event) {
    && e.Receive?
    && (e.response.stream < 0 || e.response.body == OtherBody
        || (e.response.body.ResultBody? && !(1 <= e.response.body.kind <= 5)))
  }

  predicate NotifiesNull(c: Conn, e: Event)
    requires S.Stored(c.streams)
  {
    && e.Receive? && e.response.body.ResultBody? && e.response.body.kind in {1, 2, 4, 5}
    && e.response.stream in S.LiveIds(c.streams) && S.Live(c.streams)[e.response.stream].Internal?
  }

  /**
   An assertion fails exactly on a negative id, a response of another kind or an unknown result kind; a
   NULL request is notified exactly on a result that gives back the id of one of its own messages.
   */
  lemma StopsIff(c: Conn, e: Event)
    requires Good(c)
    ensures Step(c, e) == Faulted(Asserted) <==> Asserts(e)
    ensures Step(c, e) == Faulted(NullRequest) <==> NotifiesNull(c, e)
    ensures Step(c, e) != Faulted(Unreadable)
  {
    S.IndexCounts(c.streams);
    StopsBy(c, e);
  }
}

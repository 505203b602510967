/** Where the 127 stream ids are over whole runs, and which of them never come back. */
module ConnectionStreams {
  import opened Prelude
  import opened Protocol
  import opened Connection
  import S = StreamStorage

  /** Live ids that belong to the connection's own messages, and to callers' requests. */
  function OwnIds(live: map<int, Owner>): set<int> {
    set id | id in live && live[id].Internal?
  }

  function CallerIds(live: map<int, Owner>): set<int> {
    set id | id in live && live[id].Caller?
  }

  function Live(c: Conn): map<int, Owner>
    requires S.Stored(c.streams)
  {
    S.Live(c.streams)
  }

  /** Ids of callers' requests that still wait for a response. */
  function Awaiting(c: Conn): set<int>
    requires S.Stored(c.streams)
  {
    CallerIds(Live(c)) - c.answered
  }

  /** Ids that are live but wait for nothing that would give them back. */
  function Orphans(c: Conn): set<int>
    requires S.Stored(c.streams)
  {
    OwnIds(Live(c)) + CallerIds(Live(c)) * c.answered
  }

  function CountOwn(sent: seq<Sent>): nat {
    if sent == [] then 0
    else CountOwn(sent[..|sent| - 1]) + if sent[|sent| - 1].owner.Internal? then 1 else 0
  }

  lemma CountOwnMore(sent: seq<Sent>, x: Sent)
    ensures CountOwn(sent + [x]) == CountOwn(sent) + if x.owner.Internal? then 1 else 0
  {
    assert (sent + [x])[..|sent|] == sent;
  }

  lemma SplitLive(live: map<int, Owner>, answered: set<int>)
    ensures |live| == |CallerIds(live) - answered| + |OwnIds(live) + CallerIds(live) * answered|
    ensures |OwnIds(live) + CallerIds(live) * answered| == |OwnIds(live)| + |CallerIds(live) * answered|
  {
    var own, callers := OwnIds(live), CallerIds(live);
    assert live.Keys == (callers - answered) + (own + callers * answered);
    assert |live| == |live.Keys|;
  }

  /** In every state each of the 127 ids is available, awaits a response or is orphaned. */
  lemma Partition(c: Conn)
    requires Good(c)
    ensures S.Available(c.streams) + |Awaiting(c)| + |Orphans(c)| == STREAM_ID_MAX
  {
    S.IndexCounts(c.streams);
    SplitLive(Live(c), c.answered);
  }

  // ---------------------------------------------------------------------------------------------
  // The connection's own messages
  // ---------------------------------------------------------------------------------------------

  lemma OwnMore(live: map<int, Owner>, id: int, owner: Owner)
    requires id !in live
    ensures OwnIds(live[id := owner]) == if owner.Internal? then OwnIds(live) + {id} else OwnIds(live)
    ensures CallerIds(live[id := owner]) == if owner.Caller? then CallerIds(live) + {id} else CallerIds(live)
    ensures id !in OwnIds(live) && id !in CallerIds(live)
  {
  }

  lemma OwnLess(live: map<int, Owner>, id: int)
    requires id in live && live[id].Caller?
    ensures OwnIds(live - {id}) == OwnIds(live) && CallerIds(live - {id}) == CallerIds(live) - {id}
  {
  }

  lemma MoveCountsOwn(a: Ledger, m: Move, b: Ledger)
    requires S.Good(a.streams) && S.Good(b.streams) && Moves(a, m, b)
    ensures |OwnIds(S.Live(b.streams))| - CountOwn(b.sent) == |OwnIds(S.Live(a.streams))| - CountOwn(a.sent)
  {
    match m
    case TakeFor(id, owner) =>
      CountOwnMore(a.sent, Sent(id, owner));
      OwnMore(S.Live(a.streams), id, owner);
    case GiveBack(id, r) => OwnLess(S.Live(a.streams), id);
    case _ =>
  }

  /**
   Whatever the server sends, every OPTIONS, STARTUP and keyspace change ever sent still holds its id:
   none of their responses gives it back.
   */
  lemma {:induction false} OwnNeverReturn(cells: nat, es: seq<Event>)
    requires (cells == STREAM_ID_MAX || cells == STREAM_ID_MAX + 1) && After(Start(cells), es).Running?
    ensures var c := After(Start(cells), es).conn; Good(c) && |OwnIds(Live(c))| == CountOwn(c.sent)
    decreases |es|
  {
    if es == [] {
      StartGood(cells);
    } else {
      var n := |es| - 1;
      OwnNeverReturn(cells, es[..n]);
      var c := After(Start(cells), es[..n]).conn;
      var m := StepMoves(c, es[n]);
      MoveCountsOwn(Books(c), m, Books(After(Start(cells), es).conn));
    }
  }

  // ---------------------------------------------------------------------------------------------
  // A server that answers each message once
  // ---------------------------------------------------------------------------------------------

  /**
   A response of a conforming server answers a message that is not yet answered: OPTIONS by SUPPORTED,
   STARTUP by READY, a keyspace change by SET_KEYSPACE, a caller's request by a RESULT, and any of
   them by ERROR.
   */
  ghost predicate Answers(c: Conn, r: Response)
    requires S.Stored(c.streams)
  {
    && r.stream in S.LiveIds(c.streams) && r.stream !in c.answered
    && match Live(c)[r.stream]
       case Internal(Options) => r.body.SupportedBody? || r.body.ErrorBody?
       case Internal(Startup) => r.body.ReadyBody? || r.body.ErrorBody?
       case Internal(Keyspace) => r.body == ResultBody(KIND_SET_KEYSPACE) || r.body.ErrorBody?
       case Caller(_) => (r.body.ResultBody? && KnownKind(r.body.kind)) || r.body.ErrorBody?
  }

  ghost predicate Conforms(c: Conn, e: Event)
    requires S.Stored(c.streams)
  {
    e.Receive? ==> Answers(c, e.response)
  }

  /** Every response in the run is one of a conforming server. */
  ghost predicate ConformingRun(c: Conn, es: seq<Event>)
    decreases |es|
  {
    es == [] ||
    (ConformingRun(c, es[..|es| - 1])
     && match After(c, es[..|es| - 1])
        case Running(d) => S.Stored(d.streams) && Conforms(d, es[|es| - 1])
        case Faulted(_) => true)
  }

  /** `kept` lists, each once, the callers' ids whose response did not give them back. */
  ghost predicate KeptRight(live: map<int, Owner>, answered: set<int>, kept: seq<int>) {
    S.Distinct(kept) && Elements(kept) == CallerIds(live) * answered
  }

  lemma KeptSize(live: map<int, Owner>, answered: set<int>, kept: seq<int>)
    requires KeptRight(live, answered, kept)
    ensures |kept| == |CallerIds(live) * answered|
  {
    CardinalityOfDistinct(kept);
  }

  lemma KeptTake(live: map<int, Owner>, answered: set<int>, kept: seq<int>, id: int, owner: Owner)
    requires KeptRight(live, answered, kept) && answered <= live.Keys && id !in live
    ensures KeptRight(live[id := owner], answered, kept)
  {
    OwnMore(live, id, owner);
    assert CallerIds(live[id := owner]) * answered == CallerIds(live) * answered;
  }

  lemma KeptGive(live: map<int, Owner>, answered: set<int>, kept: seq<int>, id: int)
    requires KeptRight(live, answered, kept) && id in live && live[id].Caller? && id !in answered
    ensures KeptRight(live - {id}, answered - {id}, kept)
  {
    OwnLess(live, id);
    assert CallerIds(live - {id}) * (answered - {id}) == CallerIds(live) * answered;
  }

  lemma KeptMore(live: map<int, Owner>, answered: set<int>, kept: seq<int>, id: int)
    requires KeptRight(live, answered, kept) && id in live && id !in answered
    ensures KeptRight(live, answered + {id}, if live[id].Caller? then kept + [id] else kept)
  {
    if live[id].Caller? {
      assert CallerIds(live) * (answered + {id}) == CallerIds(live) * answered + {id};
      assert Elements(kept + [id]) == Elements(kept) + {id};
      assert id !in Elements(kept);
    } else {
      assert CallerIds(live) * (answered + {id}) == CallerIds(live) * answered;
    }
  }

  /** `Keep` on a conforming response. */
  lemma KeepIsMore(c: Conn, r: Response)
    requires Good(c) && Answers(c, r)
    ensures var d := Keep(c, r.stream);
            && d.streams == c.streams && d.answered == c.answered + {r.stream}
            && d.kept == if Live(c)[r.stream].Caller? then c.kept + [r.stream] else c.kept
  {
  }

  lemma EventMarks(c: Conn)
    requires EventReceived(c).Running?
    ensures EventReceived(c).conn.answered == c.answered && EventReceived(c).conn.kept == c.kept
  {
  }

  ghost predicate Kept(c: Conn)
    requires S.Stored(c.streams)
  {
    KeptRight(Live(c), c.answered, c.kept)
  }

  /** A step that only moves the books, the marks staying as they are. */
  lemma MoveKept(c: Conn, m: Move, d: Conn)
    requires Good(c) && Good(d) && Kept(c) && Moves(Books(c), m, Books(d)) && !m.GiveBack?
    requires d.answered == c.answered && d.kept == c.kept
    ensures Kept(d) && Orphans(c) <= Orphans(d)
  {
    assert Live(c).Keys == S.LiveIds(c.streams);
    if m.TakeFor? {
      KeptTake(Live(c), c.answered, c.kept, m.id, m.owner);
      OwnMore(Live(c), m.id, m.owner);
    }
  }

  lemma KeepKept(c: Conn, r: Response)
    requires Good(c) && Kept(c) && Answers(c, r)
    ensures var d := Keep(c, r.stream); Good(d) && Kept(d) && Orphans(c) <= Orphans(d)
  {
    KeepIsMore(c, r);
    KeptMore(Live(c), c.answered, c.kept, r.stream);
  }

  /** A phase event after marks and phase were set. */
  lemma EventKept(c: Conn)
    requires Good(c) && Kept(c) && EventReceived(c).Running?
    ensures var d := EventReceived(c).conn; Good(d) && Kept(d) && Orphans(c) <= Orphans(d)
  {
    var m := EventMoves(c);
    EventMarks(c);
    EventGivesNothing(c, m);
    MoveKept(c, m, EventReceived(c).conn);
  }

  lemma EventGivesNothing(c: Conn, m: Move)
    requires S.Stored(c.streams) && EventReceived(c).Running? && Moves(Books(c), m, Books(EventReceived(c).conn))
    ensures !m.GiveBack?
  {
    assert EventReceived(c).conn.notices == c.notices;
  }

  lemma ResultKept(c: Conn, r: Response)
    requires Good(c) && Kept(c) && Answers(c, r) && r.body.ResultBody? && OnResult(c, r.stream, r.body.kind).Running?
    ensures var d := OnResult(c, r.stream, r.body.kind).conn; Good(d) && Kept(d) && Orphans(c) <= Orphans(d)
  {
    if r.body.kind == KIND_SET_KEYSPACE {
      KeepKept(c, r);
    } else {
      S.GetRefines(c.streams, r.stream, true);
      var d := OnResult(c, r.stream, r.body.kind).conn;
      var m := ResultMoves(c, r.stream, r.body.kind);
      KeptGive(Live(c), c.answered, c.kept, r.stream);
      OwnLess(Live(c), r.stream);
      assert Live(d) == Live(c) - {r.stream};
    }
  }

  lemma DispatchKept(c: Conn, r: Response)
    requires Good(c) && Kept(c) && Answers(c, r) && Dispatch(c, r).Running?
    ensures var d := Dispatch(c, r).conn; Good(d) && Kept(d) && Orphans(c) <= Orphans(d)
  {
    match r.body
    case SupportedBody =>
      KeepKept(c, r);
      EventKept(Keep(c, r.stream).(phase := Supported));
    case ReadyBody =>
      KeepKept(c, r);
      EventKept(Keep(c, r.stream).(phase := Ready));
    case ErrorBody => KeepKept(c, r);
    case ResultBody(_) => ResultKept(c, r);
    case OtherBody =>
  }

  lemma SubmitKept(c: Conn)
    requires Good(c) && Kept(c) && DoSubmit(c).Running?
    ensures var d := DoSubmit(c).conn; Good(d) && Kept(d) && Orphans(c) <= Orphans(d)
  {
    var m := SubmitMoves(c);
    SubmitGivesNothing(c, m);
    MoveKept(c, m, DoSubmit(c).conn);
  }

  lemma SubmitGivesNothing(c: Conn, m: Move)
    requires S.Stored(c.streams) && DoSubmit(c).Running? && Moves(Books(c), m, Books(DoSubmit(c).conn))
    ensures !m.GiveBack? && DoSubmit(c).conn.answered == c.answered && DoSubmit(c).conn.kept == c.kept
  {
    assert DoSubmit(c).conn.created == c.created + 1;
  }

  lemma KeyspaceKept(c: Conn)
    requires Good(c) && Kept(c) && SendInternal(c, Keyspace).Running?
    ensures var d := SendInternal(c, Keyspace).conn; Good(d) && Kept(d) && Orphans(c) <= Orphans(d)
  {
    var m := SendMoves(c, Keyspace);
    assert SendInternal(c, Keyspace).conn.notices == c.notices;
    MoveKept(c, m, SendInternal(c, Keyspace).conn);
  }

  /** With a conforming server orphaned ids stay orphaned, and the callers' ones are exactly those listed. */
  lemma StepKept(c: Conn, e: Event)
    requires Good(c) && Kept(c) && Conforms(c, e) && Step(c, e).Running?
    ensures var d := Step(c, e).conn; Good(d) && Kept(d) && Orphans(c) <= Orphans(d)
  {
    match e
    case ResolveDone(ok) =>
      if c.resolving > 0 && ok { EventKept(c.(resolving := c.resolving - 1, phase := Resolved)); }
    case ConnectDone(ok) =>
      if c.connecting > 0 && ok { EventKept(c.(connecting := c.connecting - 1, phase := Connected)); }
    case Receive(r) => DispatchKept(c, r);
    case Submit => SubmitKept(c);
    case UseKeyspace => KeyspaceKept(c);
  }

  /** An ERROR or SET_KEYSPACE response to a caller's request. */
  predicate KeepsCaller(c: Conn, e: Event) {
    && e.Receive? && (e.response.body == ErrorBody || e.response.body == ResultBody(KIND_SET_KEYSPACE))
    && e.response.stream in S.LiveIds(c.streams) && IsCallers(c.streams, e.response.stream)
  }

  predicate IsCallers(s: S.Streams<Owner>, id: int) {
    0 <= id < |s.storage| && s.storage[id].Some? && s.storage[id].value.Caller?
  }

  /** Each of those responses of a conforming server adds one id to `kept`, and nothing else does. */
  lemma KeptGrows(c: Conn, e: Event)
    requires Good(c) && Conforms(c, e) && Step(c, e).Running?
    ensures |Step(c, e).conn.kept| == |c.kept| + if KeepsCaller(c, e) then 1 else 0
  {
    if e.Receive? {
      AnswerKept(c, e.response);
      AnswerCounts(c, e.response);
    } else {
      OthersKeep(c, e);
    }
  }

  lemma OthersKeep(c: Conn, e: Event)
    requires Step(c, e).Running? && !e.Receive?
    ensures Step(c, e).conn.kept == c.kept
  {
  }

  lemma AnswerCounts(c: Conn, r: Response)
    requires S.Stored(c.streams) && Answers(c, r)
    ensures KeepsCaller(c, Receive(r)) <==>
            !(r.body.ResultBody? && r.body.kind != KIND_SET_KEYSPACE) && IsCallers(c.streams, r.stream)
  {
    assert IsCallers(c.streams, r.stream) <==> Live(c)[r.stream].Caller?;
  }

  lemma AnswerKept(c: Conn, r: Response)
    requires Dispatch(c, r).Running? && r.stream in S.LiveIds(c.streams) && r.stream !in c.answered
    ensures var gives := r.body.ResultBody? && r.body.kind != KIND_SET_KEYSPACE;
            |Dispatch(c, r).conn.kept| == |c.kept| + if !gives && IsCallers(c.streams, r.stream) then 1 else 0
  {
  }

  lemma {:induction false} AlwaysKept(cells: nat, es: seq<Event>)
    requires (cells == STREAM_ID_MAX || cells == STREAM_ID_MAX + 1) && After(Start(cells), es).Running?
    requires ConformingRun(Start(cells), es)
    ensures var c := After(Start(cells), es).conn;
            Good(c) && Kept(c) && |c.kept| == Times(Start(cells), es, KeepsCaller)
    decreases |es|
  {
    if es == [] {
      StartGood(cells);
      assert CallerIds(map[]) == {};
    } else {
      var n := |es| - 1;
      AlwaysKept(cells, es[..n]);
      StepKept(After(Start(cells), es[..n]).conn, es[n]);
      KeptGrows(After(Start(cells), es[..n]).conn, es[n]);
    }
  }

  /**
   Conservation over whole runs against a conforming server: the available ids, the ids awaiting a
   response, one id for every OPTIONS, STARTUP and keyspace change sent and one for every ERROR and
   SET_KEYSPACE response to a caller's request make up the 127.
   */
  lemma Conservation(cells: nat, es: seq<Event>)
    requires (cells == STREAM_ID_MAX || cells == STREAM_ID_MAX + 1) && After(Start(cells), es).Running?
    requires ConformingRun(Start(cells), es)
    ensures var c := After(Start(cells), es).conn;
            && Good(c)
            && S.Available(c.streams) + |Awaiting(c)| + CountOwn(c.sent) + Times(Start(cells), es, KeepsCaller)
               == STREAM_ID_MAX
  {
    AlwaysKept(cells, es);
    OwnNeverReturn(cells, es);
    var c := After(Start(cells), es).conn;
    Partition(c);
    SplitLive(Live(c), c.answered);
    KeptSize(Live(c), c.answered, c.kept);
  }

  // ---------------------------------------------------------------------------------------------
  // Running dry
  // ---------------------------------------------------------------------------------------------

  /** Every id that can be taken is orphaned: all 127 with 128 cells, and 126 with the arrays as written. */
  ghost predicate Dry(c: Conn)
    requires S.Stored(c.streams)
  {
    |Orphans(c)| == |c.streams.taken| - 1
  }

  /** No more than that can be orphaned; then nothing is awaited, and as written id 127 is still on the stack. */
  lemma DryMeans(c: Conn)
    requires Good(c)
    ensures |Orphans(c)| <= |c.streams.taken| - 1
    ensures Dry(c) ==> |Awaiting(c)| == 0 && S.Available(c.streams) == STREAM_ID_MAX + 1 - |c.streams.taken|
  {
    Partition(c);
    assert c.streams.index <= |c.streams.taken| - 1;
  }

  /** Once dry, a new request is refused; with the arrays as written it leaves them. */
  lemma DryRefuses(c: Conn)
    requires Good(c) && Dry(c)
    ensures |c.streams.taken| == STREAM_ID_MAX + 1 ==>
              DoSubmit(c) == Running(c.(created := c.created + 1, notices := c.notices + [Refused(c.created)]))
    ensures |c.streams.taken| == STREAM_ID_MAX ==> DoSubmit(c) == Faulted(OutsideArrays)
  {
    DrySet(c, Caller(c.created));
    SubmitFails(c);
  }

  lemma SubmitFails(c: Conn)
    ensures S.Set(c.streams, Caller(c.created)).NoStreams? ==>
              DoSubmit(c) == Running(c.(created := c.created + 1, notices := c.notices + [Refused(c.created)]))
    ensures S.Set(c.streams, Caller(c.created)).SetOutside? ==> DoSubmit(c) == Faulted(OutsideArrays)
  {
  }

  lemma DrySet(c: Conn, owner: Owner)
    requires Good(c) && Dry(c)
    ensures S.Set(c.streams, owner) == if |c.streams.taken| == STREAM_ID_MAX then S.SetOutside else S.NoStreams
  {
    DryMeans(c);
    S.IndexCounts(c.streams);
    S.SetFails(c.streams, owner);
  }

  /** And no step against a conforming server changes that. */
  lemma StaysDry(c: Conn, e: Event)
    requires Good(c) && Kept(c) && Dry(c) && Conforms(c, e) && Step(c, e).Running?
    ensures var d := Step(c, e).conn; Good(d) && Kept(d) && Dry(d)
  {
    StepKept(c, e);
    StepCells(c, e);
    DryMeans(Step(c, e).conn);
    SubsetSize(Orphans(c), Orphans(Step(c, e).conn));
  }

  lemma StepCells(c: Conn, e: Event)
    requires Step(c, e).Running?
    ensures |Step(c, e).conn.streams.taken| == |c.streams.taken|
  {
  }

  lemma SubsetSize(a: set<int>, b: set<int>)
    requires a <= b
    ensures |a| <= |b|
  {
    assert b == a + (b - a);
  }

  function Keyspaces(n: nat): seq<Event> {
    seq(n, _ => UseKeyspace)
  }

  /** Keyspace changes one after another take an id each. */
  lemma {:induction false} Draining(cells: nat, n: nat)
    requires (cells == STREAM_ID_MAX || cells == STREAM_ID_MAX + 1) && n < cells
    ensures var o := After(Start(cells), Keyspaces(n));
            && o.Running? && Good(o.conn) && o.conn.streams.index == CountOwn(o.conn.sent) == n
            && |o.conn.streams.taken| == cells && ConformingRun(Start(cells), Keyspaces(n))
    decreases n
  {
    if n == 0 {
      StartGood(cells);
    } else {
      Draining(cells, n - 1);
      assert Keyspaces(n)[..n - 1] == Keyspaces(n - 1);
      DrainOne(After(Start(cells), Keyspaces(n - 1)).conn);
    }
  }

  lemma DrainOne(c: Conn)
    requires Good(c) && c.streams.index < |c.streams.taken| - 1
    ensures var o := Step(c, UseKeyspace);
            && o.Running? && Good(o.conn) && o.conn.streams.index == c.streams.index + 1
            && CountOwn(o.conn.sent) == CountOwn(c.sent) + 1 && |o.conn.streams.taken| == |c.streams.taken|
  {
    HasId(c, Internal(Keyspace));
    SetMoves(c, Internal(Keyspace));
    KeyspaceSent(c);
  }

  lemma KeyspaceSent(c: Conn)
    requires S.Set(c.streams, Internal(Keyspace)).Given?
    ensures var r, o := S.Set(c.streams, Internal(Keyspace)), Step(c, UseKeyspace);
            && o == Running(c.(streams := r.after, sent := c.sent + [Sent(r.id, Internal(Keyspace))]))
            && CountOwn(o.conn.sent) == CountOwn(c.sent) + 1
            && r.after.index == c.streams.index + 1 && |r.after.taken| == |c.streams.taken|
  {
    CountOwnMore(c.sent, Sent(S.Set(c.streams, Internal(Keyspace)).id, Internal(Keyspace)));
  }

  lemma HasId(c: Conn, owner: Owner)
    requires Good(c) && c.streams.index < |c.streams.taken| - 1
    ensures S.Set(c.streams, owner).Given?
  {
    S.IndexCounts(c.streams);
    S.SetFails(c.streams, owner);
  }

  /** A dry state is reached: by 127 keyspace changes with 128 cells, by 126 as written. */
  lemma RunsDry(cells: nat)
    requires cells == STREAM_ID_MAX || cells == STREAM_ID_MAX + 1
    ensures var o := After(Start(cells), Keyspaces(cells - 1));
            && o.Running? && Good(o.conn) && Kept(o.conn) && Dry(o.conn)
            && ConformingRun(Start(cells), Keyspaces(cells - 1))
  {
    var es := Keyspaces(cells - 1);
    Draining(cells, cells - 1);
    var c := After(Start(cells), es).conn;
    AlwaysKept(cells, es);
    OwnNeverReturn(cells, es);
    SplitLive(Live(c), c.answered);
    DryMeans(c);
  }
}

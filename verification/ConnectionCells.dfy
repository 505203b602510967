/** The stream arrays as written, a cell too short, over whole runs of the connection. */
module ConnectionCells {
  import opened Protocol
  import opened Connection
  import S = StreamStorage

  /** The event makes the connection take a stream id, if there is one. */
  predicate TakesId(c: Conn, e: Event) {
    match e
    case Submit => true
    case UseKeyspace => true
    case ResolveDone(_) => false
    case ConnectDone(ok) => ok && c.connecting > 0
    case Receive(r) => r.stream >= 0 && r.body == SupportedBody
  }

  /** The event is a RESULT whose id is looked up. */
  predicate LooksUp(e: Event) {
    && e.Receive? && e.response.stream >= 0 && e.response.body.ResultBody?
    && KnownKind(e.response.body.kind) && e.response.body.kind != KIND_SET_KEYSPACE
  }

  /** The event asks for the last free id or looks up one from 127 on. */
  predicate Overruns(c: Conn, e: Event) {
    || (TakesId(c, e) && S.Available(c.streams) == 1)
    || (LooksUp(e) && e.response.stream >= STREAM_ID_MAX)
  }

  /** The id next on the stack has no cell. */
  predicate NoCell(s: S.Streams<Owner>) {
    S.Set(s, Internal(Keyspace)).SetOutside?
  }

  predicate NoCellFor(s: S.Streams<Owner>, id: int) {
    S.Get(s, id, true).GetOutside?
  }

  /** Which branches of a step touch the arrays. */
  lemma StepOutside(c: Conn, e: Event)
    ensures Step(c, e) == Faulted(OutsideArrays) <==>
            (TakesId(c, e) && NoCell(c.streams)) || (LooksUp(e) && NoCellFor(c.streams, e.response.stream))
  {
    match e
    case Receive(r) => ReceiveOutside(c, r);
    case _ =>
  }

  lemma ReceiveOutside(c: Conn, r: Response)
    ensures Dispatch(c, r) == Faulted(OutsideArrays) <==>
            (TakesId(c, Receive(r)) && NoCell(c.streams)) || (LooksUp(Receive(r)) && NoCellFor(c.streams, r.stream))
  {
  }

  /** One step of the connection as written leaves the arrays exactly on such an event. */
  lemma StepOverrunsIff(c: Conn, e: Event)
    requires Good(c) && |c.streams.taken| == STREAM_ID_MAX
    ensures Step(c, e) == Faulted(OutsideArrays) <==> Overruns(c, e)
  {
    StepOutside(c, e);
    S.SetFails(c.streams, Internal(Keyspace));
    S.IndexCounts(c.streams);
    if LooksUp(e) { S.GetRefines(c.streams, e.response.stream, true); }
  }

  // ---------------------------------------------------------------------------------------------
  // Beside a connection with one cell more
  // ---------------------------------------------------------------------------------------------

  /** The two connections differ in the idle last cell only. */
  ghost predicate Short(s: Conn, w: Conn) {
    w == s.(streams := w.streams) && S.Agree(s.streams, w.streams)
  }

  /** Both stopped for the same reason, or both run on. */
  ghost predicate Alike(s: Outcome, w: Outcome) {
    match w
    case Faulted(f) => s == Faulted(f)
    case Running(d) => s.Running? && Short(s.conn, d)
  }

  lemma SameIds(s: Conn, w: Conn)
    requires Short(s, w)
    ensures S.LiveIds(s.streams) == S.LiveIds(w.streams)
  {
  }

  lemma SendAlike(s: Conn, w: Conn, p: Purpose)
    requires Short(s, w) && SendInternal(w, p) != Faulted(OutsideArrays)
    ensures Alike(SendInternal(s, p), SendInternal(w, p))
  {
    S.SetAgrees(s.streams, w.streams, Internal(p));
  }

  lemma SubmitAlike(s: Conn, w: Conn)
    requires Short(s, w) && DoSubmit(w) != Faulted(OutsideArrays)
    ensures Alike(DoSubmit(s), DoSubmit(w))
  {
    S.SetAgrees(s.streams, w.streams, Caller(w.created));
  }

  lemma EventAlike(s: Conn, w: Conn)
    requires Short(s, w) && EventReceived(w) != Faulted(OutsideArrays)
    ensures Alike(EventReceived(s), EventReceived(w))
  {
    match w.phase
    case Connected => SendAlike(s.(phase := Handshake), w.(phase := Handshake), Options);
    case Handshake => SendAlike(s, w, Options);
    case Supported => SendAlike(s, w, Startup);
    case _ =>
  }

  lemma KeepAlike(s: Conn, w: Conn, stream: int)
    requires Short(s, w)
    ensures Short(Keep(s, stream), Keep(w, stream))
  {
    SameIds(s, w);
  }

  lemma ResultAlike(s: Conn, w: Conn, stream: int, kind: int)
    requires Short(s, w) && OnResult(w, stream, kind) != Faulted(OutsideArrays)
    ensures Alike(OnResult(s, stream, kind), OnResult(w, stream, kind))
  {
    if KnownKind(kind) {
      if kind == KIND_SET_KEYSPACE {
        KeepAlike(s, w, stream);
      } else {
        S.GetAgrees(s.streams, w.streams, stream, true);
      }
    }
  }

  lemma DispatchAlike(s: Conn, w: Conn, r: Response)
    requires Short(s, w) && Dispatch(w, r) != Faulted(OutsideArrays)
    ensures Alike(Dispatch(s, r), Dispatch(w, r))
  {
    KeepAlike(s, w, r.stream);
    if r.stream >= 0 {
      match r.body
      case SupportedBody =>
        EventAlike(Keep(s, r.stream).(phase := Supported), Keep(w, r.stream).(phase := Supported));
      case ReadyBody =>
        EventAlike(Keep(s, r.stream).(phase := Ready), Keep(w, r.stream).(phase := Ready));
      case ResultBody(kind) => ResultAlike(s, w, r.stream, kind);
      case _ =>
    }
  }

  /** Unless the shorter arrays are left, a step leads the two connections to the same outcome. */
  lemma StepAlike(s: Conn, w: Conn, e: Event)
    requires Short(s, w) && Step(w, e) != Faulted(OutsideArrays)
    ensures Alike(Step(s, e), Step(w, e))
  {
    match e
    case Submit => SubmitAlike(s, w);
    case UseKeyspace => SendAlike(s, w, Keyspace);
    case Receive(r) => DispatchAlike(s, w, r);
    case ResolveDone(ok) =>
      if w.resolving > 0 && ok {
        EventAlike(s.(resolving := s.resolving - 1, phase := Resolved),
                   w.(resolving := w.resolving - 1, phase := Resolved));
      }
    case ConnectDone(ok) =>
      if w.connecting > 0 && ok {
        EventAlike(s.(connecting := s.connecting - 1, phase := Connected),
                   w.(connecting := w.connecting - 1, phase := Connected));
      }
  }

  // ---------------------------------------------------------------------------------------------
  // Whole runs
  // ---------------------------------------------------------------------------------------------

  /** No event of the run from c asks for the last free id or looks up one from 127 on. */
  predicate StaysInside(c: Conn, es: seq<Event>)
    decreases |es|
  {
    es == [] ||
    (StaysInside(c, es[..|es| - 1])
     && match After(c, es[..|es| - 1])
        case Running(d) => !Overruns(d, es[|es| - 1])
        case Faulted(_) => true)
  }

  lemma StartShort()
    ensures Short(Start(STREAM_ID_MAX + 1), Start(STREAM_ID_MAX))
  {
    var s, w := Start(STREAM_ID_MAX + 1).streams, Start(STREAM_ID_MAX).streams;
    assert w.taken == s.taken[..STREAM_ID_MAX] && w.storage == s.storage[..STREAM_ID_MAX];
  }

  lemma {:induction false} AlikeOrOutside(es: seq<Event>)
    ensures var s, w := After(Start(STREAM_ID_MAX + 1), es), After(Start(STREAM_ID_MAX), es);
            && (StaysInside(Start(STREAM_ID_MAX + 1), es) ==> Alike(s, w) && w != Faulted(OutsideArrays))
            && (!StaysInside(Start(STREAM_ID_MAX + 1), es) ==> w == Faulted(OutsideArrays))
            && (w.Running? ==> Good(w.conn))
    decreases |es|
  {
    if es == [] {
      StartShort();
      StartGood(STREAM_ID_MAX);
    } else {
      var n := |es| - 1;
      AlikeOrOutside(es[..n]);
      var s, w := After(Start(STREAM_ID_MAX + 1), es[..n]), After(Start(STREAM_ID_MAX), es[..n]);
      if w.Running? { OneMoreAlike(s.conn, w.conn, es[n]); }
    }
  }

  lemma OneMoreAlike(s: Conn, w: Conn, e: Event)
    requires Good(w) && Short(s, w)
    ensures Overruns(s, e) ==> Step(w, e) == Faulted(OutsideArrays)
    ensures !Overruns(s, e) ==> Alike(Step(s, e), Step(w, e)) && Step(w, e) != Faulted(OutsideArrays)
    ensures Step(w, e).Running? ==> Good(Step(w, e).conn)
  {
    StepOverrunsIff(w, e);
    assert Overruns(s, e) == Overruns(w, e);
    if Step(w, e).Running? { var m := StepMoves(w, e); }
    if !Overruns(s, e) { StepAlike(s, w, e); }
  }

  /**
   Whatever the callers and the server do, the connection as written ends as one with 128 cells does,
   in the same state but for the idle last cell, if and only if along that one's run no event asks for
   the last free id and no looked-up id is 127 or more; otherwise it leaves its arrays.
   */
  lemma AsWrittenIff(es: seq<Event>)
    ensures var s, w := After(Start(STREAM_ID_MAX + 1), es), After(Start(STREAM_ID_MAX), es);
            && (w == Faulted(OutsideArrays) <==> !StaysInside(Start(STREAM_ID_MAX + 1), es))
            && (w != Faulted(OutsideArrays) ==> Alike(s, w))
  {
    AlikeOrOutside(es);
  }

  /** A RESULT under id 127, before anything was sent, is enough; with 128 cells the run goes on. */
  lemma UnaskedResultOverruns()
    ensures var es := [Receive(Response(STREAM_ID_MAX, ResultBody(1)))];
            && After(Start(STREAM_ID_MAX), es) == Faulted(OutsideArrays)
            && After(Start(STREAM_ID_MAX + 1), es).Running?
  {
    var e := Receive(Response(STREAM_ID_MAX, ResultBody(1)));
    assert [e][..0] == [];
    assert After(Start(STREAM_ID_MAX), [e]) == Step(Start(STREAM_ID_MAX), e);
    assert After(Start(STREAM_ID_MAX + 1), [e]) == Step(Start(STREAM_ID_MAX + 1), e);
  }
}

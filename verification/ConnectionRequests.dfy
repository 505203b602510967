/** Requests and their responses over whole runs, whatever the server sends. */
module ConnectionRequests {
  import opened Protocol
  import opened Connection
  import S = StreamStorage

  function Noticed(ns: seq<Notice>): set<nat> {
    set n | n in ns :: n.request
  }

  /** Each request's message is sent at most once. */
  ghost predicate SentOnce(sent: seq<Sent>, created: nat) {
    && (forall i | 0 <= i < |sent| && sent[i].owner.Caller? :: sent[i].owner.request < created)
    && (forall i, j | 0 <= i < j < |sent| && sent[i].owner.Caller? :: sent[i].owner != sent[j].owner)
  }

  /** Each request is notified at most once. */
  ghost predicate NoticedOnce(notices: seq<Notice>, created: nat) {
    && (forall i | 0 <= i < |notices| :: notices[i].request < created)
    && (forall i, j | 0 <= i < j < |notices| :: notices[i].request != notices[j].request)
  }

  /** A result carries the id written in the request's own header; a refused request was never sent. */
  ghost predicate AnswersMatch(sent: seq<Sent>, notices: seq<Notice>) {
    forall n | n in notices ::
      if n.Answered? then Sent(n.stream, Caller(n.request)) in sent
      else forall x | x in sent :: x.owner != Caller(n.request)
  }

  /** The live ids of callers are exactly the ids of requests sent and not yet notified. */
  ghost predicate LiveIsPending(live: map<int, Owner>, sent: seq<Sent>, noticed: set<nat>) {
    && (forall id | id in live && live[id].Caller? :: Sent(id, live[id]) in sent && live[id].request !in noticed)
    && (forall x | x in sent && x.owner.Caller? && x.owner.request !in noticed ::
          x.stream in live && live[x.stream] == x.owner)
  }

  /** Every request was notified or sent. */
  ghost predicate NoneLost(sent: seq<Sent>, noticed: set<nat>, created: nat) {
    forall r: nat | r < created :: r in noticed || exists x :: x in sent && x.owner == Caller(r)
  }

  ghost predicate Sound(l: Ledger)
    requires S.Stored(l.streams)
  {
    && SentOnce(l.sent, l.created) && NoticedOnce(l.notices, l.created) && AnswersMatch(l.sent, l.notices)
    && LiveIsPending(S.Live(l.streams), l.sent, Noticed(l.notices))
    && NoneLost(l.sent, Noticed(l.notices), l.created)
  }

  // ---------------------------------------------------------------------------------------------
  // Each move keeps the books sound
  // ---------------------------------------------------------------------------------------------

  lemma NoticedMore(ns: seq<Notice>, n: Notice)
    ensures Noticed(ns + [n]) == Noticed(ns) + {n.request}
  {
  }

  /** A caller's message goes out under a fresh id. */
  lemma SendCaller(live: map<int, Owner>, created: nat, sent: seq<Sent>, notices: seq<Notice>, id: int)
    requires SentOnce(sent, created) && NoticedOnce(notices, created) && AnswersMatch(sent, notices)
    requires LiveIsPending(live, sent, Noticed(notices)) && NoneLost(sent, Noticed(notices), created)
    requires id !in live
    ensures var sent' := sent + [Sent(id, Caller(created))];
            && SentOnce(sent', created + 1) && NoticedOnce(notices, created + 1) && AnswersMatch(sent', notices)
            && LiveIsPending(live[id := Caller(created)], sent', Noticed(notices))
            && NoneLost(sent', Noticed(notices), created + 1)
  {
    var x := Sent(id, Caller(created));
    var sent' := sent + [x];
    assert forall y :: y in sent' <==> y in sent || y == x;
    assert created !in Noticed(notices);
  }

  /** The connection's own message takes a fresh id. */
  lemma SendOwn(live: map<int, Owner>, created: nat, sent: seq<Sent>, notices: seq<Notice>, id: int, p: Purpose)
    requires SentOnce(sent, created) && AnswersMatch(sent, notices)
    requires LiveIsPending(live, sent, Noticed(notices)) && NoneLost(sent, Noticed(notices), created)
    requires id !in live
    ensures var sent' := sent + [Sent(id, Internal(p))];
            && SentOnce(sent', created) && AnswersMatch(sent', notices)
            && LiveIsPending(live[id := Internal(p)], sent', Noticed(notices))
            && NoneLost(sent', Noticed(notices), created)
  {
    var x := Sent(id, Internal(p));
    var sent' := sent + [x];
    assert forall y :: y in sent' <==> y in sent || y == x;
    forall r: nat | r < created ensures r in Noticed(notices) || exists x :: x in sent' && x.owner == Caller(r) {
      if r !in Noticed(notices) {
        var y :| y in sent && y.owner == Caller(r);
        assert y in sent';
      }
    }
  }

  /** A new request is refused. */
  lemma RefuseNew(live: map<int, Owner>, created: nat, sent: seq<Sent>, notices: seq<Notice>)
    requires SentOnce(sent, created) && NoticedOnce(notices, created) && AnswersMatch(sent, notices)
    requires LiveIsPending(live, sent, Noticed(notices)) && NoneLost(sent, Noticed(notices), created)
    ensures var notices' := notices + [Refused(created)];
            && SentOnce(sent, created + 1) && NoticedOnce(notices', created + 1) && AnswersMatch(sent, notices')
            && LiveIsPending(live, sent, Noticed(notices'))
            && NoneLost(sent, Noticed(notices'), created + 1)
  {
    var n := Refused(created);
    NoticedMore(notices, n);
    assert forall y :: y in notices + [n] <==> y in notices || y == n;
    forall x | x in sent ensures x.owner != Caller(created) {
      var i :| 0 <= i < |sent| && sent[i] == x;
    }
  }

  /** The id of a pending request is given back and the request notified. */
  lemma NotifyPending(live: map<int, Owner>, created: nat, sent: seq<Sent>, notices: seq<Notice>, id: int, r: nat)
    requires SentOnce(sent, created) && NoticedOnce(notices, created) && AnswersMatch(sent, notices)
    requires LiveIsPending(live, sent, Noticed(notices)) && NoneLost(sent, Noticed(notices), created)
    requires id in live && live[id] == Caller(r)
    ensures var notices' := notices + [Answered(r, id)];
            && NoticedOnce(notices', created) && AnswersMatch(sent, notices')
            && LiveIsPending(live - {id}, sent, Noticed(notices'))
            && NoneLost(sent, Noticed(notices'), created)
  {
    var n := Answered(r, id);
    NoticedMore(notices, n);
    assert forall y :: y in notices + [n] <==> y in notices || y == n;
    var k :| 0 <= k < |sent| && sent[k] == Sent(id, Caller(r));
    forall i | 0 <= i < |notices| ensures notices[i].request != r {
      assert notices[i] in notices;
    }
    OnlyOneId(live, created, sent, Noticed(notices), id, r);
  }

  /** A pending request has one live id. */
  lemma OnlyOneId(live: map<int, Owner>, created: nat, sent: seq<Sent>, noticed: set<nat>, id: int, r: nat)
    requires SentOnce(sent, created) && LiveIsPending(live, sent, noticed) && id in live && live[id] == Caller(r)
    ensures forall x | x in sent && x.owner == Caller(r) :: x == Sent(id, Caller(r))
    ensures forall i | i in live && live[i] == Caller(r) :: i == id
  {
    var k :| 0 <= k < |sent| && sent[k] == Sent(id, Caller(r));
    forall x | x in sent && x.owner == Caller(r) ensures x == Sent(id, Caller(r)) {
      var j :| 0 <= j < |sent| && sent[j] == x;
    }
  }

  lemma MoveSound(a: Ledger, m: Move, b: Ledger)
    requires S.Good(a.streams) && S.Good(b.streams) && Sound(a) && Moves(a, m, b)
    ensures Sound(b)
  {
    match m
    case Idle =>
    case TakeFor(id, owner) =>
      if owner.Caller? {
        SendCaller(S.Live(a.streams), a.created, a.sent, a.notices, id);
      } else {
        SendOwn(S.Live(a.streams), a.created, a.sent, a.notices, id, owner.purpose);
      }
    case Refuse => RefuseNew(S.Live(a.streams), a.created, a.sent, a.notices);
    case GiveBack(id, r) => NotifyPending(S.Live(a.streams), a.created, a.sent, a.notices, id, r);
  }

  /** Over every run of the connection, whatever is submitted and whatever the server sends. */
  lemma {:induction false} AlwaysSound(cells: nat, es: seq<Event>)
    requires (cells == STREAM_ID_MAX || cells == STREAM_ID_MAX + 1) && After(Start(cells), es).Running?
    ensures var c := After(Start(cells), es).conn; Good(c) && Sound(Books(c))
    decreases |es|
  {
    if es == [] {
      StartGood(cells);
    } else {
      var n := |es| - 1;
      AlwaysSound(cells, es[..n]);
      var c := After(Start(cells), es[..n]).conn;
      var m := StepMoves(c, es[n]);
      MoveSound(Books(c), m, Books(After(Start(cells), es).conn));
    }
  }

  // ---------------------------------------------------------------------------------------------
  // What that means for callers
  // ---------------------------------------------------------------------------------------------

  /** A result goes with the only message sent for its request. */
  ghost predicate OwnResults(sent: seq<Sent>, notices: seq<Notice>) {
    forall n, x | n in notices && n.Answered? && x in sent && x.owner == Caller(n.request) :: x.stream == n.stream
  }

  lemma SoundOwnResults(sent: seq<Sent>, notices: seq<Notice>, created: nat)
    requires SentOnce(sent, created) && AnswersMatch(sent, notices)
    ensures OwnResults(sent, notices)
  {
    forall n, x | n in notices && n.Answered? && x in sent && x.owner == Caller(n.request)
      ensures x.stream == n.stream
    {
      var i :| 0 <= i < |sent| && sent[i] == x;
      var j :| 0 <= j < |sent| && sent[j] == Sent(n.stream, Caller(n.request));
    }
  }

  /**
   In every reachable state each request was notified at most once; a result it was notified with
   carries the id its own message was sent under, which is the only message sent for it; and a
   refused request was never sent.
   */
  lemma AnsweredByOwnId(cells: nat, es: seq<Event>)
    requires (cells == STREAM_ID_MAX || cells == STREAM_ID_MAX + 1) && After(Start(cells), es).Running?
    ensures var c := After(Start(cells), es).conn;
            && (forall i, j | 0 <= i < j < |c.notices| :: c.notices[i].request != c.notices[j].request)
            && AnswersMatch(c.sent, c.notices) && OwnResults(c.sent, c.notices)
  {
    AlwaysSound(cells, es);
    var c := After(Start(cells), es).conn;
    SoundOwnResults(c.sent, c.notices, c.created);
  }

  /** No two requests that were sent and are not yet notified share an id; none that was made is lost. */
  lemma UnansweredApart(cells: nat, es: seq<Event>)
    requires (cells == STREAM_ID_MAX || cells == STREAM_ID_MAX + 1) && After(Start(cells), es).Running?
    ensures var c := After(Start(cells), es).conn;
            && (forall x, y | x in c.sent && y in c.sent && x.owner.Caller? && y.owner.Caller?
                              && x.owner.request !in Noticed(c.notices) && y.owner.request !in Noticed(c.notices)
                              && x.stream == y.stream :: x == y)
            && (forall r: nat | r < c.created ::
                  r in Noticed(c.notices) || exists x :: x in c.sent && x.owner == Caller(r))
  {
    AlwaysSound(cells, es);
  }

  /**
   In a reachable state a RESULT under the id of a request that was sent and is not yet notified
   notifies that request, and no other, and gives the id back.
   */
  lemma ResultNotifiesOwner(c: Conn, x: Sent, kind: int)
    requires Good(c) && Sound(Books(c)) && KnownKind(kind) && kind != KIND_SET_KEYSPACE
    requires x in c.sent && x.owner.Caller? && x.owner.request !in Noticed(c.notices)
    ensures var r := OnResult(c, x.stream, kind);
            && r.Running? && r.conn.notices == c.notices + [Answered(x.owner.request, x.stream)]
            && x.stream !in S.LiveIds(r.conn.streams)
  {
    PendingIsLive(c, x);
    S.GetRefines(c.streams, x.stream, true);
    S.ReleasedIds(c.streams, x.stream);
  }

  lemma PendingIsLive(c: Conn, x: Sent)
    requires Good(c) && Sound(Books(c)) && x in c.sent && x.owner.Caller? && x.owner.request !in Noticed(c.notices)
    ensures x.stream in S.LiveIds(c.streams) && S.Live(c.streams)[x.stream] == x.owner
  {
  }

  /** Except that SET_KEYSPACE, whatever its id, notifies nobody and gives nothing back. */
  lemma SetKeyspaceNotifiesNobody(c: Conn, stream: int)
    ensures var r := OnResult(c, stream, KIND_SET_KEYSPACE); r.Running? && Books(r.conn) == Books(c)
  {
  }

  /**
   A RESULT stops the connection exactly when its kind is unknown, or it is not SET_KEYSPACE and its
   id has no cell or is live for one of the connection's own messages, whose request is NULL.
   */
  lemma ResultFaultsIff(c: Conn, stream: int, kind: int)
    requires Good(c) && stream >= 0
    ensures OnResult(c, stream, kind).Faulted? <==>
            (!KnownKind(kind) ||
             (kind != KIND_SET_KEYSPACE &&
              (stream >= |c.streams.storage| ||
               (stream in S.LiveIds(c.streams) && S.Live(c.streams)[stream].Internal?))))
    ensures OnResult(c, stream, kind) == Faulted(NullRequest) <==>
            (KnownKind(kind) && kind != KIND_SET_KEYSPACE && stream in S.LiveIds(c.streams)
             && S.Live(c.streams)[stream].Internal?)
  {
    S.GetRefines(c.streams, stream, true);
  }

  /** The second of two RESULTs for the same id notifies nobody. */
  lemma DuplicateIgnored(c: Conn, stream: int, kind: int, again: int)
    requires Good(c) && stream >= 0 && KnownKind(again) && again != KIND_SET_KEYSPACE
    requires kind != KIND_SET_KEYSPACE && OnResult(c, stream, kind).Running?
    ensures var d := OnResult(c, stream, kind).conn;
            OnResult(d, stream, again).Running? && Books(OnResult(d, stream, again).conn) == Books(d)
  {
    var m := ResultMoves(c, stream, kind);
    S.GetRefines(c.streams, stream, true);
    S.GetRefines(OnResult(c, stream, kind).conn.streams, stream, true);
  }
}

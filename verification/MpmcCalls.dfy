/**
 Calls from their beginning to their return: which way a sequence load sends a call, when a call may
 return and what it then returns, and what that amounts to over whole runs.
 */
module MpmcCalls {
  import opened Prelude
  import opened MpmcProtocol
  import opened MpmcInvariant
  import opened MpmcFifo

  // ---------------------------------------------------------------------------------------------
  // Which way a sequence load sends a call
  // ---------------------------------------------------------------------------------------------

  /** The ticket one lap before the head has not left its slot. */
  ghost predicate IsFull<V>(s: State<V>) {
    s.head >= s.size && NotReleased(s, s.head - s.size)
  }

  /**
   At the current head an enqueue gives up when the ticket one lap earlier is unreleased and goes on to
   its compare-exchange otherwise; with an older ticket it goes on to lose while that ticket is
   unpublished, and reloads after that.
   */
  lemma EnqueueLoadIs<V>(s: State<V>, tid: Tid)
    requires Inv(s) && PcOf(s, tid).EnqSeq?
    ensures var h, v := PcOf(s, tid).ticket, PcOf(s, tid).item;
            Step(s, LoadSeq(tid)).value.pcs[tid] ==
            if h == s.head then (if IsFull(s) then Idle else EnqCas(v, h))
            else if SomeEnqueuer(s, h) then EnqCas(v, h) else EnqTicket(v)
  {
    var h := PcOf(s, tid).ticket;
    assert PcOk(s, s.pcs[tid]);
    EnqueueFailsIff(s, tid);
    if h == s.head {
      HeadSlotNotAhead(s, h);
    } else {
      OlderTicketSees(s, h);
    }
  }

  lemma OlderTicketSees<V>(s: State<V>, h: nat)
    requires Inv(s) && h < s.head
    ensures s.seqs[Slot(h, s.size)] == h <==> SomeEnqueuer(s, h)
  {
    var i := Slot(h, s.size);
    assert SlotOk(s, i);
    if SomeEnqueuer(s, h) {
      var b :| b in s.pcs && HoldsEnq(s.pcs[b], h);
      assert PcOk(s, s.pcs[b]);
    } else if s.seqs[i] == h && h > 0 {
      NextSlotDiffers(h - 1, s.size);
    }
  }

  lemma HeadSlotNotAhead<V>(s: State<V>, h: nat)
    requires Inv(s) && h == s.head
    ensures s.seqs[Slot(h, s.size)] <= h
  {
    var i := Slot(h, s.size);
    assert SlotOk(s, i);
    var q := s.seqs[i];
    if q > h && FreeFor(s, i, q) { SlotApart(h, q, s.size); }
  }

  /** The dequeue side of the same. */
  lemma DequeueLoadIs<V>(s: State<V>, tid: Tid)
    requires Inv(s) && PcOf(s, tid).DeqSeq?
    ensures var t := PcOf(s, tid).ticket;
            Step(s, LoadSeq(tid)).value.pcs[tid] ==
            if t == s.tail then (if NotPublished(s, t) then Idle else DeqCas(t))
            else if SomeDequeuer(s, t) then DeqCas(t) else DeqTicket
  {
    var t := PcOf(s, tid).ticket;
    var i := Slot(t, s.size);
    assert PcOk(s, s.pcs[tid]) && SlotOk(s, i);
    DequeueFailsIff(s, tid);
    if t == s.tail {
      TailSlotNotAhead(s, t);
    } else if SomeDequeuer(s, t) {
      var b :| b in s.pcs && HoldsDeq(s.pcs[b], t);
      assert PcOk(s, s.pcs[b]);
    } else if s.seqs[i] == t + 1 && FreeFor(s, i, t + 1) {
      NextSlotDiffers(t, s.size);
    }
  }

  lemma TailSlotNotAhead<V>(s: State<V>, t: nat)
    requires Inv(s) && t == s.tail
    ensures s.seqs[Slot(t, s.size)] <= t + 1
  {
    var i := Slot(t, s.size);
    assert SlotOk(s, i);
    var q := s.seqs[i];
    if q > t + 1 {
      if FreeFor(s, i, q) {
        SlotApart(t, q, s.size);
      } else {
        SlotApart(t, q - 1, s.size);
      }
    }
  }

  /** A ticket load, and a lost compare-exchange, may deliver any value up to the counter; the call goes on with it. */
  lemma LoadsDeliver<V>(s: State<V>, tid: Tid, seen: nat, spurious: bool)
    requires Wf(s)
    ensures var p, load, cas := PcOf(s, tid), Step(s, LoadTicket(tid, seen)), Step(s, Cas(tid, spurious, seen));
            && (p.EnqTicket? && seen <= s.head ==> load == Some(Goto(s, tid, EnqSeq(p.item, seen))))
            && (p.DeqTicket? && seen <= s.tail ==> load == Some(Goto(s, tid, DeqSeq(seen))))
            && (p.EnqCas? && seen <= s.head && (spurious || s.head != p.ticket) ==>
                  cas == Some(Goto(s, tid, EnqSeq(p.item, seen))))
            && (p.DeqCas? && seen <= s.tail && (spurious || s.tail != p.ticket) ==>
                  cas == Some(Goto(s, tid, DeqSeq(seen))))
  {
  }

  // ---------------------------------------------------------------------------------------------
  // When a call returns
  // ---------------------------------------------------------------------------------------------

  datatype Call<V> = Enqueuing(item: V) | Dequeuing

  /** True, or false because the queue was full; true with an item, or false because it was empty. */
  datatype Return<V> = Stored(item: V) | Full(item: V) | Took(item: V) | Empty

  /** The call a thread is inside of. */
  function CallOf<V>(p: Pc<V>): Option<Call<V>> {
    match p
    case Idle => None
    case EnqTicket(v) => Some(Enqueuing(v))
    case EnqSeq(v, _) => Some(Enqueuing(v))
    case EnqCas(v, _) => Some(Enqueuing(v))
    case EnqWrite(v, _) => Some(Enqueuing(v))
    case EnqPublish(v, _) => Some(Enqueuing(v))
    case _ => Some(Dequeuing)
  }

  /** The call that returns this. */
  function CallBefore<V>(r: Return<V>): Call<V> {
    match r
    case Stored(v) => Enqueuing(v)
    case Full(v) => Enqueuing(v)
    case _ => Dequeuing
  }

  /** The only ways to return: a release store, or a sequence load at the current ticket of a full or empty queue. */
  ghost function ReturnAt<V>(s: State<V>, a: Action<V>): Option<Return<V>> {
    var p := PcOf(s, a.tid);
    if a.Store? && p.EnqPublish? then Some(Stored(p.item))
    else if a.Store? && p.DeqRelease? then Some(Took(p.item))
    else if a.LoadSeq? && p.EnqSeq? && p.ticket == s.head && IsFull(s) then Some(Full(p.item))
    else if a.LoadSeq? && p.DeqSeq? && p.ticket == s.tail && NotPublished(s, s.tail) then Some(Empty)
    else None
  }

  function BeginAt<V>(a: Action<V>): Option<Call<V>> {
    match a
    case BeginEnqueue(_, v) => Some(Enqueuing(v))
    case BeginDequeue(_) => Some(Dequeuing)
    case _ => None
  }

  /** A thread inside a call is idle after its step if and only if the step is one of the ways to return. */
  lemma ReturnsIff<V>(s: State<V>, a: Action<V>)
    requires Inv(s) && Step(s, a).Some? && !PcOf(s, a.tid).Idle?
    ensures PcOf(Step(s, a).value, a.tid).Idle? <==> ReturnAt(s, a).Some?
  {
    if PcOf(s, a.tid).EnqSeq? {
      EnqueueFailsIff(s, a.tid);
    } else if PcOf(s, a.tid).DeqSeq? {
      DequeueFailsIff(s, a.tid);
    }
  }

  /** A step that does not return leaves the thread in the call it was in, with its own item, or begins one. */
  lemma StaysInCall<V>(s: State<V>, a: Action<V>)
    requires Wf(s) && Step(s, a).Some?
    ensures var p, q := CallOf(PcOf(s, a.tid)), CallOf(PcOf(Step(s, a).value, a.tid));
            if BeginAt(a).Some? then p == None && q == BeginAt(a)
            else p.Some? && (q == p || q == None)
  {
  }

  /** A step returns from the call the thread is in. */
  lemma ReturnsOwnCall<V>(s: State<V>, a: Action<V>)
    requires ReturnAt(s, a).Some?
    ensures BeginAt(a) == None && CallOf(PcOf(s, a.tid)) == Some(CallBefore(ReturnAt(s, a).value))
  {
  }

  /** Other threads stay where they are. */
  lemma OthersStay<V>(s: State<V>, a: Action<V>, tid: Tid)
    requires Wf(s) && Step(s, a).Some? && a.tid != tid
    ensures PcOf(Step(s, a).value, tid) == PcOf(s, tid)
  {
  }

  // ---------------------------------------------------------------------------------------------
  // Whole runs
  // ---------------------------------------------------------------------------------------------

  function Listed<T>(x: Option<T>): seq<T> {
    if x.None? then [] else [x.value]
  }

  /** The calls a thread began, in order. */
  function Begun<V>(acts: seq<Action<V>>, tid: Tid): seq<Call<V>>
    decreases |acts|
  {
    if acts == [] then [] else
    var n := |acts| - 1;
    Begun(acts[..n], tid) + if acts[n].tid == tid then Listed(BeginAt(acts[n])) else []
  }

  /** What its calls returned, in order. */
  ghost function Returned<V>(s: State<V>, acts: seq<Action<V>>, tid: Tid): seq<Return<V>>
    requires Wf(s) && Run(s, acts).Some?
    decreases |acts|
  {
    if acts == [] then [] else
    var n := |acts| - 1;
    Returned(s, acts[..n], tid) + if acts[n].tid == tid then Listed(ReturnAt(Run(s, acts[..n]).value, acts[n])) else []
  }

  function CallsBefore<V>(rs: seq<Return<V>>): seq<Call<V>> {
    seq(|rs|, i requires 0 <= i < |rs| => CallBefore(rs[i]))
  }

  lemma OneStepAccounted<V>(s: State<V>, a: Action<V>, tid: Tid, begun: seq<Call<V>>, returned: seq<Return<V>>)
    requires Inv(s) && Step(s, a).Some? && a.tid == tid
    requires begun == CallsBefore(returned) + Listed(CallOf(PcOf(s, tid)))
    ensures begun + Listed(BeginAt(a))
         == CallsBefore(returned + Listed(ReturnAt(s, a))) + Listed(CallOf(PcOf(Step(s, a).value, tid)))
  {
    StaysInCall(s, a);
    if ReturnAt(s, a).Some? {
      ReturnsIff(s, a);
      ReturnsOwnCall(s, a);
      assert CallsBefore(returned + [ReturnAt(s, a).value])
          == CallsBefore(returned) + [CallBefore(ReturnAt(s, a).value)];
    } else if !PcOf(s, tid).Idle? {
      ReturnsIff(s, a);
    }
  }

  /**
   Over every interleaving, the calls a thread began are, in order, those that returned and then the
   one it is inside of: no call is abandoned, and an item that is not stored was refused at a full queue.
   */
  lemma {:induction false} EveryCallAccounted<V>(size: nat, acts: seq<Action<V>>, tid: Tid)
    requires size >= 2 && Run(Init<V>(size), acts).Some?
    ensures Begun(acts, tid)
         == CallsBefore(Returned(Init<V>(size), acts, tid))
            + Listed(CallOf(PcOf(Run(Init<V>(size), acts).value, tid)))
    decreases |acts|
  {
    if acts != [] {
      var n := |acts| - 1;
      EveryCallAccounted(size, acts[..n], tid);
      InitInv<V>(size);
      RunInv(Init<V>(size), acts[..n]);
      AnyStepAccounted(Run(Init<V>(size), acts[..n]).value, acts[n], tid,
                       Begun(acts[..n], tid), Returned(Init<V>(size), acts[..n], tid));
    }
  }

  lemma AnyStepAccounted<V>(s: State<V>, a: Action<V>, tid: Tid, begun: seq<Call<V>>, returned: seq<Return<V>>)
    requires Inv(s) && Step(s, a).Some?
    requires begun == CallsBefore(returned) + Listed(CallOf(PcOf(s, tid)))
    ensures begun + (if a.tid == tid then Listed(BeginAt(a)) else [])
         == CallsBefore(returned + (if a.tid == tid then Listed(ReturnAt(s, a)) else []))
            + Listed(CallOf(PcOf(Step(s, a).value, tid)))
  {
    if a.tid == tid {
      OneStepAccounted(s, a, tid, begun, returned);
    } else {
      OthersStay(s, a, tid);
      assert begun + [] == begun && returned + [] == returned;
    }
  }

  // ---------------------------------------------------------------------------------------------
  // What was returned is what was pushed and popped
  // ---------------------------------------------------------------------------------------------

  /** The items a thread's winning compare-exchanges pushed and popped, in order. */
  function PushedAt<V>(s: State<V>, a: Action<V>): seq<V> {
    if WinsEnq(s, a) then [PcOf(s, a.tid).item] else []
  }

  function PoppedAt<V>(s: State<V>, a: Action<V>): seq<V> {
    if WinsDeq(s, a) && s.tail < |s.won| then [s.won[s.tail]] else []
  }

  function Pushed<V>(s: State<V>, acts: seq<Action<V>>, tid: Tid): seq<V>
    requires Wf(s) && Run(s, acts).Some?
    decreases |acts|
  {
    if acts == [] then [] else
    var n := |acts| - 1;
    Pushed(s, acts[..n], tid) + if acts[n].tid == tid then PushedAt(Run(s, acts[..n]).value, acts[n]) else []
  }

  function Popped<V>(s: State<V>, acts: seq<Action<V>>, tid: Tid): seq<V>
    requires Wf(s) && Run(s, acts).Some?
    decreases |acts|
  {
    if acts == [] then [] else
    var n := |acts| - 1;
    Popped(s, acts[..n], tid) + if acts[n].tid == tid then PoppedAt(Run(s, acts[..n]).value, acts[n]) else []
  }

  /** The items of the calls that returned true. */
  function StoredItems<V>(rs: seq<Return<V>>): seq<V> {
    if rs == [] then [] else
    StoredItems(rs[..|rs| - 1]) + if rs[|rs| - 1].Stored? then [rs[|rs| - 1].item] else []
  }

  function TakenItems<V>(rs: seq<Return<V>>): seq<V> {
    if rs == [] then [] else
    TakenItems(rs[..|rs| - 1]) + if rs[|rs| - 1].Took? then [rs[|rs| - 1].item] else []
  }

  function StoredBy<V>(r: Option<Return<V>>): seq<V> {
    if r.Some? && r.value.Stored? then [r.value.item] else []
  }

  function TakenBy<V>(r: Option<Return<V>>): seq<V> {
    if r.Some? && r.value.Took? then [r.value.item] else []
  }

  lemma OneMoreReturn<V>(rs: seq<Return<V>>, r: Option<Return<V>>)
    ensures StoredItems(rs + Listed(r)) == StoredItems(rs) + StoredBy(r)
    ensures TakenItems(rs + Listed(r)) == TakenItems(rs) + TakenBy(r)
  {
    assert r.Some? ==> (rs + [r.value])[..|rs|] == rs;
    assert r.None? ==> rs + Listed(r) == rs;
  }

  /** What flows through one step flows through the lists. */
  lemma Flow<T>(done: seq<T>, held: seq<T>, all: seq<T>, more: seq<T>, held': seq<T>, next: seq<T>)
    requires done + held == all && more + held' == held + next
    ensures done + more + held' == all + next
  {
    assert done + more + held' == done + (more + held') && done + (held + next) == done + held + next;
  }

  /** The item a thread has pushed and not yet returned from, and the one it has popped. */
  function InPush<V>(p: Pc<V>): seq<V> {
    if p.EnqWrite? || p.EnqPublish? then [p.item] else []
  }

  function InPop<V>(s: State<V>, p: Pc<V>): seq<V> {
    if p.DeqRelease? then [p.item]
    else if p.DeqRead? && p.ticket < |s.won| then [s.won[p.ticket]]
    else []
  }

  lemma PushFlows<V>(s: State<V>, a: Action<V>)
    requires Inv(s) && Step(s, a).Some?
    ensures StoredBy(ReturnAt(s, a)) + InPush(PcOf(Step(s, a).value, a.tid)) == InPush(PcOf(s, a.tid)) + PushedAt(s, a)
  {
    assert PcOf(Step(s, a).value, a.tid) == Step(s, a).value.pcs[a.tid];
  }

  lemma PopFlows<V>(s: State<V>, a: Action<V>)
    requires Inv(s) && Step(s, a).Some?
    ensures TakenBy(ReturnAt(s, a)) + InPop(Step(s, a).value, PcOf(Step(s, a).value, a.tid))
         == InPop(s, PcOf(s, a.tid)) + PoppedAt(s, a)
  {
    assert a.tid in s.pcs ==> PcOk(s, s.pcs[a.tid]);
    if WinsDeq(s, a) { DeqCasSeesFilledSlot(s, s.tail); }
  }

  /** What a thread holds does not change under another thread's step. */
  lemma HeldStays<V>(s: State<V>, a: Action<V>, tid: Tid)
    requires Inv(s) && Step(s, a).Some? && a.tid != tid
    ensures var t := Step(s, a).value;
            InPush(PcOf(t, tid)) == InPush(PcOf(s, tid)) && InPop(t, PcOf(t, tid)) == InPop(s, PcOf(s, tid))
  {
    OthersStay(s, a, tid);
    assert tid in s.pcs ==> PcOk(s, s.pcs[tid]);
  }

  /**
   Over every interleaving, a thread's successful enqueues returned exactly the items its winning
   compare-exchanges pushed, in order and but for one under way; its successful dequeues those it popped.
   */
  lemma {:induction false} ReturnedIsDone<V>(size: nat, acts: seq<Action<V>>, tid: Tid)
    requires size >= 2 && Run(Init<V>(size), acts).Some?
    ensures var s, t, rs := Init<V>(size), Run(Init<V>(size), acts).value, Returned(Init<V>(size), acts, tid);
            && StoredItems(rs) + InPush(PcOf(t, tid)) == Pushed(s, acts, tid)
            && TakenItems(rs) + InPop(t, PcOf(t, tid)) == Popped(s, acts, tid)
    decreases |acts|
  {
    if acts != [] {
      var n := |acts| - 1;
      ReturnedIsDone(size, acts[..n], tid);
      InitInv<V>(size);
      RunInv(Init<V>(size), acts[..n]);
      var s := Run(Init<V>(size), acts[..n]).value;
      if acts[n].tid == tid {
        OneStepDone(s, acts[n], Returned(Init<V>(size), acts[..n], tid),
                    Pushed(Init<V>(size), acts[..n], tid), Popped(Init<V>(size), acts[..n], tid));
      } else {
        HeldStays(s, acts[n], tid);
        assert Returned(Init<V>(size), acts, tid) == Returned(Init<V>(size), acts[..n], tid);
        assert Pushed(Init<V>(size), acts, tid) == Pushed(Init<V>(size), acts[..n], tid);
        assert Popped(Init<V>(size), acts, tid) == Popped(Init<V>(size), acts[..n], tid);
      }
    }
  }

  lemma OneStepDone<V>(s: State<V>, a: Action<V>, rs: seq<Return<V>>, pushed: seq<V>, popped: seq<V>)
    requires Inv(s) && Step(s, a).Some?
    requires StoredItems(rs) + InPush(PcOf(s, a.tid)) == pushed && TakenItems(rs) + InPop(s, PcOf(s, a.tid)) == popped
    ensures var t, more := Step(s, a).value, rs + Listed(ReturnAt(s, a));
            && StoredItems(more) + InPush(PcOf(t, a.tid)) == pushed + PushedAt(s, a)
            && TakenItems(more) + InPop(t, PcOf(t, a.tid)) == popped + PoppedAt(s, a)
  {
    var t, r := Step(s, a).value, ReturnAt(s, a);
    PushFlows(s, a);
    PopFlows(s, a);
    OneMoreReturn(rs, r);
    Flow(StoredItems(rs), InPush(PcOf(s, a.tid)), pushed, StoredBy(r), InPush(PcOf(t, a.tid)), PushedAt(s, a));
    Flow(TakenItems(rs), InPop(s, PcOf(s, a.tid)), popped, TakenBy(r), InPop(t, PcOf(t, a.tid)), PoppedAt(s, a));
  }

  // ---------------------------------------------------------------------------------------------
  // A call that nobody disturbs
  // ---------------------------------------------------------------------------------------------

  lemma RunThen<V>(s: State<V>, acts: seq<Action<V>>, a: Action<V>)
    requires Wf(s) && Run(s, acts).Some?
    ensures Run(s, acts + [a]) == Step(Run(s, acts).value, a)
  {
    assert (acts + [a])[..|acts|] == acts;
  }

  lemma RunThree<V>(s: State<V>, a: Action<V>, b: Action<V>, c: Action<V>)
    requires Wf(s) && Step(s, a).Some? && Step(Step(s, a).value, b).Some?
    ensures Run(s, [a, b, c]) == Step(Step(Step(s, a).value, b).value, c)
  {
    RunOne(s, a);
    RunThen(s, [a], b);
    assert [a] + [b] == [a, b] && [a, b] + [c] == [a, b, c];
    RunThen(s, [a, b], c);
  }

  function Arrive<V>(tid: Tid, item: V, h: nat): seq<Action<V>> {
    [BeginEnqueue(tid, item), LoadTicket(tid, h), LoadSeq(tid)]
  }

  function ArriveToTake<V>(tid: Tid, t: nat): seq<Action<V>> {
    [BeginDequeue(tid), LoadTicket(tid, t), LoadSeq(tid)]
  }

  function Finish<V>(tid: Tid): seq<Action<V>> {
    [Cas(tid, false, 0), Access(tid), Store(tid)]
  }

  lemma GotoTwice<V>(s: State<V>, tid: Tid, p: Pc<V>, q: Pc<V>)
    ensures Goto(Goto(s, tid, p), tid, q) == Goto(s, tid, q)
  {
    assert s.pcs[tid := p][tid := q] == s.pcs[tid := q];
  }

  /** What an enqueue with the current ticket meets does not depend on where its thread was. */
  lemma LoadsFromAnywhere<V>(s: State<V>, tid: Tid, item: V)
    requires Inv(s) && PcOf(s, tid).Idle?
    ensures Step(Goto(s, tid, EnqSeq(item, s.head)), LoadSeq(tid))
         == Some(Goto(s, tid, if IsFull(s) then Idle else EnqCas(item, s.head)))
  {
    var t := Goto(s, tid, EnqSeq(item, s.head));
    MovePreserves(s, tid, EnqSeq(item, s.head));
    EnqueueLoadIs(t, tid);
    NotReleasedStays(s, t, tid);
    GotoTwice(s, tid, EnqSeq(item, s.head), Step(t, LoadSeq(tid)).value.pcs[tid]);
  }

  /** An undisturbed enqueue comes to its compare-exchange, or returns false at a full queue. */
  lemma EnqueueArrives<V>(s: State<V>, tid: Tid, item: V)
    requires Inv(s) && PcOf(s, tid).Idle?
    ensures Run(s, Arrive(tid, item, s.head))
         == Some(Goto(s, tid, if IsFull(s) then Idle else EnqCas(item, s.head)))
  {
    RunThree(s, BeginEnqueue(tid, item), LoadTicket(tid, s.head), LoadSeq(tid));
    GotoTwice(s, tid, EnqTicket(item), EnqSeq(item, s.head));
    LoadsFromAnywhere(s, tid, item);
  }

  /** Threads that hold nothing do not matter to what is held. */
  lemma NotReleasedStays<V>(s: State<V>, t: State<V>, tid: Tid)
    requires t.tail == s.tail && t.head == s.head && !Owns(PcOf(s, tid)) && !Owns(PcOf(t, tid))
    requires forall b | b != tid :: PcOf(t, b) == PcOf(s, b)
    ensures forall u: nat :: (NotReleased(t, u) <==> NotReleased(s, u)) && (NotPublished(t, u) <==> NotPublished(s, u))
  {
    forall u: nat
      ensures (SomeDequeuer(t, u) <==> SomeDequeuer(s, u)) && (SomeEnqueuer(t, u) <==> SomeEnqueuer(s, u))
    {
      SameHolders(s, t, tid, u);
      SameHolders(t, s, tid, u);
    }
  }

  lemma SameHolders<V>(s: State<V>, t: State<V>, tid: Tid, u: nat)
    requires !Owns(PcOf(s, tid)) && forall b | b != tid :: PcOf(t, b) == PcOf(s, b)
    ensures SomeDequeuer(s, u) ==> SomeDequeuer(t, u)
    ensures SomeEnqueuer(s, u) ==> SomeEnqueuer(t, u)
  {
    if SomeDequeuer(s, u) {
      var b :| b in s.pcs && HoldsDeq(s.pcs[b], u);
      assert PcOf(t, b) == s.pcs[b];
    }
    if SomeEnqueuer(s, u) {
      var b :| b in s.pcs && HoldsEnq(s.pcs[b], u);
      assert PcOf(t, b) == s.pcs[b];
    }
  }

  lemma TakesFromAnywhere<V>(s: State<V>, tid: Tid)
    requires Inv(s) && PcOf(s, tid).Idle?
    ensures Step(Goto(s, tid, DeqSeq(s.tail)), LoadSeq(tid))
         == Some(Goto(s, tid, if NotPublished(s, s.tail) then Idle else DeqCas(s.tail)))
  {
    var t := Goto(s, tid, DeqSeq(s.tail));
    MovePreserves(s, tid, DeqSeq(s.tail));
    DequeueLoadIs(t, tid);
    NotReleasedStays(s, t, tid);
    GotoTwice(s, tid, DeqSeq(s.tail), Step(t, LoadSeq(tid)).value.pcs[tid]);
  }

  /** An undisturbed dequeue comes to its compare-exchange, or returns false at an empty queue. */
  lemma DequeueArrives<V>(s: State<V>, tid: Tid)
    requires Inv(s) && PcOf(s, tid).Idle?
    ensures Run(s, ArriveToTake(tid, s.tail))
         == Some(Goto(s, tid, if NotPublished(s, s.tail) then Idle else DeqCas(s.tail)))
  {
    RunThree(s, BeginDequeue(tid), LoadTicket(tid, s.tail), LoadSeq(tid));
    GotoTwice(s, tid, DeqTicket, DeqSeq(s.tail));
    TakesFromAnywhere(s, tid);
  }

  /** From its compare-exchange on it stores its item at the end of the queue and returns. */
  lemma EnqueueFinishes<V>(s: State<V>, tid: Tid)
    requires Inv(s) && PcOf(s, tid).EnqCas? && PcOf(s, tid).ticket == s.head
    ensures var r := Run(s, Finish(tid));
            && r.Some? && Inv(r.value) && PcOf(r.value, tid).Idle?
            && Abs(r.value) == Abs(s).(items := Abs(s).items + [PcOf(s, tid).item])
  {
    var a: Action<V>, b: Action<V>, c: Action<V> := Cas(tid, false, 0), Access(tid), Store(tid);
    var s1 := Step(s, a).value;
    StepRefines(s, a);
    NeverStuck(s1, tid);
    var s2 := Step(s1, b).value;
    StepRefines(s1, b);
    NeverStuck(s2, tid);
    StepRefines(s2, c);
    RunThree(s, a, b, c);
  }

  /** From its compare-exchange on a dequeue takes the first item and returns it. */
  lemma DequeueFinishes<V>(s: State<V>, tid: Tid)
    requires Inv(s) && PcOf(s, tid).DeqCas? && PcOf(s, tid).ticket == s.tail
    ensures var r := Run(s, Finish(tid));
            && r.Some? && Inv(r.value) && PcOf(r.value, tid).Idle? && Abs(s).items != []
            && Abs(r.value) == Abs(s).(items := Abs(s).items[1..], popped := Abs(s).popped + [Abs(s).items[0]])
            && s.tail in r.value.taken && r.value.taken[s.tail] == Abs(s).items[0]
  {
    var a: Action<V>, b: Action<V>, c: Action<V> := Cas(tid, false, 0), Access(tid), Store(tid);
    assert PcOk(s, s.pcs[tid]);
    DeqCasSeesFilledSlot(s, s.tail);
    var s1 := Step(s, a).value;
    StepRefines(s, a);
    NeverStuck(s1, tid);
    var s2 := Step(s1, b).value;
    StepRefines(s1, b);
    NeverStuck(s2, tid);
    StepRefines(s2, c);
    RunThree(s, a, b, c);
  }
}

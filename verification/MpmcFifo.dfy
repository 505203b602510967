/**
 What the queue promises: linearised at the winning compare-exchanges it is a bounded FIFO,
 slots have one owner at a time, and a call gives up only on a full or an empty queue.
 */
module MpmcFifo {
  import opened Prelude
  import opened MpmcProtocol
  import opened MpmcInvariant

  // ---------------------------------------------------------------------------------------------
  // The sequential specification
  // ---------------------------------------------------------------------------------------------

  datatype Op<V> = Push(item: V) | Pop

  datatype Fifo<V> = Fifo(capacity: nat, items: seq<V>, popped: seq<V>)

  /** A bounded queue: None when the operation is not legal in this state. */
  function Apply<V>(f: Fifo<V>, op: Op<V>): Option<Fifo<V>> {
    match op
    case Push(v) => if |f.items| < f.capacity then Some(f.(items := f.items + [v])) else None
    case Pop => if f.items != [] then Some(f.(items := f.items[1..], popped := f.popped + [f.items[0]])) else None
  }

  function Replay<V>(f: Fifo<V>, ops: seq<Op<V>>): Option<Fifo<V>>
    decreases |ops|
  {
    if ops == [] then Some(f)
    else
      var g := Replay(f, ops[..|ops| - 1]);
      if g.None? then None else Apply(g.value, ops[|ops| - 1])
  }

  // ---------------------------------------------------------------------------------------------
  // Linearisation
  // ---------------------------------------------------------------------------------------------

  predicate WinsEnq<V>(s: State<V>, a: Action<V>) {
    a.Cas? && PcOf(s, a.tid).EnqCas? && s.head == PcOf(s, a.tid).ticket && !a.spurious
  }

  predicate WinsDeq<V>(s: State<V>, a: Action<V>) {
    a.Cas? && PcOf(s, a.tid).DeqCas? && s.tail == PcOf(s, a.tid).ticket && !a.spurious
  }

  /** The sequential operations of a run, in the order of the winning compare-exchanges. */
  function Linear<V>(s: State<V>, acts: seq<Action<V>>): seq<Op<V>>
    requires Wf(s) && Run(s, acts).Some?
    decreases |acts|
  {
    if acts == [] then []
    else
      var n := |acts| - 1;
      var m := Run(s, acts[..n]).value;
      Linear(s, acts[..n]) +
      (if WinsEnq(m, acts[n]) then [Push(PcOf(m, acts[n].tid).item)]
       else if WinsDeq(m, acts[n]) then [Pop]
       else [])
  }

  /** The sequential queue a protocol state stands for. */
  function Abs<V>(s: State<V>): Fifo<V>
    requires s.tail <= s.head == |s.won|
  {
    Fifo(s.size, s.won[s.tail..], s.won[..s.tail])
  }

  /** One atomic step either leaves the abstract queue alone or performs one legal operation on it. */
  lemma StepRefines<V>(s: State<V>, a: Action<V>)
    requires Inv(s) && Step(s, a).Some?
    ensures Inv(Step(s, a).value)
    ensures WinsEnq(s, a) ==> Apply(Abs(s), Push(PcOf(s, a.tid).item)) == Some(Abs(Step(s, a).value))
    ensures WinsDeq(s, a) ==> Apply(Abs(s), Pop) == Some(Abs(Step(s, a).value))
    ensures !WinsEnq(s, a) && !WinsDeq(s, a) ==> Abs(s) == Abs(Step(s, a).value)
  {
    StepInv(s, a);
    var s' := Step(s, a).value;
    if WinsEnq(s, a) {
      assert PcOk(s, s.pcs[a.tid]);
      EnqCasSeesFreeSlot(s, s.head);
      assert s'.won[s.tail..] == s.won[s.tail..] + [PcOf(s, a.tid).item];
      assert s'.won[..s.tail] == s.won[..s.tail];
    } else if WinsDeq(s, a) {
      assert PcOk(s, s.pcs[a.tid]);
      DeqCasSeesFilledSlot(s, s.tail);
      assert s.won[..s.tail + 1] == s.won[..s.tail] + [s.won[s.tail..][0]];
      assert s.won[s.tail + 1..] == s.won[s.tail..][1..];
    }
  }

  /** From any state of the invariant, a run's linearisation replays on the abstract queue. */
  lemma {:induction false} ReplayMatches<V>(s: State<V>, acts: seq<Action<V>>)
    requires Inv(s) && Run(s, acts).Some?
    ensures Inv(Run(s, acts).value)
    ensures Replay(Abs(s), Linear(s, acts)) == Some(Abs(Run(s, acts).value))
    decreases |acts|
  {
    if acts != [] {
      var n := |acts| - 1;
      ReplayMatches(s, acts[..n]);
      StepRefines(Run(s, acts[..n]).value, acts[n]);
      ReplaySnoc(Abs(s), Linear(s, acts[..n]), Linear(s, acts));
    }
  }

  /** What has been returned, or is about to be, under ticket t is the t-th item popped. */
  lemma ReturnsArePops<V>(s: State<V>)
    requires Inv(s)
    ensures forall t | t in s.taken :: t < s.tail && s.taken[t] == Abs(s).popped[t]
    ensures forall a | a in s.pcs && s.pcs[a].DeqRelease? ::
              s.pcs[a].ticket < s.tail && s.pcs[a].item == Abs(s).popped[s.pcs[a].ticket]
  {
    forall a | a in s.pcs && s.pcs[a].DeqRelease?
      ensures s.pcs[a].ticket < s.tail && s.pcs[a].item == Abs(s).popped[s.pcs[a].ticket]
    {
      assert PcOk(s, s.pcs[a]);
    }
  }

  /**
   Every interleaving of any number of enqueuers and dequeuers replays on the sequential queue,
   and what the dequeue with ticket t returns, or is about to return, is the t-th item popped.
   */
  lemma Linearizable<V>(size: nat, acts: seq<Action<V>>)
    requires size >= 2 && Run(Init<V>(size), acts).Some?
    ensures var s := Run(Init<V>(size), acts).value;
            && s.tail <= s.head == |s.won| && s.head <= s.tail + size
            && Replay(Fifo(size, [], []), Linear(Init<V>(size), acts)) == Some(Abs(s))
            && (forall t | t in s.taken :: t < s.tail && s.taken[t] == Abs(s).popped[t])
            && (forall a | a in s.pcs && s.pcs[a].DeqRelease? ::
                  s.pcs[a].ticket < s.tail && s.pcs[a].item == Abs(s).popped[s.pcs[a].ticket])
  {
    InitInv<V>(size);
    ReplayMatches(Init<V>(size), acts);
    ReturnsArePops(Run(Init<V>(size), acts).value);
    assert Abs(Init<V>(size)) == Fifo(size, [], []);
  }

  lemma ReplaySnoc<V>(f: Fifo<V>, ops: seq<Op<V>>, more: seq<Op<V>>)
    requires ops <= more && |more| <= |ops| + 1 && Replay(f, ops).Some?
    ensures Replay(f, more) == if |more| == |ops| then Replay(f, ops)
                               else Apply(Replay(f, ops).value, more[|ops|])
  {
    if |more| == |ops| {
      assert more == ops;
    } else {
      assert more[..|more| - 1] == ops;
    }
  }

  // ---------------------------------------------------------------------------------------------
  // Tickets are won once
  // ---------------------------------------------------------------------------------------------

  function EnqWins<V>(s: State<V>, acts: seq<Action<V>>, t: nat): nat
    requires Wf(s) && Run(s, acts).Some?
    decreases |acts|
  {
    if acts == [] then 0
    else
      var n := |acts| - 1;
      var m := Run(s, acts[..n]).value;
      EnqWins(s, acts[..n], t) + if WinsEnq(m, acts[n]) && PcOf(m, acts[n].tid).ticket == t then 1 else 0
  }

  function DeqWins<V>(s: State<V>, acts: seq<Action<V>>, t: nat): nat
    requires Wf(s) && Run(s, acts).Some?
    decreases |acts|
  {
    if acts == [] then 0
    else
      var n := |acts| - 1;
      var m := Run(s, acts[..n]).value;
      DeqWins(s, acts[..n], t) + if WinsDeq(m, acts[n]) && PcOf(m, acts[n].tid).ticket == t then 1 else 0
  }

  /** On each side every ticket below the counter was won exactly once, and no other ticket ever. */
  lemma {:induction false} TicketsWonOnce<V>(size: nat, acts: seq<Action<V>>, t: nat)
    requires size >= 2 && Run(Init<V>(size), acts).Some?
    ensures EnqWins(Init<V>(size), acts, t) == if t < Run(Init<V>(size), acts).value.head then 1 else 0
    ensures DeqWins(Init<V>(size), acts, t) == if t < Run(Init<V>(size), acts).value.tail then 1 else 0
    decreases |acts|
  {
    if acts != [] {
      TicketsWonOnce(size, acts[..|acts| - 1], t);
    }
  }

  // ---------------------------------------------------------------------------------------------
  // Exclusive slots
  // ---------------------------------------------------------------------------------------------

  /** In every reachable state two threads inside their critical windows use different slots. */
  lemma MutualExclusion<V>(size: nat, acts: seq<Action<V>>, a: Tid, b: Tid)
    requires size >= 2 && Run(Init<V>(size), acts).Some?
    requires a != b && Owns(PcOf(Run(Init<V>(size), acts).value, a)) && Owns(PcOf(Run(Init<V>(size), acts).value, b))
    ensures var s := Run(Init<V>(size), acts).value;
            Slot(s.pcs[a].ticket, size) != Slot(s.pcs[b].ticket, size)
  {
    InitInv<V>(size);
    RunInv(Init<V>(size), acts);
    OwnersApart(Run(Init<V>(size), acts).value, a, b);
  }

  /** A thread inside a call can always take its next step: no call blocks. */
  lemma NeverStuck<V>(s: State<V>, tid: Tid)
    requires Inv(s) && !PcOf(s, tid).Idle?
    ensures var p := PcOf(s, tid);
            if p.EnqTicket? then Step(s, LoadTicket(tid, s.head)).Some?
            else if p.DeqTicket? then Step(s, LoadTicket(tid, s.tail)).Some?
            else if p.EnqSeq? || p.DeqSeq? then Step(s, LoadSeq(tid)).Some?
            else if p.EnqCas? then Step(s, Cas(tid, false, s.head)).Some?
            else if p.DeqCas? then Step(s, Cas(tid, false, s.tail)).Some?
            else if p.EnqWrite? || p.DeqRead? then Step(s, Access(tid)).Some?
            else Step(s, Store(tid)).Some?
  {
    assert PcOk(s, s.pcs[tid]);
  }

  // ---------------------------------------------------------------------------------------------
  // When a call returns false
  // ---------------------------------------------------------------------------------------------

  /** The item of ticket t has not left its slot: not claimed by a dequeue, or claimed and unreleased. */
  ghost predicate NotReleased<V>(s: State<V>, t: nat) {
    s.tail <= t || SomeDequeuer(s, t)
  }

  /** Ticket t has no item in its slot yet: not claimed by an enqueue, or claimed and unpublished. */
  ghost predicate NotPublished<V>(s: State<V>, t: nat) {
    s.head <= t || SomeEnqueuer(s, t)
  }

  /**
   `enqueue` returns false exactly when, at its sequence load, its ticket is the current head and
   the ticket one lap earlier is not released, however stale the ticket load was allowed to be.
   */
  lemma EnqueueFailsIff<V>(s: State<V>, tid: Tid)
    requires Inv(s) && PcOf(s, tid).EnqSeq?
    ensures var h := PcOf(s, tid).ticket;
            Step(s, LoadSeq(tid)).value.pcs[tid].Idle?
            <==> h == s.head && h >= s.size && NotReleased(s, h - s.size)
  {
    var h := PcOf(s, tid).ticket;
    var i := Slot(h, s.size);
    assert PcOk(s, s.pcs[tid]) && SlotOk(s, i);
    var q := s.seqs[i];
    if q < h {
      if FreeFor(s, i, q) {
        SlotApart(q, h, s.size);
      } else {
        SlotApart(q - 1, h, s.size);
      }
    } else if h == s.head && h >= s.size && NotReleased(s, h - s.size) {
      FullSlotIsOld(s, h);
    }
  }

  lemma FullSlotIsOld<V>(s: State<V>, h: nat)
    requires Inv(s) && h == s.head && h >= s.size && NotReleased(s, h - s.size)
    ensures s.seqs[Slot(h, s.size)] < h
  {
    var i, u := Slot(h, s.size), h - s.size;
    FullLap(u, s.size);
    assert SlotOk(s, i);
    var q := s.seqs[i];
    if s.tail <= u {
      if q >= h {
        if FreeFor(s, i, q) { assert false; }
        if q - 1 < h { SlotApart(q - 1, h, s.size); }
      }
    } else {
      var b :| b in s.pcs && HoldsDeq(s.pcs[b], u);
      assert PcOk(s, s.pcs[b]);
    }
  }

  /** `dequeue` returns false exactly when its ticket is the current tail and is not yet published. */
  lemma DequeueFailsIff<V>(s: State<V>, tid: Tid)
    requires Inv(s) && PcOf(s, tid).DeqSeq?
    ensures var t := PcOf(s, tid).ticket;
            Step(s, LoadSeq(tid)).value.pcs[tid].Idle? <==> t == s.tail && NotPublished(s, t)
  {
    var t := PcOf(s, tid).ticket;
    var i := Slot(t, s.size);
    assert PcOk(s, s.pcs[tid]) && SlotOk(s, i);
    var q := s.seqs[i];
    if q < t + 1 {
      if FreeFor(s, i, q) {
        if q < t { SlotApart(q, t, s.size); }
      } else {
        SlotApart(q - 1, t, s.size);
      }
    } else if t == s.tail && NotPublished(s, t) {
      EmptySlotIsOld(s, t);
    }
  }

  lemma EmptySlotIsOld<V>(s: State<V>, t: nat)
    requires Inv(s) && t == s.tail && NotPublished(s, t)
    ensures s.seqs[Slot(t, s.size)] < t + 1
  {
    var i := Slot(t, s.size);
    assert SlotOk(s, i);
    var q := s.seqs[i];
    if s.head <= t {
      if q > t && FreeFor(s, i, q) { SlotApart(t, q, s.size); }
    } else {
      var b :| b in s.pcs && HoldsEnq(s.pcs[b], t);
      assert PcOk(s, s.pcs[b]);
    }
  }

  /** No thread is between its winning compare-exchange and its release store. */
  ghost predicate NoneInFlight<V>(s: State<V>) {
    forall a | a in s.pcs :: !Owns(s.pcs[a])
  }

  /**
   With nothing in flight the abstract queue is all there is: false means exactly full or empty,
   and every item popped so far has been returned by the dequeue that won its ticket.
   */
  lemma QuietFalse<V>(s: State<V>, tid: Tid)
    requires Inv(s) && NoneInFlight(s)
    ensures PcOf(s, tid).EnqSeq? && PcOf(s, tid).ticket == s.head ==>
              (Step(s, LoadSeq(tid)).value.pcs[tid].Idle? <==> |Abs(s).items| == s.size)
    ensures PcOf(s, tid).DeqSeq? && PcOf(s, tid).ticket == s.tail ==>
              (Step(s, LoadSeq(tid)).value.pcs[tid].Idle? <==> Abs(s).items == [])
    ensures forall t: nat | t < s.tail :: t in s.taken && s.taken[t] == Abs(s).popped[t]
  {
    if PcOf(s, tid).EnqSeq? && PcOf(s, tid).ticket == s.head { EnqueueFailsIff(s, tid); }
    if PcOf(s, tid).DeqSeq? && PcOf(s, tid).ticket == s.tail { DequeueFailsIff(s, tid); }
  }

  // ---------------------------------------------------------------------------------------------
  // Size one
  // ---------------------------------------------------------------------------------------------

  /** No run of a queue of this size ever holds more items than slots. */
  ghost predicate NeverOverfull(size: nat)
    requires size > 0
  {
    forall acts: seq<Action<int>> :: Run(Init<int>(size), acts).Some? ==>
      var s := Run(Init<int>(size), acts).value; s.head <= s.tail + size
  }

  /** One thread's uninterrupted first half of `enqueue`, through the winning compare-exchange. */
  function Claim(tid: Tid, item: int, ticket: nat): seq<Action<int>> {
    [BeginEnqueue(tid, item), LoadTicket(tid, ticket), LoadSeq(tid), Cas(tid, false, 0)]
  }

  lemma {:induction false} RunAppend<V>(s: State<V>, xs: seq<Action<V>>, ys: seq<Action<V>>)
    requires Wf(s) && Run(s, xs).Some?
    ensures Run(s, xs + ys) == Run(Run(s, xs).value, ys)
    decreases |ys|
  {
    if ys == [] {
      assert xs + ys == xs;
    } else {
      var n := |ys| - 1;
      RunAppend(s, xs, ys[..n]);
      assert (xs + ys)[..|xs + ys| - 1] == xs + ys[..n];
    }
  }

  lemma RunOne<V>(s: State<V>, a: Action<V>)
    requires Wf(s)
    ensures Run(s, [a]) == Step(s, a)
  {
    assert [a][..0] == [];
  }

  /** With one slot two enqueues succeed and the second overwrites the first: the queue overfills. */
  lemma SizeOneOverfills()
    ensures var acts := Claim(0, 5, 0) + [Access(0), Store(0)] + Claim(0, 6, 1);
            && Run(Init<int>(1), acts).Some?
            && Run(Init<int>(1), acts).value.head == 2
            && Run(Init<int>(1), acts).value.tail == 0
  {
    var s0 := Init<int>(1);
    ClaimRuns(s0, 5);
    var first := Claim(0, 5, 0);
    var s1 := Run(s0, first).value;
    var access: Action<int>, store: Action<int> := Access(0), Store(0);
    RunOne(s1, access);
    RunOne(Run(s1, [access]).value, store);
    RunAppend(s1, [access], [store]);
    assert [access] + [store] == [access, store];
    RunAppend(s0, first, [access, store]);
    ClaimRuns(Run(s1, [access, store]).value, 6);
    RunAppend(s0, first + [access, store], Claim(0, 6, 1));
  }

  lemma ClaimRuns(s: State<int>, item: int)
    requires Wf(s) && PcOf(s, 0).Idle? && s.seqs[Slot(s.head, s.size)] == s.head
    ensures var r := Run(s, Claim(0, item, s.head));
            && r.Some? && r.value == s.(head := s.head + 1, won := s.won + [item],
                                        pcs := s.pcs[0 := EnqWrite(item, s.head)])
  {
    var h := s.head;
    var a0: Action<int>, a1: Action<int> := BeginEnqueue(0, item), LoadTicket(0, h);
    var a2: Action<int>, a3: Action<int> := LoadSeq(0), Cas(0, false, 0);
    RunOne(s, a0);
    RunAppend(s, [a0], [a1]);
    assert [a0] + [a1] == [a0, a1];
    RunOne(Run(s, [a0]).value, a1);
    RunAppend(s, [a0, a1], [a2]);
    assert [a0, a1] + [a2] == [a0, a1, a2];
    RunOne(Run(s, [a0, a1]).value, a2);
    RunAppend(s, [a0, a1, a2], [a3]);
    assert [a0, a1, a2] + [a3] == [a0, a1, a2, a3];
    RunOne(Run(s, [a0, a1, a2]).value, a3);
    assert s.pcs[0 := EnqTicket(item)][0 := EnqSeq(item, h)][0 := EnqCas(item, h)][0 := EnqWrite(item, h)]
        == s.pcs[0 := EnqWrite(item, h)];
  }

  /** The constructor's assertion admits size 1; the capacity bound holds exactly from size 2 on. */
  lemma OverfullIff(size: nat)
    requires size > 0
    ensures NeverOverfull(size) <==> size >= 2
  {
    if size >= 2 {
      forall acts: seq<Action<int>> | Run(Init<int>(size), acts).Some?
        ensures Run(Init<int>(size), acts).value.head <= Run(Init<int>(size), acts).value.tail + size
      {
        Linearizable(size, acts);
      }
    } else {
      SizeOneOverfills();
    }
  }
}

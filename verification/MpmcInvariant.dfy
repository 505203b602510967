/** The invariant of MpmcProtocol holds in every reachable state. */
module MpmcInvariant {
  import opened Prelude
  import opened MpmcProtocol

  lemma InitInv<V>(size: nat)
    requires size >= 2
    ensures Inv(Init<V>(size))
  {
    var s := Init<V>(size);
    forall i: nat | i < size ensures SlotOk(s, i) {
      assert FreeFor(s, i, i);
    }
  }

  /** Every owner of a ticket in s still owns it in s'. */
  ghost predicate OwnersStay<V>(s: State<V>, s': State<V>) {
    && (forall t :: SomeEnqueuer(s, t) ==> SomeEnqueuer(s', t))
    && (forall t :: SomeDequeuer(s, t) ==> SomeDequeuer(s', t))
  }

  /** Owners stay when one thread moves, unless that thread gives its ticket up. */
  lemma MoveKeepsOwners<V>(s: State<V>, tid: Tid, s': State<V>)
    requires tid in s'.pcs && s'.pcs == s.pcs[tid := s'.pcs[tid]]
    requires tid in s.pcs ==>
               forall t :: (HoldsEnq(s.pcs[tid], t) ==> HoldsEnq(s'.pcs[tid], t))
                           && (HoldsDeq(s.pcs[tid], t) ==> HoldsDeq(s'.pcs[tid], t))
    ensures OwnersStay(s, s')
  {
    forall t | SomeEnqueuer(s, t) ensures SomeEnqueuer(s', t) {
      var a :| a in s.pcs && HoldsEnq(s.pcs[a], t);
      assert a in s'.pcs && HoldsEnq(s'.pcs[a], t);
    }
    forall t | SomeDequeuer(s, t) ensures SomeDequeuer(s', t) {
      var a :| a in s.pcs && HoldsDeq(s.pcs[a], t);
      assert a in s'.pcs && HoldsDeq(s'.pcs[a], t);
    }
  }

  /** Moving one thread between points that own no slot keeps everything. */
  lemma MovePreserves<V>(s: State<V>, tid: Tid, p: Pc<V>)
    requires Inv(s) && !Owns(PcOf(s, tid)) && !Owns(p) && PcOk(s, p)
    ensures Inv(Goto(s, tid, p))
  {
    var s' := Goto(s, tid, p);
    MoveKeepsOwners(s, tid, s');
    forall i: nat | i < s.size ensures SlotOk(s', i) {
      assert SlotOk(s, i);
    }
  }

  /** The sequence load remembers only what later stores cannot undo. */
  lemma LoadSeqPreserves<V>(s: State<V>, tid: Tid, s': State<V>)
    requires Inv(s)
    requires Step(s, LoadSeq(tid)) == Some(s')
    ensures Inv(s')
  {
    assert PcOk(s, s.pcs[tid]);
    MovePreserves(s, tid, s'.pcs[tid]);
  }

  /** If the CAS on head_seq_ can succeed, the ticket's slot is free for exactly that ticket. */
  lemma EnqCasSeesFreeSlot<V>(s: State<V>, h: nat)
    requires Inv(s) && h == s.head && h <= s.seqs[Slot(h, s.size)]
    ensures s.seqs[Slot(h, s.size)] == h && FreeFor(s, Slot(h, s.size), h)
  {
    var i := Slot(h, s.size);
    var q := s.seqs[i];
    assert SlotOk(s, i);
    if FreeFor(s, i, q) {
      if q > h { SlotApart(h, q, s.size); }
    } else {
      if q - 1 < h { SlotApart(q - 1, h, s.size); }
    }
  }

  /** If the CAS on tail_seq_ can succeed, the ticket's slot holds exactly that ticket's item. */
  lemma DeqCasSeesFilledSlot<V>(s: State<V>, t: nat)
    requires Inv(s) && t == s.tail && t + 1 <= s.seqs[Slot(t, s.size)]
    ensures s.seqs[Slot(t, s.size)] == t + 1 && FilledBy(s, Slot(t, s.size), t)
  {
    var i := Slot(t, s.size);
    var q := s.seqs[i];
    assert SlotOk(s, i);
    if FreeFor(s, i, q) {
      SlotApart(t, q, s.size);
    } else if q - 1 > t {
      SlotApart(t, q - 1, s.size);
    }
  }

  /** If slot(head) is free for head, no item a full lap behind head is still in its slot. */
  lemma LapBehindHeadIsGone<V>(s: State<V>, t: nat)
    requires Inv(s) && s.seqs[Slot(s.head, s.size)] == s.head
    requires s.seqs[Slot(t, s.size)] == t + 1
    ensures s.head != t + s.size
  {
    if s.head == t + s.size {
      FullLap(t, s.size);
    }
  }

  lemma EnqWinPreserves<V>(s: State<V>, tid: Tid, s': State<V>)
    requires Inv(s) && PcOf(s, tid).EnqCas? && PcOf(s, tid).ticket == s.head
    requires Step(s, Cas(tid, false, 0)) == Some(s')
    ensures Inv(s')
  {
    var h := s.head;
    assert PcOk(s, s.pcs[tid]);
    EnqCasSeesFreeSlot(s, h);
    MoveKeepsOwners(s, tid, s');
    assert HoldsEnq(s'.pcs[tid], h);
    assert SlotsOk(s') by {
      forall i: nat | i < s.size ensures SlotOk(s', i) {
        EnqWinSlot(s, tid, s', i);
      }
    }
    assert PcsOk(s') by {
      forall a | a in s'.pcs ensures PcOk(s', s'.pcs[a]) {
        if a != tid {
          assert PcOk(s, s.pcs[a]);
          EnqWinPc(s, s', s.pcs[a]);
        }
      }
    }
    assert TicketsUnique(s') by {
      forall a, b | a in s'.pcs && b in s'.pcs && a != b ensures !SameTicket(s'.pcs[a], s'.pcs[b]) {
        assert a != tid ==> PcOk(s, s.pcs[a]);
        assert b != tid ==> PcOk(s, s.pcs[b]);
      }
    }
  }

  lemma EnqWinSlot<V>(s: State<V>, tid: Tid, s': State<V>, i: nat)
    requires Inv(s) && i < s.size
    requires s.seqs[Slot(s.head, s.size)] == s.head && s.head < s.tail + s.size
    requires s' == s.(head := s.head + 1, pcs := s'.pcs, won := s'.won)
    requires |s'.won| == s.head + 1 && s.won == s'.won[..s.head]
    requires tid in s'.pcs && HoldsEnq(s'.pcs[tid], s.head) && OwnersStay(s, s')
    ensures SlotOk(s', i)
  {
    assert SlotOk(s, i);
    var q := s.seqs[i];
    if FreeFor(s, i, q) {
      assert q == s.head ==> SomeEnqueuer(s', q);
      assert FreeFor(s', i, q);
    } else {
      LapBehindHeadIsGone(s, q - 1);
      assert FilledBy(s', i, q - 1);
    }
  }

  lemma EnqWinPc<V>(s: State<V>, s': State<V>, p: Pc<V>)
    requires Inv(s) && PcOk(s, p)
    requires s.seqs[Slot(s.head, s.size)] == s.head && s.head < s.tail + s.size
    requires s' == s.(head := s.head + 1, pcs := s'.pcs, won := s'.won)
    requires |s'.won| == s.head + 1 && s.won == s'.won[..s.head]
    ensures PcOk(s', p)
  {
    if p.DeqRead? || p.DeqRelease? {
      LapBehindHeadIsGone(s, p.ticket);
    }
  }

  lemma DeqWinPreserves<V>(s: State<V>, tid: Tid, s': State<V>)
    requires Inv(s) && PcOf(s, tid).DeqCas? && PcOf(s, tid).ticket == s.tail
    requires Step(s, Cas(tid, false, 0)) == Some(s')
    ensures Inv(s')
  {
    var t := s.tail;
    assert PcOk(s, s.pcs[tid]);
    DeqCasSeesFilledSlot(s, t);
    MoveKeepsOwners(s, tid, s');
    assert HoldsDeq(s'.pcs[tid], t);
    assert SlotsOk(s') by {
      forall i: nat | i < s.size ensures SlotOk(s', i) {
        DeqWinSlot(s, tid, s', i);
      }
    }
    assert PcsOk(s') by {
      forall a | a in s'.pcs ensures PcOk(s', s'.pcs[a]) {
        assert a != tid ==> PcOk(s, s.pcs[a]);
      }
    }
    assert TicketsUnique(s') by {
      forall a, b | a in s'.pcs && b in s'.pcs && a != b ensures !SameTicket(s'.pcs[a], s'.pcs[b]) {
        assert a != tid ==> PcOk(s, s.pcs[a]);
        assert b != tid ==> PcOk(s, s.pcs[b]);
      }
    }
  }

  lemma DeqWinSlot<V>(s: State<V>, tid: Tid, s': State<V>, i: nat)
    requires Inv(s) && i < s.size
    requires s.seqs[Slot(s.tail, s.size)] == s.tail + 1
    requires s' == s.(tail := s.tail + 1, pcs := s'.pcs)
    requires tid in s'.pcs && HoldsDeq(s'.pcs[tid], s.tail) && OwnersStay(s, s')
    ensures SlotOk(s', i)
  {
    assert SlotOk(s, i);
    var q := s.seqs[i];
    if FreeFor(s, i, q) {
      assert FreeFor(s', i, q);
    } else {
      assert q - 1 == s.tail ==> SomeDequeuer(s', q - 1);
      assert FilledBy(s', i, q - 1);
    }
  }

  /** Two different threads that own slots own different slots. */
  lemma OwnersApart<V>(s: State<V>, a: Tid, b: Tid)
    requires Inv(s) && a in s.pcs && b in s.pcs && a != b
    requires Owns(s.pcs[a]) && Owns(s.pcs[b])
    ensures Slot(s.pcs[a].ticket, s.size) != Slot(s.pcs[b].ticket, s.size)
  {
    var p, q := s.pcs[a], s.pcs[b];
    assert PcOk(s, p) && PcOk(s, q) && !SameTicket(p, q);
    NextSlotDiffers(p.ticket, s.size);
    NextSlotDiffers(q.ticket, s.size);
  }

  /** What an owner knows about its own slot. */
  lemma OwnedSlot<V>(s: State<V>, tid: Tid)
    requires Inv(s) && tid in s.pcs && Owns(s.pcs[tid])
    ensures var t, i := s.pcs[tid].ticket, Slot(s.pcs[tid].ticket, s.size);
            if s.pcs[tid].EnqWrite? || s.pcs[tid].EnqPublish?
            then s.seqs[i] == t && FreeFor(s, i, t)
            else s.seqs[i] == t + 1 && FilledBy(s, i, t)
  {
    var t, i := s.pcs[tid].ticket, Slot(s.pcs[tid].ticket, s.size);
    assert PcOk(s, s.pcs[tid]);
    assert SlotOk(s, i);
    NextSlotDiffers(t, s.size);
    if t > 0 { NextSlotDiffers(t - 1, s.size); }
  }

  /** The plain access to node->data by the thread that owns the slot. */
  lemma AccessPreserves<V>(s: State<V>, tid: Tid, s': State<V>)
    requires Inv(s)
    requires Step(s, Access(tid)) == Some(s')
    ensures Inv(s')
  {
    assert PcOk(s, s.pcs[tid]);
    MoveKeepsOwners(s, tid, s');
    assert SlotsOk(s') by {
      forall i: nat | i < s.size ensures SlotOk(s', i) {
        AccessSlot(s, tid, s', i);
      }
    }
    assert PcsOk(s') by {
      forall b | b in s'.pcs ensures PcOk(s', s'.pcs[b]) {
        if b != tid {
          OtherPcKept(s, tid, s', b);
        }
      }
    }
    SameTicketsMove(s, tid, s');
  }

  /** What one owner does to its own slot does not disturb any other thread. */
  lemma OtherPcKept<V>(s: State<V>, tid: Tid, s': State<V>, b: Tid)
    requires Inv(s) && tid in s.pcs && b in s.pcs && b != tid && Owns(s.pcs[tid])
    requires Wf(s') && s' == s.(pcs := s'.pcs, data := s'.data, seqs := s'.seqs, taken := s'.taken)
    requires forall i | 0 <= i < s.size && i != Slot(s.pcs[tid].ticket, s.size) ::
               s'.seqs[i] == s.seqs[i] && s'.data[i] == s.data[i]
    requires forall i | 0 <= i < s.size :: s.seqs[i] <= s'.seqs[i]
    ensures PcOk(s', s.pcs[b])
  {
    var p := s.pcs[b];
    assert PcOk(s, p);
    if Owns(p) { OwnersApart(s, tid, b); }
  }

  lemma AccessSlot<V>(s: State<V>, tid: Tid, s': State<V>, i: nat)
    requires Inv(s) && i < s.size && tid in s.pcs && Owns(s.pcs[tid]) && OwnersStay(s, s')
    requires s' == s.(pcs := s'.pcs, data := s'.data) && |s'.data| == s.size
    requires s'.data == if s.pcs[tid].EnqWrite?
                        then s.data[Slot(s.pcs[tid].ticket, s.size) := Some(s.pcs[tid].item)] else s.data
    ensures SlotOk(s', i)
  {
    var p := s.pcs[tid];
    assert SlotOk(s, i);
    if i == Slot(p.ticket, s.size) && p.EnqWrite? {
      OwnedSlot(s, tid);
      assert FreeFor(s', i, p.ticket);
    }
  }

  lemma SameTicketsMove<V>(s: State<V>, tid: Tid, s': State<V>)
    requires TicketsUnique(s) && tid in s.pcs && tid in s'.pcs && s'.pcs == s.pcs[tid := s'.pcs[tid]]
    requires forall q :: SameTicket(s'.pcs[tid], q) ==> SameTicket(s.pcs[tid], q)
    ensures TicketsUnique(s')
  {
    forall b, c | b in s'.pcs && c in s'.pcs && b != c ensures !SameTicket(s'.pcs[b], s'.pcs[c]) {
      assert !SameTicket(s.pcs[b], s.pcs[c]);
      assert SameTicket(s'.pcs[b], s'.pcs[c]) == SameTicket(s'.pcs[c], s'.pcs[b]);
    }
  }

  /** The release store that publishes an item or frees a slot for the next lap. */
  lemma StorePreserves<V>(s: State<V>, tid: Tid, s': State<V>)
    requires Inv(s)
    requires Step(s, Store(tid)) == Some(s')
    ensures Inv(s')
  {
    assert PcOk(s, s.pcs[tid]);
    assert SlotsOk(s') by {
      forall i: nat | i < s.size ensures SlotOk(s', i) {
        StoreSlot(s, tid, s', i);
      }
    }
    assert PcsOk(s') by {
      forall b | b in s'.pcs ensures PcOk(s', s'.pcs[b]) {
        if b != tid {
          OtherPcKept(s, tid, s', b);
        }
      }
    }
    SameTicketsMove(s, tid, s');
    StoreTaken(s, tid, s');
  }

  lemma StoreTaken<V>(s: State<V>, tid: Tid, s': State<V>)
    requires Inv(s)
    requires Step(s, Store(tid)) == Some(s')
    ensures TakenOk(s')
  {
    assert PcOk(s, s.pcs[tid]);
    forall t: nat | t < s'.tail ensures t in s'.taken || SomeDequeuer(s', t) {
      assert t in s.taken || SomeDequeuer(s, t);
      if t !in s'.taken { OtherOwnerStays(s, tid, s', t); }
    }
  }

  lemma StoreSlot<V>(s: State<V>, tid: Tid, s': State<V>, i: nat)
    requires Inv(s) && i < s.size
    requires Step(s, Store(tid)) == Some(s')
    ensures SlotOk(s', i)
  {
    if i == Slot(s.pcs[tid].ticket, s.size) {
      OwnSlotStored(s, tid, s');
    } else {
      assert SlotOk(s, i);
      var q := s.seqs[i];
      if FreeFor(s, i, q) {
        if q < s.head { OtherOwnerStays(s, tid, s', q); }
        assert FreeFor(s', i, q);
      } else {
        if q - 1 < s.tail { OtherOwnerStays(s, tid, s', q - 1); }
        assert FilledBy(s', i, q - 1);
      }
    }
  }

  lemma OwnSlotStored<V>(s: State<V>, tid: Tid, s': State<V>)
    requires Inv(s)
    requires Step(s, Store(tid)) == Some(s')
    ensures SlotOk(s', Slot(s.pcs[tid].ticket, s.size))
  {
    var p := s.pcs[tid];
    var i := Slot(p.ticket, s.size);
    assert PcOk(s, p);
    if p.EnqPublish? {
      assert FilledBy(s', i, p.ticket);
    } else {
      FullLap(p.ticket, s.size);
      assert FreeFor(s', i, p.ticket + s.size);
    }
  }

  /** A release store ends one ticket's ownership and nobody else's. */
  lemma OtherOwnerStays<V>(s: State<V>, tid: Tid, s': State<V>, t: nat)
    requires Wf(s) && tid in s.pcs && Step(s, Store(tid)) == Some(s')
    requires !HoldsEnq(s.pcs[tid], t) && !HoldsDeq(s.pcs[tid], t)
    ensures SomeEnqueuer(s, t) ==> SomeEnqueuer(s', t)
    ensures SomeDequeuer(s, t) ==> SomeDequeuer(s', t)
  {
    if SomeEnqueuer(s, t) {
      var b :| b in s.pcs && HoldsEnq(s.pcs[b], t);
      assert b in s'.pcs && HoldsEnq(s'.pcs[b], t);
    }
    if SomeDequeuer(s, t) {
      var b :| b in s.pcs && HoldsDeq(s.pcs[b], t);
      assert b in s'.pcs && HoldsDeq(s'.pcs[b], t);
    }
  }

  /** Every atomic step of every thread keeps the invariant. */
  lemma StepInv<V>(s: State<V>, a: Action<V>)
    requires Inv(s) && Step(s, a).Some?
    ensures Inv(Step(s, a).value)
  {
    var s' := Step(s, a).value;
    match a
    case Access(tid) => AccessPreserves(s, tid, s');
    case Store(tid) => StorePreserves(s, tid, s');
    case Cas(tid, spurious, seen) =>
      var p := PcOf(s, tid);
      if p.EnqCas? && s.head == p.ticket && !spurious {
        EnqWinPreserves(s, tid, s');
      } else if p.DeqCas? && s.tail == p.ticket && !spurious {
        DeqWinPreserves(s, tid, s');
      } else {
        MovePreserves(s, tid, s'.pcs[tid]);
      }
    case LoadSeq(tid) => LoadSeqPreserves(s, tid, s');
    case _ => MovePreserves(s, a.tid, s'.pcs[a.tid]);
  }

  /** The invariant holds after every interleaving of any number of threads. */
  lemma {:induction false} RunInv<V>(s: State<V>, acts: seq<Action<V>>)
    requires Inv(s) && Run(s, acts).Some?
    ensures Inv(Run(s, acts).value)
    decreases |acts|
  {
    if acts != [] {
      var n := |acts| - 1;
      RunInv(s, acts[..n]);
      StepInv(Run(s, acts[..n]).value, acts[n]);
    }
  }
}

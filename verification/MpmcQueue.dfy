/**
 The queue class itself, as one thread drives it while no other call is in flight.  The object
 carries a ghost state of MpmcProtocol; what the code's tests mean is read off that protocol, and a
 successful call moves the ghost state by the protocol's own steps.
 */
module MpmcQueueObject {
  import opened Prelude
  import opened Words
  import opened MpmcProtocol
  import opened MpmcInvariant
  import opened MpmcFifo
  import opened MpmcWords
  import opened MpmcProgress

  ghost predicate AllIdle<V>(s: State<V>) {
    forall a | a in s.pcs :: s.pcs[a].Idle?
  }

  /** In a quiet queue a slot free for ticket q means that q is not below head. */
  lemma QuietFree<V>(s: State<V>, t: nat)
    requires Inv(s) && AllIdle(s) && s.seqs[Slot(t, s.size)] == t
    ensures s.head <= t < s.tail + s.size
  {
    assert SlotOk(s, Slot(t, s.size));
    if t > 0 { NextSlotDiffers(t - 1, s.size); }
  }

  // ---------------------------------------------------------------------------------------------
  // What one thread sees when it loads a sequence number, and what its success amounts to
  // ---------------------------------------------------------------------------------------------

  /** The thread is at its sequence load with this, possibly stale, ticket. */
  ghost predicate Looking<V>(w: nat, s: State<V>, ticket: nat, counter: nat) {
    && Inv(s) && AllIdle(s) && IsPow2(s.size) && s.size < Pow2(w)
    && ticket <= counter && 2 * (counter - ticket + s.size) <= Pow2(w)
  }

  /** What the sequence number tells an enqueuer in a quiet queue. */
  lemma EnqueueSees<V>(s: State<V>, item: V, ticket: nat)
    requires Inv(s) && AllIdle(s) && ticket <= s.head
    ensures var q := s.seqs[Slot(ticket, s.size)];
            && (q == ticket ==> ticket == s.head && |Abs(s).items| < s.size)
            && (q < ticket ==> |Abs(s).items| == s.size)
            && (q > ticket ==> ticket < s.head)
  {
    MovePreserves(s, 0, EnqSeq(item, ticket));
    EnqueueFailsIff(Goto(s, 0, EnqSeq(item, ticket)), 0);
    ReloadMeansOvertaken(Goto(s, 0, EnqSeq(item, ticket)), 0);
    if s.seqs[Slot(ticket, s.size)] == ticket { QuietFree(s, ticket); }
  }

  /** On words, the signed difference is the unbounded one. */
  lemma EnqueueLooks<V>(w: nat, s: State<V>, item: V, ticket: nat)
    requires Looking(w, s, ticket, s.head)
    ensures var m, i := Pow2(w), Slot(ticket, s.size);
            && BitAnd(ticket % m, s.size - 1) == i
            && Dif(m, s.seqs[i] % m, ticket % m) == s.seqs[i] - ticket
  {
    MovePreserves(s, 0, EnqSeq(item, ticket));
    MaskedSlot(w, ticket, s.size);
    DifExact(Pow2(w), Goto(s, 0, EnqSeq(item, ticket)), 0);
  }

  /** What the sequence number tells a dequeuer in a quiet queue. */
  lemma DequeueSees<V>(s: State<V>, ticket: nat)
    requires Inv(s) && AllIdle(s) && ticket <= s.tail
    ensures var i := Slot(ticket, s.size);
            var q := s.seqs[i];
            && (q == ticket + 1 ==> ticket == s.tail < s.head && s.data[i] == Some(s.won[ticket]))
            && (q < ticket + 1 ==> s.tail == s.head)
            && (q > ticket + 1 ==> ticket < s.tail)
  {
    MovePreserves(s, 0, DeqSeq(ticket));
    DequeueFailsIff(Goto(s, 0, DeqSeq(ticket)), 0);
    ReloadMeansOvertaken(Goto(s, 0, DeqSeq(ticket)), 0);
    if s.seqs[Slot(ticket, s.size)] == ticket + 1 { QuietFilled(s, ticket); }
  }

  lemma DequeueLooks<V>(w: nat, s: State<V>, ticket: nat)
    requires Looking(w, s, ticket, s.tail)
    ensures var m, i := Pow2(w), Slot(ticket, s.size);
            && BitAnd(ticket % m, s.size - 1) == i
            && Dif(m, s.seqs[i] % m, (ticket % m + 1) % m) == s.seqs[i] - (ticket + 1)
  {
    MovePreserves(s, 0, DeqSeq(ticket));
    MaskedSlot(w, ticket, s.size);
    DifExact(Pow2(w), Goto(s, 0, DeqSeq(ticket)), 0);
  }

  lemma QuietFilled<V>(s: State<V>, t: nat)
    requires Inv(s) && AllIdle(s) && s.seqs[Slot(t, s.size)] == t + 1
    ensures s.tail <= t < s.head && s.data[Slot(t, s.size)] == Some(s.won[t])
  {
    assert SlotOk(s, Slot(t, s.size));
    NextSlotDiffers(t, s.size);
  }

  /** The state after thread 0 claimed the head ticket, wrote its item and published it. */
  function Enqueued<V>(s: State<V>, item: V): State<V>
    requires Wf(s)
  {
    var i := Slot(s.head, s.size);
    s.(head := s.head + 1, won := s.won + [item], seqs := s.seqs[i := s.head + 1],
       data := s.data[i := Some(item)], pcs := s.pcs[0 := Idle])
  }

  /** A claim, an access and a release store, taken in turn from c, lead to r. */
  ghost predicate ByProtocol<V>(c: State<V>, r: State<V>)
    requires Wf(c)
  {
    var s1 := Step(c, Cas(0, false, 0));
    s1.Some? &&
    var s2 := Step(s1.value, Access(0));
    s2.Some? && Step(s2.value, Store(0)) == Some(r)
  }

  lemma ByProtocolInv<V>(c: State<V>, r: State<V>)
    requires Inv(c) && ByProtocol(c, r)
    ensures Inv(r)
  {
    var s1 := Step(c, Cas(0, false, 0)).value;
    StepInv(c, Cas(0, false, 0));
    StepInv(s1, Access(0));
    StepInv(Step(s1, Access(0)).value, Store(0));
  }

  lemma EnqueueSteps<V>(s: State<V>, item: V)
    requires Wf(s)
    ensures ByProtocol(Goto(s, 0, EnqCas(item, s.head)), Enqueued(s, item))
  {
    var c := Goto(s, 0, EnqCas(item, s.head));
    var s1 := Step(c, Cas(0, false, 0)).value;
    var s2 := Step(s1, Access(0)).value;
    assert Step(s2, Store(0)).value.pcs == s.pcs[0 := Idle];
  }

  lemma EnqueuedByProtocol<V>(s: State<V>, item: V)
    requires Inv(s) && s.seqs[Slot(s.head, s.size)] == s.head && !Owns(PcOf(s, 0))
    ensures Inv(Enqueued(s, item))
  {
    MovePreserves(s, 0, EnqCas(item, s.head));
    EnqueueSteps(s, item);
    ByProtocolInv(Goto(s, 0, EnqCas(item, s.head)), Enqueued(s, item));
  }

  /** The state after thread 0 claimed the tail ticket, read its item and released the slot. */
  function Dequeued<V>(s: State<V>): State<V>
    requires Wf(s) && s.tail < |s.won|
  {
    s.(tail := s.tail + 1, seqs := s.seqs[Slot(s.tail, s.size) := s.tail + s.size],
       taken := s.taken[s.tail := s.won[s.tail]], pcs := s.pcs[0 := Idle])
  }

  lemma DequeueSteps<V>(s: State<V>)
    requires Wf(s) && s.tail < |s.won| && s.data[Slot(s.tail, s.size)] == Some(s.won[s.tail])
    ensures ByProtocol(Goto(s, 0, DeqCas(s.tail)), Dequeued(s))
  {
    var c := Goto(s, 0, DeqCas(s.tail));
    var s1 := Step(c, Cas(0, false, 0)).value;
    var s2 := Step(s1, Access(0)).value;
    assert Step(s2, Store(0)).value.pcs == s.pcs[0 := Idle];
  }

  lemma DequeuedByProtocol<V>(s: State<V>)
    requires Inv(s) && s.tail < s.head && !Owns(PcOf(s, 0))
    requires s.seqs[Slot(s.tail, s.size)] == s.tail + 1 && s.data[Slot(s.tail, s.size)] == Some(s.won[s.tail])
    ensures Inv(Dequeued(s))
  {
    MovePreserves(s, 0, DeqCas(s.tail));
    DequeueSteps(s);
    ByProtocolInv(Goto(s, 0, DeqCas(s.tail)), Dequeued(s));
  }

  lemma DequeuedShape<V>(s: State<V>)
    requires Wf(s) && s.tail < s.head == |s.won| && AllIdle(s)
    ensures AllIdle(Dequeued(s)) && Abs(s).items == [s.won[s.tail]] + Abs(Dequeued(s)).items
  {
  }

  lemma SmallWords(size: nat, m: nat)
    requires size <= m
    ensures forall i | 0 <= i < size :: i % m == i
  {
  }

  // ---------------------------------------------------------------------------------------------

  class MpmcQueue<V> {
    const width: nat           // bits of a machine word
    const size: nat
    const mask: nat
    const nodeSeq: array<nat>
    const nodeData: array<Option<V>>
    var headSeq: nat
    var tailSeq: nat
    ghost var model: State<V>

    /** The fields are the wrapped fields of the protocol state. */
    ghost predicate Linked()
      reads this, nodeSeq, nodeData
    {
      && size > 0 && mask == size - 1 && nodeSeq.Length == nodeData.Length == size
      && |model.seqs| == size && model.data == nodeData[..]
      && headSeq == model.head % Pow2(width) && tailSeq == model.tail % Pow2(width)
      && forall i | 0 <= i < size :: nodeSeq[i] == model.seqs[i] % Pow2(width)
    }

    ghost predicate Valid()
      reads this, nodeSeq, nodeData
    {
      && Inv(model) && AllIdle(model) && model.size == size && IsPow2(size) && size < Pow2(width)
      && Linked()
    }

    ghost function Contents(): seq<V>
      reads this, nodeSeq, nodeData
      requires Valid()
    {
      Abs(model).items
    }

    /** The constructor's assertion admits every power of two; the object is sound from size 2 on. */
    constructor (width: nat, size: nat)
      requires size < Pow2(width) && SizeTest(width, size)
      ensures this.size == size && this.width == width && fresh(nodeSeq) && fresh(nodeData)
      ensures headSeq == tailSeq == 0
      ensures nodeSeq.Length == size && forall i | 0 <= i < size :: nodeSeq[i] == i
      ensures size >= 2 ==> Valid() && Contents() == []
    {
      this.width := width;
      this.size := size;
      mask := size - 1;
      nodeSeq := new nat[size];
      nodeData := new Option<V>[size](_ => None);
      headSeq, tailSeq := 0, 0;
      model := Init(size);
      new;
      for i := 0 to size
        invariant forall j | 0 <= j < i :: nodeSeq[j] == j
        invariant forall j | 0 <= j < size :: nodeData[j] == None
        invariant headSeq == tailSeq == 0 && model == Init(size)
      {
        nodeSeq[i] := i;
      }
      SizeTestIff(width, size);
      if size >= 2 {
        InitInv<V>(size);
        assert nodeData[..] == model.data;
        SmallWords(size, Pow2(width));
      }
    }

    /** `enqueue` from its winning compare-exchange to its return. */
    method Publish(item: V, head: nat, node: nat)
      requires Valid() && model.seqs[Slot(model.head, size)] == model.head
      requires head == headSeq && node == Slot(model.head, size)
      modifies this, nodeSeq, nodeData
      ensures Valid()
      ensures Contents() == old(Contents()) + [item]
    {
      headSeq := (head + 1) % Pow2(width);
      nodeData[node] := Some(item);
      nodeSeq[node] := (head + 1) % Pow2(width);
      assert headSeq == nodeSeq[node] == (model.head + 1) % Pow2(width) by {
        WrapAdd(model.head, 1, Pow2(width));
      }
      EnqueuedByProtocol(model, item);
      model := Enqueued(model, item);
    }

    /**
     `loaded` is the word the relaxed load of head_seq_ delivers, namely that of the possibly stale
     ticket `seen`; the weak compare-exchange fails spuriously `spurious` times when it could win.
     */
    method Enqueue(item: V, loaded: nat, ghost seen: nat, spurious: nat) returns (ok: bool)
      requires Valid()
      requires loaded == seen % Pow2(width) && Looking(width, model, seen, model.head)
      modifies this, nodeSeq, nodeData
      ensures Valid()
      ensures ok <==> old(|Contents()|) < size
      ensures Contents() == if ok then old(Contents()) + [item] else old(Contents())
    {
      var m := Pow2(width);
      ghost var ticket: nat := seen;
      var head := loaded;
      var failures := spurious;
      while true
        invariant Valid() && unchanged(this) && unchanged(nodeSeq) && unchanged(nodeData)
        invariant head == ticket % m && Looking(width, model, ticket, model.head)
        decreases failures, model.head - ticket
      {
        EnqueueLooks(width, model, item, ticket);
        EnqueueSees(model, item, ticket);
        var node := BitAnd(head, mask);
        var dif := Dif(m, nodeSeq[node], head);
        if dif == 0 {
          if head == headSeq && failures == 0 {
            Publish(item, head, node);
            return true;
          }
          if head == headSeq { failures := failures - 1; }
          head := headSeq;
        } else if dif < 0 {
          return false;
        } else {
          head := headSeq;
        }
        ticket := model.head;
      }
    }

    /** `dequeue` from its winning compare-exchange to its return. */
    method Take(tail: nat, node: nat) returns (r: Option<V>)
      requires Valid() && model.tail < model.head && model.seqs[Slot(model.tail, size)] == model.tail + 1
      requires model.data[Slot(model.tail, size)] == Some(model.won[model.tail])
      requires tail == tailSeq && node == Slot(model.tail, size)
      modifies this, nodeSeq, nodeData
      ensures Valid()
      ensures r.Some? && old(Contents()) == [r.value] + Contents()
    {
      ghost var m := Pow2(width);
      tailSeq := (tail + 1) % Pow2(width);
      r := nodeData[node];
      nodeSeq[node] := (tail + mask + 1) % Pow2(width);
      assert tailSeq == (model.tail + 1) % m && nodeSeq[node] == (model.tail + size) % m by {
        WrapAdd(model.tail, 1, m);
        WrapAdd(model.tail, size, m);
        assert tail + mask + 1 == model.tail % m + size;
      }
      DequeuedByProtocol(model);
      DequeuedShape(model);
      model := Dequeued(model);
    }

    method Dequeue(loaded: nat, ghost seen: nat, spurious: nat) returns (r: Option<V>)
      requires Valid()
      requires loaded == seen % Pow2(width) && Looking(width, model, seen, model.tail)
      modifies this, nodeSeq, nodeData
      ensures Valid()
      ensures r.None? <==> old(Contents()) == []
      ensures old(Contents()) == if r.None? then Contents() else [r.value] + Contents()
    {
      var m := Pow2(width);
      ghost var ticket: nat := seen;
      var tail := loaded;
      var failures := spurious;
      while true
        invariant Valid() && unchanged(this) && unchanged(nodeSeq) && unchanged(nodeData)
        invariant tail == ticket % m && Looking(width, model, ticket, model.tail)
        decreases failures, model.tail - ticket
      {
        DequeueLooks(width, model, ticket);
        DequeueSees(model, ticket);
        var node := BitAnd(tail, mask);
        var dif := Dif(m, nodeSeq[node], (tail + 1) % m);
        if dif == 0 {
          if tail == tailSeq && failures == 0 {
            r := Take(tail, node);
            return;
          }
          if tail == tailSeq { failures := failures - 1; }
          tail := tailSeq;
        } else if dif < 0 {
          return None;
        } else {
          tail := tailSeq;
        }
        ticket := model.tail;
      }
    }
  }
}

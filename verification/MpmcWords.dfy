/**
 The queue on machine words of w bits: tickets wrap, slots come from a mask, and the comparison of
 a sequence number with a ticket is a two's complement difference.  It moves in lock step with the
 unbounded protocol as long as no thread's ticket lags by half the word range.
 */
module MpmcWords {
  import opened Prelude
  import opened Words
  import opened MpmcProtocol
  import opened MpmcInvariant
  import opened MpmcFifo

  datatype WState<V> = WState(
    mask: nat,
    head: nat,
    tail: nat,
    seqs: seq<nat>,
    data: seq<Option<V>>,
    pcs: map<Tid, Pc<V>>
  )

  ghost predicate WfW<V>(s: WState<V>) {
    |s.seqs| == |s.data| == s.mask + 1
  }

  function PcOfW<V>(s: WState<V>, tid: Tid): Pc<V> {
    if tid in s.pcs then s.pcs[tid] else Idle
  }

  function Dif(m: nat, nodeSeq: nat, ticket: nat): int
    requires m > 0
  {
    Signed(m, (nodeSeq - ticket) % m)
  }

  /**
   One atomic step on a machine with m = 2^w word values; the loaded ticket is whatever word the
   relaxed load delivered.
   */
  function StepW<V>(m: nat, s: WState<V>, a: Action<V>): Option<WState<V>>
    requires WfW(s) && m > 0
  {
    var pc := PcOfW(s, a.tid);
    match a
    case BeginEnqueue(tid, item) =>
      if pc.Idle? then Some(s.(pcs := s.pcs[tid := EnqTicket(item)])) else None
    case BeginDequeue(tid) =>
      if pc.Idle? then Some(s.(pcs := s.pcs[tid := DeqTicket])) else None
    case LoadTicket(tid, seen) =>
      if pc.EnqTicket? then Some(s.(pcs := s.pcs[tid := EnqSeq(pc.item, seen)]))
      else if pc.DeqTicket? then Some(s.(pcs := s.pcs[tid := DeqSeq(seen)]))
      else None
    case LoadSeq(tid) =>
      if pc.EnqSeq? then
        var dif := Dif(m, s.seqs[BitAnd(pc.ticket, s.mask)], pc.ticket);
        Some(s.(pcs := s.pcs[tid := if dif == 0 then EnqCas(pc.item, pc.ticket)
                                    else if dif < 0 then Idle else EnqTicket(pc.item)]))
      else if pc.DeqSeq? then
        var dif := Dif(m, s.seqs[BitAnd(pc.ticket, s.mask)], (pc.ticket + 1) % m);
        Some(s.(pcs := s.pcs[tid := if dif == 0 then DeqCas(pc.ticket)
                                    else if dif < 0 then Idle else DeqTicket]))
      else None
    case Cas(tid, spurious, seen) =>
      if pc.EnqCas? then
        if s.head == pc.ticket && !spurious then
          Some(s.(pcs := s.pcs[tid := EnqWrite(pc.item, pc.ticket)], head := (s.head + 1) % m))
        else Some(s.(pcs := s.pcs[tid := EnqSeq(pc.item, seen)]))
      else if pc.DeqCas? then
        if s.tail == pc.ticket && !spurious then
          Some(s.(pcs := s.pcs[tid := DeqRead(pc.ticket)], tail := (s.tail + 1) % m))
        else Some(s.(pcs := s.pcs[tid := DeqSeq(seen)]))
      else None
    case Access(tid) =>
      if !(pc.EnqWrite? || pc.DeqRead?) then None
      else
        var i := BitAnd(pc.ticket, s.mask);
        if pc.EnqWrite? then
          Some(s.(pcs := s.pcs[tid := EnqPublish(pc.item, pc.ticket)], data := s.data[i := Some(pc.item)]))
        else if s.data[i].Some? then
          Some(s.(pcs := s.pcs[tid := DeqRelease(pc.ticket, s.data[i].value)]))
        else None
    case Store(tid) =>
      if pc.EnqPublish? then
        Some(s.(pcs := s.pcs[tid := Idle], seqs := s.seqs[BitAnd(pc.ticket, s.mask) := (pc.ticket + 1) % m]))
      else if pc.DeqRelease? then
        Some(s.(pcs := s.pcs[tid := Idle],
             seqs := s.seqs[BitAnd(pc.ticket, s.mask) := (pc.ticket + s.mask + 1) % m]))
      else None
  }

  // ---------------------------------------------------------------------------------------------
  // The abstraction: wrap every ticket
  // ---------------------------------------------------------------------------------------------

  function WrapPc<V>(m: nat, p: Pc<V>): Pc<V>
    requires m > 0
  {
    match p
    case EnqSeq(v, h) => EnqSeq(v, h % m)
    case EnqCas(v, h) => EnqCas(v, h % m)
    case EnqWrite(v, h) => EnqWrite(v, h % m)
    case EnqPublish(v, h) => EnqPublish(v, h % m)
    case DeqSeq(t) => DeqSeq(t % m)
    case DeqCas(t) => DeqCas(t % m)
    case DeqRead(t) => DeqRead(t % m)
    case DeqRelease(t, v) => DeqRelease(t % m, v)
    case _ => p
  }

  function WrapPcs<V>(m: nat, pcs: map<Tid, Pc<V>>): map<Tid, Pc<V>>
    requires m > 0
  {
    map a | a in pcs :: WrapPc(m, pcs[a])
  }

  function Wrap<V>(m: nat, s: State<V>): WState<V>
    requires s.size > 0 && m > 0
  {
    WState(s.size - 1, s.head % m, s.tail % m, seq(|s.seqs|, i requires 0 <= i < |s.seqs| => s.seqs[i] % m),
           s.data, WrapPcs(m, s.pcs))
  }

  function WrapAction<V>(m: nat, a: Action<V>): Action<V>
    requires m > 0
  {
    match a
    case LoadTicket(tid, seen) => LoadTicket(tid, seen % m)
    case Cas(tid, spurious, seen) => Cas(tid, spurious, seen % m)
    case _ => a
  }

  function WrapOption<V>(m: nat, s: Option<State<V>>): Option<WState<V>>
    requires m > 0
    requires s.Some? ==> s.value.size > 0
  {
    if s.None? then None else Some(Wrap(m, s.value))
  }

  /** Any value a load delivers is one the counter has held. */
  predicate Genuine<V>(s: State<V>, a: Action<V>) {
    match a
    case LoadTicket(tid, seen) => seen <= if PcOf(s, tid).DeqTicket? then s.tail else s.head
    case Cas(tid, spurious, seen) =>
      if PcOf(s, tid).EnqCas? then seen <= s.head || (s.head == PcOf(s, tid).ticket && !spurious)
      else if PcOf(s, tid).DeqCas? then seen <= s.tail || (s.tail == PcOf(s, tid).ticket && !spurious)
      else true
    case _ => true
  }

  predicate NearPc<V>(m: nat, s: State<V>, p: Pc<V>) {
    match p
    case EnqSeq(_, h) => 2 * (s.head - h + s.size) <= m
    case EnqCas(_, h) => 2 * (s.head - h + s.size) <= m
    case DeqSeq(t) => 2 * (s.tail - t + s.size) <= m
    case DeqCas(t) => 2 * (s.tail - t + s.size) <= m
    case _ => true
  }

  /** No thread inside its loop lags by half the word range. */
  ghost predicate Near<V>(m: nat, s: State<V>) {
    forall a | a in s.pcs :: NearPc(m, s, s.pcs[a])
  }

  // ---------------------------------------------------------------------------------------------

  /** Masking a wrapped ticket gives the slot of the unbounded ticket. */
  lemma MaskedSlot(w: nat, t: nat, size: nat)
    requires IsPow2(size) && size < Pow2(w)
    ensures size > 0 && BitAnd(t % Pow2(w), size - 1) == Slot(t, size)
  {
    var k: nat :| size == Pow2(k);
    Pow2Monotone(k, w);
    Pow2Divides(k, w);
    MaskIsMod(t % Pow2(w), k);
    WrapThenMod(t, size, Pow2(w - k));
  }

  /** All that the simulation needs to know about the word size. */
  ghost predicate MaskFindsSlot(m: nat, size: nat) {
    m > 0 && size > 0 && forall t: nat :: BitAnd(t % m, size - 1) == Slot(t, size)
  }

  lemma PowersOfTwoMask(w: nat, size: nat)
    requires IsPow2(size) && size < Pow2(w)
    ensures MaskFindsSlot(Pow2(w), size)
  {
    forall t: nat ensures size > 0 && BitAnd(t % Pow2(w), size - 1) == Slot(t, size) {
      MaskedSlot(w, t, size);
    }
  }

  lemma WrapPcsUpdate<V>(m: nat, pcs: map<Tid, Pc<V>>, tid: Tid, p: Pc<V>)
    requires m > 0
    ensures WrapPcs(m, pcs[tid := p]) == WrapPcs(m, pcs)[tid := WrapPc(m, p)]
  {
  }

  lemma WrapSeqsUpdate<V>(m: nat, s: State<V>, i: nat, q: nat)
    requires Wf(s) && i < s.size && m > 0
    ensures Wrap(m, s.(seqs := s.seqs[i := q])).seqs == Wrap(m, s).seqs[i := q % m]
  {
  }

  /** How far a slot's sequence number can be from the ticket of a thread that looks at it. */
  lemma LoadRange<V>(m: nat, s: State<V>, tid: Tid)
    requires Inv(s) && (PcOf(s, tid).EnqSeq? || PcOf(s, tid).DeqSeq?) && NearPc(m, s, PcOf(s, tid))
    ensures var p := PcOf(s, tid);
            var a := s.seqs[Slot(p.ticket, s.size)];
            var b := if p.EnqSeq? then p.ticket else p.ticket + 1;
            2 * (b - a) <= m && 2 * (a - b) < m
  {
    assert PcOk(s, s.pcs[tid]) && SlotOk(s, Slot(PcOf(s, tid).ticket, s.size));
  }

  /** On wrapped words the difference still tells which branch the unbounded protocol takes. */
  lemma DifExact<V>(m: nat, s: State<V>, tid: Tid)
    requires Inv(s) && (PcOf(s, tid).EnqSeq? || PcOf(s, tid).DeqSeq?) && Near(m, s) && m > 0
    ensures var p := PcOf(s, tid);
            var a := s.seqs[Slot(p.ticket, s.size)];
            if p.EnqSeq? then Dif(m, a % m, p.ticket % m) == a - p.ticket
            else Dif(m, a % m, (p.ticket % m + 1) % m) == a - (p.ticket + 1)
  {
    var p := PcOf(s, tid);
    LoadRange(m, s, tid);
    var a := s.seqs[Slot(p.ticket, s.size)];
    if p.EnqSeq? {
      SignedDifference(m, a, p.ticket);
    } else {
      NextTicketDif(m, a, p.ticket);
    }
  }

  lemma NextTicketDif(m: nat, a: nat, t: nat)
    requires m > 0 && 2 * (t + 1 - a) <= m && 2 * (a - (t + 1)) < m
    ensures Dif(m, a % m, (t % m + 1) % m) == a - (t + 1)
  {
    SignedDifference(m, a, t + 1);
    WrapAdd(t, 1, m);
  }

  /** The ticket comparison of the compare-exchange cannot be fooled by wrap-around. */
  lemma CasExact<V>(m: nat, s: State<V>, tid: Tid)
    requires Inv(s) && (PcOf(s, tid).EnqCas? || PcOf(s, tid).DeqCas?) && Near(m, s) && m > 0
    ensures var p := PcOf(s, tid);
            var c := if p.EnqCas? then s.head else s.tail;
            c % m == p.ticket % m <==> c == p.ticket
  {
    var p := PcOf(s, tid);
    assert PcOk(s, s.pcs[tid]) && NearPc(m, s, s.pcs[tid]);
    WrapInjective(if p.EnqCas? then s.head else s.tail, p.ticket, m);
  }

  lemma LoadSeqSimulates<V>(m: nat, s: State<V>, tid: Tid)
    requires Wf(s) && m > 0
    requires var p := PcOf(s, tid);
             p.EnqSeq? || p.DeqSeq? ==>
               var a := s.seqs[Slot(p.ticket, s.size)];
               && BitAnd(p.ticket % m, s.size - 1) == Slot(p.ticket, s.size)
               && if p.EnqSeq? then Dif(m, a % m, p.ticket % m) == a - p.ticket
                  else Dif(m, a % m, (p.ticket % m + 1) % m) == a - (p.ticket + 1)
    ensures StepW(m, Wrap(m, s), LoadSeq(tid)) == WrapOption(m, Step(s, LoadSeq(tid)))
  {
    var p := PcOf(s, tid);
    if p.EnqSeq? || p.DeqSeq? {
      WrapPcsUpdate(m, s.pcs, tid, Step(s, LoadSeq(tid)).value.pcs[tid]);
    }
  }

  lemma CasSimulates<V>(m: nat, s: State<V>, tid: Tid, spurious: bool, seen: nat)
    requires Wf(s) && m > 0 && Genuine(s, Cas(tid, spurious, seen))
    requires var p := PcOf(s, tid);
             p.EnqCas? || p.DeqCas? ==>
               var c := if p.EnqCas? then s.head else s.tail;
               && (c % m == p.ticket % m <==> c == p.ticket)
               && (c % m + 1) % m == (c + 1) % m
    ensures StepW(m, Wrap(m, s), WrapAction(m, Cas(tid, spurious, seen)))
         == WrapOption(m, Step(s, Cas(tid, spurious, seen)))
  {
    var p := PcOf(s, tid);
    if p.EnqCas? || p.DeqCas? {
      WrapPcsUpdate(m, s.pcs, tid, Step(s, Cas(tid, spurious, seen)).value.pcs[tid]);
    }
  }

  lemma AccessSimulates<V>(m: nat, s: State<V>, tid: Tid)
    requires Wf(s) && m > 0
    requires var p := PcOf(s, tid);
             Owns(p) ==> BitAnd(p.ticket % m, s.size - 1) == Slot(p.ticket, s.size)
    ensures StepW(m, Wrap(m, s), Access(tid)) == WrapOption(m, Step(s, Access(tid)))
  {
    if Step(s, Access(tid)).Some? {
      WrapPcsUpdate(m, s.pcs, tid, Step(s, Access(tid)).value.pcs[tid]);
    }
  }

  lemma StoreSimulates<V>(m: nat, s: State<V>, tid: Tid)
    requires Wf(s) && m > 0
    requires var p := PcOf(s, tid);
             Owns(p) ==> && BitAnd(p.ticket % m, s.size - 1) == Slot(p.ticket, s.size)
                         && (p.ticket % m + 1) % m == (p.ticket + 1) % m
                         && (p.ticket % m + s.size) % m == (p.ticket + s.size) % m
    ensures StepW(m, Wrap(m, s), Store(tid)) == WrapOption(m, Step(s, Store(tid)))
  {
    var p := PcOf(s, tid);
    if p.EnqPublish? || p.DeqRelease? {
      WrapPcsUpdate(m, s.pcs, tid, Idle);
      WrapSeqsUpdate(m, s, Slot(p.ticket, s.size), if p.EnqPublish? then p.ticket + 1 else p.ticket + s.size);
    }
  }

  lemma LoopStepSimulates<V>(m: nat, s: State<V>, a: Action<V>)
    requires Inv(s) && MaskFindsSlot(m, s.size) && Near(m, s) && Genuine(s, a)
    requires a.LoadSeq? || a.Cas?
    ensures StepW(m, Wrap(m, s), WrapAction(m, a)) == WrapOption(m, Step(s, a))
  {
    var p := PcOf(s, a.tid);
    if a.LoadSeq? {
      if p.EnqSeq? || p.DeqSeq? {
        DifExact(m, s, a.tid);
      }
      LoadSeqSimulates(m, s, a.tid);
    } else {
      if p.EnqCas? || p.DeqCas? {
        CasExact(m, s, a.tid);
        WrapAdd(if p.EnqCas? then s.head else s.tail, 1, m);
      }
      CasSimulates(m, s, a.tid, a.spurious, a.seen);
    }
  }

  lemma OwnerStepSimulates<V>(m: nat, s: State<V>, a: Action<V>)
    requires Wf(s) && MaskFindsSlot(m, s.size) && (a.Access? || a.Store?)
    ensures StepW(m, Wrap(m, s), WrapAction(m, a)) == WrapOption(m, Step(s, a))
  {
    var p := PcOf(s, a.tid);
    if Owns(p) {
      assert BitAnd(p.ticket % m, s.size - 1) == Slot(p.ticket, s.size);
      WrapAdd(p.ticket, 1, m);
      WrapAdd(p.ticket, s.size, m);
    }
    if a.Access? {
      AccessSimulates(m, s, a.tid);
    } else {
      StoreSimulates(m, s, a.tid);
    }
  }

  /** One step of the word machine is exactly the wrapped step of the unbounded protocol. */
  lemma StepSimulates<V>(m: nat, s: State<V>, a: Action<V>)
    requires Inv(s) && MaskFindsSlot(m, s.size) && Near(m, s) && Genuine(s, a)
    ensures StepW(m, Wrap(m, s), WrapAction(m, a)) == WrapOption(m, Step(s, a))
  {
    if a.LoadSeq? || a.Cas? {
      LoopStepSimulates(m, s, a);
    } else if a.Access? || a.Store? {
      OwnerStepSimulates(m, s, a);
    } else {
      StartSimulates(m, s, a);
    }
  }

  lemma StartSimulates<V>(m: nat, s: State<V>, a: Action<V>)
    requires Wf(s) && m > 0 && Genuine(s, a) && (a.BeginEnqueue? || a.BeginDequeue? || a.LoadTicket?)
    ensures StepW(m, Wrap(m, s), WrapAction(m, a)) == WrapOption(m, Step(s, a))
  {
    if Step(s, a).Some? {
      WrapPcsUpdate(m, s.pcs, a.tid, Step(s, a).value.pcs[a.tid]);
    }
  }

  function WrapActions<V>(m: nat, acts: seq<Action<V>>): (r: seq<Action<V>>)
    requires m > 0
    ensures |r| == |acts|
  {
    seq(|acts|, i requires 0 <= i < |acts| => WrapAction(m, acts[i]))
  }

  function RunW<V>(m: nat, s: WState<V>, acts: seq<Action<V>>): (r: Option<WState<V>>)
    requires WfW(s) && m > 0
    ensures r.Some? ==> WfW(r.value)
    decreases |acts|
  {
    if acts == [] then Some(s)
    else
      var t := RunW(m, s, acts[..|acts| - 1]);
      if t.None? then None else StepW(m, t.value, acts[|acts| - 1])
  }

  /** The loads of the run are genuine, and every state from which it takes a step is Near. */
  ghost predicate NearRun<V>(m: nat, s: State<V>, acts: seq<Action<V>>)
    requires Wf(s)
    decreases |acts|
  {
    acts == [] ||
    var n := |acts| - 1;
    && NearRun(m, s, acts[..n])
    && match Run(s, acts[..n])
       case Some(t) => Near(m, t) && Genuine(t, acts[n])
       case None => true
  }

  lemma {:induction false} RunWraps<V>(m: nat, s: State<V>, acts: seq<Action<V>>)
    requires Inv(s) && MaskFindsSlot(m, s.size) && NearRun(m, s, acts)
    ensures RunW(m, Wrap(m, s), WrapActions(m, acts)) == WrapOption(m, Run(s, acts))
    decreases |acts|
  {
    if acts != [] {
      var n := |acts| - 1;
      RunWraps(m, s, acts[..n]);
      WrapActionsSnoc(m, acts);
      if Run(s, acts[..n]).Some? {
        RunInv(s, acts[..n]);
        StepSimulates(m, Run(s, acts[..n]).value, acts[n]);
      }
    }
  }

  lemma WrapActionsSnoc<V>(m: nat, acts: seq<Action<V>>)
    requires m > 0 && acts != []
    ensures var n := |acts| - 1;
            WrapActions(m, acts)[..n] == WrapActions(m, acts[..n]) && WrapActions(m, acts)[n] == WrapAction(m, acts[n])
  {
  }

  /**
   A whole run on words of w bits, wrap-around of the tickets included, goes exactly as the same run on
   unbounded tickets: it ends in the wrapped end state, or is disabled at a step where that one is.
   */
  lemma RunSimulates<V>(w: nat, s: State<V>, acts: seq<Action<V>>)
    requires Inv(s) && IsPow2(s.size) && s.size < Pow2(w) && NearRun(Pow2(w), s, acts)
    ensures RunW(Pow2(w), Wrap(Pow2(w), s), WrapActions(Pow2(w), acts)) == WrapOption(Pow2(w), Run(s, acts))
  {
    PowersOfTwoMask(w, s.size);
    RunWraps(Pow2(w), s, acts);
  }

  // ---------------------------------------------------------------------------------------------
  // The machine's queue is a bounded FIFO
  // ---------------------------------------------------------------------------------------------

  predicate WinsEnqW<V>(s: WState<V>, a: Action<V>) {
    a.Cas? && PcOfW(s, a.tid).EnqCas? && s.head == PcOfW(s, a.tid).ticket && !a.spurious
  }

  predicate WinsDeqW<V>(s: WState<V>, a: Action<V>) {
    a.Cas? && PcOfW(s, a.tid).DeqCas? && s.tail == PcOfW(s, a.tid).ticket && !a.spurious
  }

  /** The sequential operations of a word run, in the order of its winning compare-exchanges. */
  function LinearW<V>(m: nat, s: WState<V>, acts: seq<Action<V>>): seq<Op<V>>
    requires WfW(s) && m > 0 && RunW(m, s, acts).Some?
    decreases |acts|
  {
    if acts == [] then []
    else
      var n := |acts| - 1;
      var t := RunW(m, s, acts[..n]).value;
      LinearW(m, s, acts[..n]) +
      (if WinsEnqW(t, acts[n]) then [Push(PcOfW(t, acts[n].tid).item)]
       else if WinsDeqW(t, acts[n]) then [Pop]
       else [])
  }

  /** On words the same compare-exchanges win, for the same items. */
  lemma SameWins<V>(m: nat, s: State<V>, a: Action<V>)
    requires Inv(s) && Near(m, s) && m > 0
    ensures var u, b := Wrap(m, s), WrapAction(m, a);
            && (WinsEnqW(u, b) <==> WinsEnq(s, a)) && (WinsDeqW(u, b) <==> WinsDeq(s, a))
            && (WinsEnq(s, a) ==> PcOfW(u, b.tid).item == PcOf(s, a.tid).item)
  {
    var p := PcOf(s, a.tid);
    assert PcOfW(Wrap(m, s), a.tid) == WrapPc(m, p);
    if a.Cas? && (p.EnqCas? || p.DeqCas?) { CasExact(m, s, a.tid); }
  }

  lemma {:induction false} SameLinear<V>(m: nat, s: State<V>, acts: seq<Action<V>>)
    requires Inv(s) && MaskFindsSlot(m, s.size) && NearRun(m, s, acts) && Run(s, acts).Some?
    ensures RunW(m, Wrap(m, s), WrapActions(m, acts)).Some?
    ensures LinearW(m, Wrap(m, s), WrapActions(m, acts)) == Linear(s, acts)
    decreases |acts|
  {
    RunWraps(m, s, acts);
    if acts != [] {
      var n := |acts| - 1;
      SameLinear(m, s, acts[..n]);
      RunWraps(m, s, acts[..n]);
      WrapActionsSnoc(m, acts);
      RunInv(s, acts[..n]);
      SameWins(m, Run(s, acts[..n]).value, acts[n]);
    }
  }

  /** Every dequeuer about to return holds the item popped under its ticket, counted back from the tail. */
  ghost predicate HoldsPopped<V>(m: nat, u: WState<V>, popped: seq<V>)
    requires m > 0
  {
    forall a | a in u.pcs && u.pcs[a].DeqRelease? ::
      var lag := (u.tail - u.pcs[a].ticket) % m;
      0 < lag <= |popped| && u.pcs[a].item == popped[|popped| - lag]
  }

  lemma HeldIsPopped<V>(m: nat, s: State<V>, a: Tid)
    requires Inv(s) && s.size < m && a in s.pcs && s.pcs[a].DeqRelease?
    ensures var lag := (s.tail % m - s.pcs[a].ticket % m) % m;
            0 < lag <= s.tail <= |s.won| && s.pcs[a].item == s.won[s.tail - lag]
  {
    assert PcOk(s, s.pcs[a]);
    WrapDistance(m, s.tail, s.pcs[a].ticket);
  }

  lemma HeldArePopped<V>(m: nat, s: State<V>)
    requires Inv(s) && s.size < m
    ensures HoldsPopped(m, Wrap(m, s), s.won[..s.tail])
  {
    forall a | a in s.pcs && s.pcs[a].DeqRelease?
      ensures var lag := (s.tail % m - s.pcs[a].ticket % m) % m;
              0 < lag <= s.tail <= |s.won| && s.pcs[a].item == s.won[s.tail - lag]
    {
      HeldIsPopped(m, s, a);
    }
    WrapHolds(m, s);
  }

  /** The same on wrapped tickets. */
  lemma WrapHolds<V>(m: nat, s: State<V>)
    requires s.size > 0 && m > 0 && s.tail <= |s.won|
    requires forall a | a in s.pcs && s.pcs[a].DeqRelease? ::
               var lag := (s.tail % m - s.pcs[a].ticket % m) % m;
               0 < lag <= s.tail && s.pcs[a].item == s.won[s.tail - lag]
    ensures HoldsPopped(m, Wrap(m, s), s.won[..s.tail])
  {
    var u := Wrap(m, s);
    forall a | a in u.pcs && u.pcs[a].DeqRelease?
      ensures var lag := (u.tail - u.pcs[a].ticket) % m;
              0 < lag <= s.tail && u.pcs[a].item == s.won[..s.tail][s.tail - lag]
    {
      assert u.pcs[a] == WrapPc(m, s.pcs[a]);
    }
  }

  /**
   So every word run from a new queue whose size is a power of two is a run of a bounded FIFO: its
   winning compare-exchanges replay on the sequential queue, whose counts its two tickets are, wrapped,
   and every dequeue returns the item popped under its ticket.
   */
  lemma WordsLinearizable<V>(w: nat, size: nat, acts: seq<Action<V>>)
    requires size >= 2 && IsPow2(size) && size < Pow2(w) && NearRun(Pow2(w), Init<V>(size), acts)
    requires RunW(Pow2(w), Wrap(Pow2(w), Init<V>(size)), WrapActions(Pow2(w), acts)).Some?
    ensures var m, s, word := Pow2(w), Wrap(Pow2(w), Init<V>(size)), WrapActions(Pow2(w), acts);
            var u, f := RunW(m, s, word).value, Replay(Fifo(size, [], []), LinearW(m, s, word));
            && f.Some? && u.tail == |f.value.popped| % m && u.head == (|f.value.popped| + |f.value.items|) % m
            && HoldsPopped(m, u, f.value.popped)
  {
    InitInv<V>(size);
    PowersOfTwoMask(w, size);
    RunWraps(Pow2(w), Init<V>(size), acts);
    SameLinear(Pow2(w), Init<V>(size), acts);
    Linearizable<V>(size, acts);
    RunInv(Init<V>(size), acts);
    HeldArePopped(Pow2(w), Run(Init<V>(size), acts).value);
  }
}

/**
 Lock-freedom of the queue's loops, when every ticket load is fresh: a thread goes round its loop
 again only after a spurious failure or because another thread won a ticket meanwhile.
 */
module MpmcProgress {
  import opened MpmcProtocol
  import opened MpmcInvariant
  import opened MpmcFifo

  datatype Side = EnqSide | DeqSide

  /** The action's ticket load, if it performs one, sees the current ticket. */
  predicate FreshAction<V>(s: State<V>, a: Action<V>) {
    match a
    case LoadTicket(tid, seen) => seen == if PcOf(s, tid).EnqTicket? then s.head else s.tail
    case Cas(tid, _, seen) => seen == if PcOf(s, tid).EnqCas? then s.head else s.tail
    case _ => true
  }

  predicate FreshRun<V>(s: State<V>, acts: seq<Action<V>>)
    requires Wf(s) && Run(s, acts).Some?
    decreases |acts|
  {
    acts == [] ||
    (FreshRun(s, acts[..|acts| - 1]) && FreshAction(Run(s, acts[..|acts| - 1]).value, acts[|acts| - 1]))
  }

  /** Counts over a run, for one thread and one kind of call. */
  datatype Tally = Tally(
    iterations: nat,  // times round the loop: one sequence load each
    calls: nat,
    spurious: nat,    // compare-exchanges that failed although the ticket was current
    rivals: nat       // tickets won by other threads on the same side
  )

  function Count<V>(s: State<V>, a: Action<V>, tid: Tid, side: Side, c: Tally): Tally {
    var p := PcOf(s, tid);
    if a.tid != tid then
      if (side == EnqSide && WinsEnq(s, a)) || (side == DeqSide && WinsDeq(s, a)) then c.(rivals := c.rivals + 1) else c
    else
      match side
      case EnqSide =>
        if a.BeginEnqueue? then c.(calls := c.calls + 1)
        else if a.LoadSeq? && p.EnqSeq? then c.(iterations := c.iterations + 1)
        else if a.Cas? && p.EnqCas? && s.head == p.ticket && a.spurious then c.(spurious := c.spurious + 1)
        else c
      case DeqSide =>
        if a.BeginDequeue? then c.(calls := c.calls + 1)
        else if a.LoadSeq? && p.DeqSeq? then c.(iterations := c.iterations + 1)
        else if a.Cas? && p.DeqCas? && s.tail == p.ticket && a.spurious then c.(spurious := c.spurious + 1)
        else c
  }

  function Counts<V>(s: State<V>, acts: seq<Action<V>>, tid: Tid, side: Side): Tally
    requires Wf(s) && Run(s, acts).Some?
    decreases |acts|
  {
    if acts == [] then Tally(0, 0, 0, 0)
    else
      var n := |acts| - 1;
      Count(Run(s, acts[..n]).value, acts[n], tid, side, Counts(s, acts[..n], tid, side))
  }

  /** Iterations a thread may still make without anything else happening, plus how stale it is. */
  function Debt<V>(s: State<V>, tid: Tid, side: Side): int {
    var p := PcOf(s, tid);
    match side
    case EnqSide => if p.EnqTicket? then 1 else if p.EnqSeq? then 1 + s.head - p.ticket
                    else if p.EnqCas? then s.head - p.ticket else 0
    case DeqSide => if p.DeqTicket? then 1 else if p.DeqSeq? then 1 + s.tail - p.ticket
                    else if p.DeqCas? then s.tail - p.ticket else 0
  }

  ghost predicate Solvent<V>(s: State<V>, tid: Tid, side: Side, c: Tally) {
    0 <= Debt(s, tid, side) && c.iterations + Debt(s, tid, side) <= c.calls + c.spurious + c.rivals
  }

  /** The reload branch is taken only when the shared ticket has moved past the thread's own. */
  lemma ReloadMeansOvertaken<V>(s: State<V>, tid: Tid)
    requires Inv(s)
    ensures PcOf(s, tid).EnqSeq? && s.seqs[Slot(PcOf(s, tid).ticket, s.size)] > PcOf(s, tid).ticket
            ==> PcOf(s, tid).ticket < s.head
    ensures PcOf(s, tid).DeqSeq? && s.seqs[Slot(PcOf(s, tid).ticket, s.size)] > PcOf(s, tid).ticket + 1
            ==> PcOf(s, tid).ticket < s.tail
  {
    var p := PcOf(s, tid);
    if p.EnqSeq? || p.DeqSeq? {
      var t, i := p.ticket, Slot(p.ticket, s.size);
      var q := s.seqs[i];
      assert PcOk(s, s.pcs[tid]) && SlotOk(s, i);
      if q > t {
        if FreeFor(s, i, q) {
          SlotApart(t, q, s.size);
        } else if q - 1 > t {
          SlotApart(t, q - 1, s.size);
        }
      }
    }
  }

  lemma OwnStepSolvent<V>(s: State<V>, a: Action<V>, side: Side, c: Tally)
    requires Inv(s) && Step(s, a).Some? && FreshAction(s, a) && Solvent(s, a.tid, side, c)
    ensures Solvent(Step(s, a).value, a.tid, side, Count(s, a, a.tid, side, c))
  {
    assert a.tid in s.pcs ==> PcOk(s, s.pcs[a.tid]);
    ReloadMeansOvertaken(s, a.tid);
    assert a.tid in Step(s, a).value.pcs;
    match a
    case LoadSeq(_) =>
    case Cas(_, _, _) =>
    case _ =>
  }

  lemma RivalStepSolvent<V>(s: State<V>, a: Action<V>, tid: Tid, side: Side, c: Tally)
    requires Wf(s) && Step(s, a).Some? && a.tid != tid && Solvent(s, tid, side, c)
    ensures Solvent(Step(s, a).value, tid, side, Count(s, a, tid, side, c))
  {
    RivalStep(s, a, tid);
  }

  /** A rival leaves the thread's program counter alone and moves a ticket only by winning it. */
  lemma RivalStep<V>(s: State<V>, a: Action<V>, tid: Tid)
    requires Wf(s) && Step(s, a).Some? && a.tid != tid
    ensures var s' := Step(s, a).value;
            && PcOf(s', tid) == PcOf(s, tid)
            && s'.head == s.head + (if WinsEnq(s, a) then 1 else 0)
            && s'.tail == s.tail + (if WinsDeq(s, a) then 1 else 0)
  {
  }

  lemma StepSolvent<V>(s: State<V>, a: Action<V>, tid: Tid, side: Side, c: Tally)
    requires Inv(s) && Step(s, a).Some? && FreshAction(s, a) && Solvent(s, tid, side, c)
    ensures Solvent(Step(s, a).value, tid, side, Count(s, a, tid, side, c))
  {
    if a.tid == tid {
      OwnStepSolvent(s, a, side, c);
    } else {
      RivalStepSolvent(s, a, tid, side, c);
    }
  }

  /**
   In every run with fresh ticket loads, a thread's loop iterations are paid for by its calls, its
   spurious failures and its rivals' wins: with finitely many of those, every call terminates.
   */
  lemma {:induction false} IterationsBounded<V>(size: nat, acts: seq<Action<V>>, tid: Tid, side: Side)
    requires size >= 2 && Run(Init<V>(size), acts).Some? && FreshRun(Init<V>(size), acts)
    ensures var c := Counts(Init<V>(size), acts, tid, side);
            c.iterations <= c.calls + c.spurious + c.rivals
    ensures Solvent(Run(Init<V>(size), acts).value, tid, side, Counts(Init<V>(size), acts, tid, side))
    decreases |acts|
  {
    InitInv<V>(size);
    if acts != [] {
      var n := |acts| - 1;
      IterationsBounded(size, acts[..n], tid, side);
      RunInv(Init<V>(size), acts[..n]);
      StepSolvent(Run(Init<V>(size), acts[..n]).value, acts[n], tid, side, Counts(Init<V>(size), acts[..n], tid, side));
    }
  }
}

/**
 The bounded multi-producer multi-consumer queue as a transition system.

 Shared state is the two tickets, the per-slot sequence numbers and the per-slot data; every
 thread has a program counter with its locals.  One action is one access to shared memory.
 Tickets are unbounded here; module MpmcWords relates them to machine words.
 */
module MpmcProtocol {
  import opened Prelude

  type Tid = nat

  /** Where a thread stands inside `enqueue` or `dequeue`, with the locals live at that point. */
  datatype Pc<V> =
    | Idle
    | EnqTicket(item: V)                // about to load head_seq_
    | EnqSeq(item: V, ticket: nat)      // about to load node->seq
    | EnqCas(item: V, ticket: nat)      // saw dif == 0, about to compare and exchange
    | EnqWrite(item: V, ticket: nat)    // won the ticket, about to write node->data
    | EnqPublish(item: V, ticket: nat)  // data written, about to store node->seq
    | DeqTicket                         // about to load tail_seq_
    | DeqSeq(ticket: nat)
    | DeqCas(ticket: nat)
    | DeqRead(ticket: nat)              // won the ticket, about to read node->data
    | DeqRelease(ticket: nat, item: V)  // data read, about to store node->seq

  datatype State<V> = State(
    size: nat,
    head: nat,
    tail: nat,
    seqs: seq<nat>,
    data: seq<Option<V>>,    // None: never written
    pcs: map<Tid, Pc<V>>,    // a thread that is absent is idle
    won: seq<V>,             // history: won[t] is the item of the enqueue that won ticket t
    taken: map<nat, V>       // history: taken[t] is what the dequeue that won ticket t returned
  )

  datatype Action<V> =
    | BeginEnqueue(tid: Tid, item: V)
    | BeginDequeue(tid: Tid)
    | LoadTicket(tid: Tid, seen: nat)
    | LoadSeq(tid: Tid)
    | Cas(tid: Tid, spurious: bool, seen: nat)
    | Access(tid: Tid)
    | Store(tid: Tid)

  ghost predicate Wf<V>(s: State<V>) {
    0 < s.size == |s.seqs| == |s.data|
  }

  /** What the constructor leaves behind. */
  function Init<V>(size: nat): State<V> {
    State(size, 0, 0, seq(size, i => i), seq(size, i => None), map[], [], map[])
  }

  /** The slot a ticket uses: `ticket & mask_`, with mask_ = size - 1 and size a power of two. */
  function Slot(ticket: nat, size: nat): (i: nat)
    requires size > 0
    ensures i < size
  {
    ticket % size
  }

  function PcOf<V>(s: State<V>, tid: Tid): Pc<V> {
    if tid in s.pcs then s.pcs[tid] else Idle
  }

  function Goto<V>(s: State<V>, tid: Tid, pc: Pc<V>): State<V> {
    s.(pcs := s.pcs[tid := pc])
  }

  /**
   One atomic step, or None when the action is not enabled.  A relaxed ticket load, and the load
   a failed compare-exchange performs, may see any value up to the current one.
   */
  function Step<V>(s: State<V>, a: Action<V>): (r: Option<State<V>>)
    requires Wf(s)
    ensures r.Some? ==> Wf(r.value) && r.value.size == s.size
  {
    var pc := PcOf(s, a.tid);
    match a
    case BeginEnqueue(tid, item) =>
      if pc.Idle? then Some(Goto(s, tid, EnqTicket(item))) else None
    case BeginDequeue(tid) =>
      if pc.Idle? then Some(Goto(s, tid, DeqTicket)) else None
    case LoadTicket(tid, seen) =>
      if pc.EnqTicket? && seen <= s.head then Some(Goto(s, tid, EnqSeq(pc.item, seen)))
      else if pc.DeqTicket? && seen <= s.tail then Some(Goto(s, tid, DeqSeq(seen)))
      else None
    case LoadSeq(tid) =>
      if pc.EnqSeq? then
        var dif := s.seqs[Slot(pc.ticket, s.size)] - pc.ticket;
        Some(Goto(s, tid, if dif == 0 then EnqCas(pc.item, pc.ticket)
                          else if dif < 0 then Idle          // return false
                          else EnqTicket(pc.item)))
      else if pc.DeqSeq? then
        var dif := s.seqs[Slot(pc.ticket, s.size)] - (pc.ticket + 1);
        Some(Goto(s, tid, if dif == 0 then DeqCas(pc.ticket)
                          else if dif < 0 then Idle          // return false
                          else DeqTicket))
      else None
    case Cas(tid, spurious, seen) =>
      if pc.EnqCas? then
        if s.head == pc.ticket && !spurious then
          Some(Goto(s, tid, EnqWrite(pc.item, pc.ticket)).(head := s.head + 1, won := s.won + [pc.item]))
        else if seen <= s.head then Some(Goto(s, tid, EnqSeq(pc.item, seen)))
        else None
      else if pc.DeqCas? then
        if s.tail == pc.ticket && !spurious then
          Some(Goto(s, tid, DeqRead(pc.ticket)).(tail := s.tail + 1))
        else if seen <= s.tail then Some(Goto(s, tid, DeqSeq(seen)))
        else None
      else None
    case Access(tid) =>
      if pc.EnqWrite? then
        Some(Goto(s, tid, EnqPublish(pc.item, pc.ticket)).(data := s.data[Slot(pc.ticket, s.size) := Some(pc.item)]))
      else if pc.DeqRead? && s.data[Slot(pc.ticket, s.size)].Some? then
        Some(Goto(s, tid, DeqRelease(pc.ticket, s.data[Slot(pc.ticket, s.size)].value)))
      else None
    case Store(tid) =>
      if pc.EnqPublish? then
        Some(Goto(s, tid, Idle).(seqs := s.seqs[Slot(pc.ticket, s.size) := pc.ticket + 1]))
      else if pc.DeqRelease? then
        Some(Goto(s, tid, Idle).(
             seqs := s.seqs[Slot(pc.ticket, s.size) := pc.ticket + s.size],
             taken := s.taken[pc.ticket := pc.item]))
      else None
  }

  /** A whole run: the given interleaving from the given state, if every action is enabled in turn. */
  function Run<V>(s: State<V>, acts: seq<Action<V>>): (r: Option<State<V>>)
    requires Wf(s)
    ensures r.Some? ==> Wf(r.value) && r.value.size == s.size
    decreases |acts|
  {
    if acts == [] then Some(s)
    else
      var m := Run(s, acts[..|acts| - 1]);
      if m.None? then None else Step(m.value, acts[|acts| - 1])
  }

  // ---------------------------------------------------------------------------------------------
  // The inductive invariant
  // ---------------------------------------------------------------------------------------------

  /** The thread has won enqueue ticket t and not yet published it. */
  predicate HoldsEnq<V>(p: Pc<V>, t: nat) {
    (p.EnqWrite? || p.EnqPublish?) && p.ticket == t
  }

  /** The thread has won dequeue ticket t and not yet released it. */
  predicate HoldsDeq<V>(p: Pc<V>, t: nat) {
    (p.DeqRead? || p.DeqRelease?) && p.ticket == t
  }

  predicate Owns<V>(p: Pc<V>) {
    p.EnqWrite? || p.EnqPublish? || p.DeqRead? || p.DeqRelease?
  }

  ghost predicate SomeEnqueuer<V>(s: State<V>, t: nat) {
    exists a: Tid :: a in s.pcs && HoldsEnq(s.pcs[a], t)
  }

  ghost predicate SomeDequeuer<V>(s: State<V>, t: nat) {
    exists a: Tid :: a in s.pcs && HoldsDeq(s.pcs[a], t)
  }

  /** Slot i waits for the enqueue of ticket q. */
  ghost predicate FreeFor<V>(s: State<V>, i: nat, q: nat)
    requires Wf(s)
  {
    && Slot(q, s.size) == i
    && s.tail <= q < s.tail + s.size
    && (q < s.head ==> SomeEnqueuer(s, q))
  }

  /** Slot i holds the item of ticket t. */
  ghost predicate FilledBy<V>(s: State<V>, i: nat, t: nat)
    requires Wf(s) && i < s.size
  {
    && Slot(t, s.size) == i
    && t < s.head <= t + s.size
    && t < |s.won| && s.data[i] == Some(s.won[t])
    && (t < s.tail ==> SomeDequeuer(s, t))
  }

  ghost predicate SlotOk<V>(s: State<V>, i: nat)
    requires Wf(s) && i < s.size
  {
    var q := s.seqs[i];
    FreeFor(s, i, q) || (q > 0 && FilledBy(s, i, q - 1))
  }

  ghost predicate PcOk<V>(s: State<V>, p: Pc<V>)
    requires Wf(s) && |s.won| == s.head
  {
    match p
    case EnqSeq(_, h) => h <= s.head
    case EnqCas(_, h) => h <= s.head && h <= s.seqs[Slot(h, s.size)]
    case EnqWrite(v, h) => s.tail <= h < s.head && s.seqs[Slot(h, s.size)] == h && s.won[h] == v
    case EnqPublish(v, h) =>
      && s.tail <= h < s.head && s.seqs[Slot(h, s.size)] == h && s.won[h] == v
      && s.data[Slot(h, s.size)] == Some(v)
    case DeqSeq(t) => t <= s.tail
    case DeqCas(t) => t <= s.tail && t + 1 <= s.seqs[Slot(t, s.size)]
    case DeqRead(t) =>
      && t < s.tail <= s.head <= t + s.size && s.seqs[Slot(t, s.size)] == t + 1
      && s.data[Slot(t, s.size)] == Some(s.won[t])
    case DeqRelease(t, v) =>
      t < s.tail <= s.head <= t + s.size && s.seqs[Slot(t, s.size)] == t + 1 && v == s.won[t]
    case _ => true
  }

  predicate SameTicket<V>(p: Pc<V>, q: Pc<V>) {
    || ((p.EnqWrite? || p.EnqPublish?) && (q.EnqWrite? || q.EnqPublish?) && p.ticket == q.ticket)
    || ((p.DeqRead? || p.DeqRelease?) && (q.DeqRead? || q.DeqRelease?) && p.ticket == q.ticket)
  }

  ghost predicate SlotsOk<V>(s: State<V>)
    requires Wf(s)
  {
    forall i: nat | i < s.size :: SlotOk(s, i)
  }

  ghost predicate PcsOk<V>(s: State<V>)
    requires Wf(s) && |s.won| == s.head
  {
    forall a | a in s.pcs :: PcOk(s, s.pcs[a])
  }

  ghost predicate TicketsUnique<V>(s: State<V>) {
    forall a, b | a in s.pcs && b in s.pcs && a != b :: !SameTicket(s.pcs[a], s.pcs[b])
  }

  /** Returned items are the won ones, and every won dequeue ticket has returned or is in flight. */
  ghost predicate TakenOk<V>(s: State<V>) {
    && (forall t | t in s.taken :: t < s.tail && t < |s.won| && s.taken[t] == s.won[t])
    && (forall t: nat | t < s.tail :: t in s.taken || SomeDequeuer(s, t))
  }

  ghost predicate Inv<V>(s: State<V>) {
    && Wf(s) && 2 <= s.size
    && s.tail <= s.head <= s.tail + s.size
    && |s.won| == s.head
    && SlotsOk(s) && PcsOk(s) && TicketsUnique(s) && TakenOk(s)
  }

  // The arithmetic of slots: everything the proofs need to know about the remainder.

  /** Two different tickets of one slot are at least a lap apart. */
  lemma SlotApart(a: nat, b: nat, n: nat)
    requires n > 0 && Slot(a, n) == Slot(b, n) && a < b
    ensures a + n <= b
  {
    var k := b / n - a / n;
    assert b - a == n * k;
    assert k > 0;
    assert n * k >= n;
  }

  /** A ticket one lap later uses the same slot. */
  lemma FullLap(t: nat, n: nat)
    requires n > 0
    ensures Slot(t + n, n) == Slot(t, n)
  {
    var d := (t + n) / n - t / n - 1;
    assert n * d == t % n - (t + n) % n;
    SmallMultiple(n, d);
  }

  lemma SmallMultiple(n: int, d: int)
    requires n > 0 && -n < n * d < n
    ensures d == 0
  {
    assert d >= 1 ==> n * d >= n;
    assert d <= -1 ==> n * d <= -n;
  }

  /** Neighbouring tickets use different slots; this is where size 1 breaks the protocol. */
  lemma NextSlotDiffers(t: nat, n: nat)
    requires n >= 2
    ensures Slot(t + 1, n) != Slot(t, n)
  {
    if Slot(t + 1, n) == Slot(t, n) {
      SlotApart(t, t + 1, n);
    }
  }
}

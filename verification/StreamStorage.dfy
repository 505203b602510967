/**
 The stream-id allocator: a stack of free ids in an array, a bitmap of the allocated ones and a store
 of what each was allocated for.  Ids run over 1..max.
 */
module StreamStorage {
  import opened Prelude

  /**
   `taken` and `storage` have max cells as written, so that id max has none, and would need one
   more.  A cell of `storage` is None until something is stored in it.
   */
  datatype Streams<T> = Streams(max: nat, index: nat, available: seq<int>, taken: seq<bool>, storage: seq<Option<T>>)

  /** The constructor, given the number of cells. */
  function Init<T>(max: nat, cells: nat): Streams<T> {
    Streams(max, 0, seq(max, i => i + 1), seq(cells, _ => false), seq(cells, _ => None))
  }

  datatype SetResult<T> = NoStreams | SetOutside | Given(id: int, after: Streams<T>)

  /** `set_stream`; SetOutside when it would write past the end of its arrays. */
  function Set<T>(s: Streams<T>, x: T): SetResult<T> {
    if s.index >= s.max then NoStreams
    else if s.index >= |s.available| then SetOutside
    else
      var id := s.available[s.index];
      if 0 <= id < |s.storage| && id < |s.taken|
      then Given(id, s.(index := s.index + 1, storage := s.storage[id := Some(x)], taken := s.taken[id := true]))
      else SetOutside
  }

  datatype GetResult<T> = NotAllocated(unset: Option<T>) | GetOutside | Found(value: Option<T>, after: Streams<T>)

  /** `get_stream`; the stored value comes out whether or not the id is allocated. */
  function Get<T>(s: Streams<T>, id: int, release: bool): GetResult<T> {
    if !(0 <= id < |s.storage|) then GetOutside
    else if !release then Found(s.storage[id], s)
    else if id >= |s.taken| then GetOutside
    else if !s.taken[id] then NotAllocated(s.storage[id])
    else if !(0 < s.index <= |s.available|) then GetOutside
    else Found(s.storage[id], s.(index := s.index - 1, available := s.available[s.index - 1 := id],
                                 taken := s.taken[id := false]))
  }

  function Available<T>(s: Streams<T>): int {
    s.max - s.index
  }

  // ---------------------------------------------------------------------------------------------
  // What the allocator stands for
  // ---------------------------------------------------------------------------------------------

  /** The ids whose flag is set. */
  function Marked(flags: seq<bool>): set<int> {
    set id | 0 <= id < |flags| && flags[id]
  }

  function LiveIds<T>(s: Streams<T>): set<int> {
    Marked(s.taken)
  }

  /** The free part of the stack. */
  function Free<T>(s: Streams<T>): seq<int>
    requires s.index <= |s.available|
  {
    s.available[s.index..]
  }

  predicate Distinct(xs: seq<int>) {
    forall i, j | 0 <= i < j < |xs| :: xs[i] != xs[j]
  }

  function Range(n: nat): (r: set<int>)
    ensures forall x :: x in r <==> 1 <= x <= n
    ensures |r| == n
  {
    if n == 0 then {} else
    var r := Range(n - 1);
    assert n !in r;
    r + {n as int}
  }

  predicate Stored<T>(s: Streams<T>) {
    |s.taken| == |s.storage| && forall id | id in LiveIds(s) :: s.storage[id].Some?
  }

  /**
   The free part of the stack lists each of the idle ids 1..max exactly once, and every live id has
   its value.  With a cell too few, id max is still at the bottom of the stack.
   */
  ghost predicate Good<T>(s: Streams<T>) {
    && 1 <= s.max == |s.available| && s.index <= s.max
    && (|s.taken| == s.max || |s.taken| == s.max + 1)
    && LiveIds(s) <= Range(s.max) && Stored(s)
    && ListsIdle(Free(s), s.max, LiveIds(s))
    && (|s.taken| == s.max ==> s.index < s.max && s.available[s.max - 1] == s.max)
  }

  /** The simple form: a partial map from ids to values. */
  function Live<T>(s: Streams<T>): map<int, T>
    requires Stored(s)
  {
    map id | id in LiveIds(s) :: s.storage[id].value
  }

  lemma InitGood<T>(max: nat, cells: nat)
    requires max >= 1 && (cells == max || cells == max + 1)
    ensures Good(Init<T>(max, cells)) && Live(Init<T>(max, cells)) == map[]
  {
    var s := Init<T>(max, cells);
    assert LiveIds(s) == {};
    forall id | 1 <= id <= max ensures id in Free(s) {
      assert Free(s)[id - 1] == id;
    }
  }

  lemma RemovedSize(all: set<int>, live: set<int>)
    requires live <= all
    ensures |all - live| == |all| - |live|
  {
    assert all == (all - live) + live;
  }

  /** The stack index counts the live ids; what is available is the rest. */
  lemma IndexCounts<T>(s: Streams<T>)
    requires Good(s)
    ensures |LiveIds(s)| == s.index && |Live(s)| == s.index && Available(s) == s.max - |Live(s)|
  {
    CardinalityOfDistinct(Free(s));
    RemovedSize(Range(s.max), LiveIds(s));
    assert Live(s).Keys == LiveIds(s);
  }

  lemma StackPops(xs: seq<int>)
    requires xs != [] && Distinct(xs)
    ensures Distinct(xs[1..]) && Elements(xs[1..]) == Elements(xs) - {xs[0]}
  {
    assert xs == [xs[0]] + xs[1..];
  }

  lemma StackPushes(xs: seq<int>, x: int)
    requires Distinct(xs) && x !in xs
    ensures Distinct([x] + xs) && Elements([x] + xs) == Elements(xs) + {x}
  {
  }

  lemma TakeOut(all: set<int>, live: set<int>, id: int)
    requires id in all
    ensures all - live - {id} == all - (live + {id})
  {
  }

  lemma PutBack(all: set<int>, live: set<int>, id: int)
    requires live <= all && id in live
    ensures all - live + {id} == all - (live - {id})
  {
  }

  lemma FlagSet(flags: seq<bool>, id: nat, on: bool)
    requires id < |flags|
    ensures Marked(flags[id := on]) == if on then Marked(flags) + {id} else Marked(flags) - {id}
  {
  }

  /**
   `set_stream` adds a fresh id to the map.  It reports no streams exactly when all max ids are live;
   with the arrays as written it never gets that far: it writes past their end exactly when max - 1
   ids are live.
   */
  lemma SetRefines<T>(s: Streams<T>, x: T)
    requires Good(s)
    ensures var r := Set(s, x);
            && (r.NoStreams? <==> |Live(s)| == s.max)
            && (r.SetOutside? <==> |s.taken| == s.max && |Live(s)| == s.max - 1)
            && (r.Given? ==> 1 <= r.id <= s.max && r.id !in Live(s)
                             && Good(r.after) && Live(r.after) == Live(s)[r.id := x])
  {
    SetFails(s, x);
    if Set(s, x).Given? {
      GivenGood(s, x);
      GivenLive(s, x);
    }
  }

  lemma SetFails<T>(s: Streams<T>, x: T)
    requires Good(s)
    ensures Set(s, x).NoStreams? <==> |Live(s)| == s.max
    ensures Set(s, x).SetOutside? <==> |s.taken| == s.max && |Live(s)| == s.max - 1
  {
    IndexCounts(s);
    if s.index < s.max {
      assert Free(s)[0] == s.available[s.index];
      assert s.available[s.index] in Elements(Free(s));
      if |s.taken| == s.max && s.index < s.max - 1 {
        assert Free(s)[s.max - 1 - s.index] == s.max;
      }
    }
  }

  /** The free part lists each idle id once. */
  ghost predicate ListsIdle(free: seq<int>, max: nat, live: set<int>) {
    Distinct(free) && Elements(free) == Range(max) - live
  }

  lemma PoppedIdle(free: seq<int>, max: nat, live: set<int>)
    requires ListsIdle(free, max, live) && free != []
    ensures free[0] in Range(max) && free[0] !in live && ListsIdle(free[1..], max, live + {free[0]})
  {
    StackPops(free);
    assert free[0] in Elements(free);
    TakeOut(Range(max), live, free[0]);
  }

  lemma PushedIdle(free: seq<int>, max: nat, live: set<int>, id: int)
    requires ListsIdle(free, max, live) && live <= Range(max) && id in live
    ensures ListsIdle([id] + free, max, live - {id})
  {
    assert id !in Elements(free);
    StackPushes(free, id);
    PutBack(Range(max), live, id);
  }

  lemma GivenIdle<T>(s: Streams<T>, x: T)
    requires Good(s) && Set(s, x).Given?
    ensures var r := Set(s, x);
            && r.id in Range(s.max) && r.id !in LiveIds(s) && LiveIds(r.after) == LiveIds(s) + {r.id}
            && ListsIdle(Free(r.after), s.max, LiveIds(s) + {r.id})
  {
    var id, t := s.available[s.index], Set(s, x).after;
    assert Free(s)[0] == id && Free(t) == Free(s)[1..];
    PoppedIdle(Free(s), s.max, LiveIds(s));
    FlagSet(s.taken, id, true);
  }

  lemma GivenGood<T>(s: Streams<T>, x: T)
    requires Good(s) && Set(s, x).Given?
    ensures var r := Set(s, x); 1 <= r.id <= s.max && r.id !in Live(s) && Good(r.after)
  {
    GivenIdle(s, x);
    if |s.taken| == s.max { assert s.index != s.max - 1; }
  }

  lemma GivenLive<T>(s: Streams<T>, x: T)
    requires Good(s) && Set(s, x).Given? && Good(Set(s, x).after)
    ensures Live(Set(s, x).after) == Live(s)[Set(s, x).id := x]
  {
    GivenIdle(s, x);
  }

  /**
   `get_stream` reads the map.  A release takes a live id out of it and fails, changing nothing, for
   any other; the index never goes below zero.
   */
  lemma GetRefines<T>(s: Streams<T>, id: int, release: bool)
    requires Good(s)
    ensures var r := Get(s, id, release);
            && (r.GetOutside? <==> !(0 <= id < |s.taken|))
            && (r.NotAllocated? <==> 0 <= id < |s.taken| && release && id !in Live(s))
            && (r.Found? && id in Live(s) ==> r.value == Some(Live(s)[id]))
            && (r.Found? && release ==> id in Live(s) && Good(r.after) && Live(r.after) == Live(s) - {id})
            && (r.Found? && !release ==> r.after == s)
  {
    if id in LiveIds(s) && release {
      IndexCounts(s);
      ReleasedGood(s, id);
    }
  }

  lemma ReleasedGood<T>(s: Streams<T>, id: int)
    requires Good(s) && id in LiveIds(s) && s.index > 0
    ensures var r := Get(s, id, true); r.Found? && Good(r.after) && Live(r.after) == Live(s) - {id}
  {
    var t := Get(s, id, true).after;
    assert Free(t) == [id] + Free(s);
    PushedIdle(Free(s), s.max, LiveIds(s), id);
    FlagSet(s.taken, id, false);
  }

  lemma ReleasedIds<T>(s: Streams<T>, id: int)
    requires Good(s) && id in LiveIds(s)
    ensures Get(s, id, true).Found? && LiveIds(Get(s, id, true).after) == LiveIds(s) - {id}
  {
    IndexCounts(s);
    FlagSet(s.taken, id, false);
  }

  // ---------------------------------------------------------------------------------------------
  // How the two calls undo each other
  // ---------------------------------------------------------------------------------------------

  /** Releasing what was just allocated brings everything back but the stored value. */
  lemma ReleaseUndoesSet<T>(s: Streams<T>, x: T)
    requires Good(s) && Set(s, x).Given?
    ensures var r := Set(s, x);
            Get(r.after, r.id, true) == Found(Some(x), s.(storage := s.storage[r.id := Some(x)]))
  {
    GivenIdle(s, x);
    ReleaseRestores(s, x);
  }

  lemma ReleaseRestores<T>(s: Streams<T>, x: T)
    requires Set(s, x).Given? && Set(s, x).id !in LiveIds(s)
    ensures var r := Set(s, x);
            Get(r.after, r.id, true) == Found(Some(x), s.(storage := s.storage[r.id := Some(x)]))
  {
    var id := Set(s, x).id;
    assert s.available[s.index := id] == s.available;
    assert s.taken[id := true][id := false] == s.taken;
  }

  /** The id released last is the next to be allocated. */
  lemma SetTakesLastReleased<T>(s: Streams<T>, id: int, x: T)
    requires Good(s) && id in LiveIds(s)
    ensures Get(s, id, true).Found?
    ensures var r := Set(Get(s, id, true).after, x);
            && r.Given? && r.id == id && r.after.index == s.index
            && r.after.taken == s.taken && r.after.storage == s.storage[id := Some(x)]
  {
    IndexCounts(s);
    assert s.taken[id := false][id := true] == s.taken;
  }

  /** A released id still reads as what it was allocated for, and cannot be released again. */
  lemma ReleasedStillReads<T>(s: Streams<T>, id: int)
    requires Good(s) && id in LiveIds(s)
    ensures Get(s, id, true).Found?
    ensures var t := Get(s, id, true).after;
            && Get(t, id, false) == Found(Some(Live(s)[id]), t)
            && Get(t, id, true) == NotAllocated(Some(Live(s)[id]))
  {
    IndexCounts(s);
  }

  /** The ids not yet allocated are in their first order. */
  predicate Untouched<T>(s: Streams<T>) {
    s.index <= |s.available| && forall k | s.index <= k < |s.available| :: s.available[k] == k + 1
  }

  lemma NextIsNext<T>(s: Streams<T>, x: T)
    requires Good(s) && Untouched(s) && LiveIds(s) == Range(s.index) && Set(s, x).Given?
    ensures var r := Set(s, x); r.id == s.index + 1 && Untouched(r.after) && LiveIds(r.after) == Range(r.after.index)
  {
    GivenIdle(s, x);
  }

  // ---------------------------------------------------------------------------------------------
  // Whole runs
  // ---------------------------------------------------------------------------------------------

  datatype Op<T> = SetOp(input: T) | GetOp(id: int, release: bool)

  /** One call; the state stays as it is when the call fails, and there is none after an access outside. */
  function Step<T>(s: Streams<T>, op: Op<T>): Option<Streams<T>> {
    match op
    case SetOp(x) =>
      (match Set(s, x)
       case Given(_, t) => Some(t)
       case NoStreams => Some(s)
       case SetOutside => None)
    case GetOp(id, release) =>
      (match Get(s, id, release)
       case Found(_, t) => Some(t)
       case NotAllocated(_) => Some(s)
       case GetOutside => None)
  }

  /** A run of calls; None after an access outside. */
  function Run<T>(s: Streams<T>, ops: seq<Op<T>>): Option<Streams<T>>
    decreases |ops|
  {
    if ops == [] then Some(s)
    else if Step(s, ops[0]).None? then None
    else Run(Step(s, ops[0]).value, ops[1..])
  }

  lemma StepGood<T>(s: Streams<T>, op: Op<T>)
    requires Good(s) && Step(s, op).Some?
    ensures var t := Step(s, op).value; Good(t) && t.max == s.max && |t.taken| == |s.taken|
  {
    match op
    case SetOp(x) => SetRefines(s, x);
    case GetOp(id, release) => GetRefines(s, id, release);
  }

  /** In every reachable state the allocator is good, so every call does what it does to the map. */
  lemma {:induction false} AlwaysGood<T>(s: Streams<T>, ops: seq<Op<T>>)
    requires Good(s) && Run(s, ops).Some?
    ensures var t := Run(s, ops).value; Good(t) && t.max == s.max && |t.taken| == |s.taken|
    decreases |ops|
  {
    if ops != [] {
      StepGood(s, ops[0]);
      AlwaysGood(Step(s, ops[0]).value, ops[1..]);
    }
  }

  // ---------------------------------------------------------------------------------------------
  // As written, against one cell more
  // ---------------------------------------------------------------------------------------------

  /** The id looked up, if one is, has a cell when there are max + 1 of them. */
  predicate IdInRange<T>(max: nat, op: Op<T>) {
    op.GetOp? ==> 0 <= op.id <= max
  }

  /** With max + 1 cells a run stays inside its arrays exactly when every id looked up is in 0..max. */
  lemma {:induction false} EnoughCellsIff<T>(s: Streams<T>, ops: seq<Op<T>>)
    requires Good(s) && |s.taken| == s.max + 1
    ensures Run(s, ops).Some? <==> forall i | 0 <= i < |ops| :: IdInRange(s.max, ops[i])
    decreases |ops|
  {
    if ops != [] {
      OutsideIff(s, ops[0]);
      if Step(s, ops[0]).Some? {
        StepGood(s, ops[0]);
        EnoughCellsIff(Step(s, ops[0]).value, ops[1..]);
        assert forall i | 0 <= i < |ops| - 1 :: ops[1..][i] == ops[i + 1];
        assert forall i | 0 < i < |ops| :: ops[i] == ops[1..][i - 1];
      }
    }
  }

  /** What a caller must see to before a call, the arrays being as written. */
  predicate Roomy<T>(s: Streams<T>, op: Op<T>) {
    match op
    case SetOp(_) => Available(s) != 1
    case GetOp(id, _) => 0 <= id < s.max
  }

  /** One call stays inside its arrays exactly on these conditions. */
  lemma OutsideIff<T>(s: Streams<T>, op: Op<T>)
    requires Good(s)
    ensures |s.taken| == s.max + 1 ==> (Step(s, op).Some? <==> IdInRange(s.max, op))
    ensures |s.taken| == s.max ==> (Step(s, op).Some? <==> Roomy(s, op))
  {
    IndexCounts(s);
    match op
    case SetOp(x) => SetFails(s, x);
    case GetOp(id, release) => GetRefines(s, id, release);
  }

  /** w has a cell less than s and otherwise agrees with it; the missing cell is idle. */
  ghost predicate Agree<T>(s: Streams<T>, w: Streams<T>) {
    && w.max == s.max && w.index == s.index && w.available == s.available
    && |s.taken| == |s.storage| == s.max + 1 && !s.taken[s.max]
    && w.taken == s.taken[..s.max] && w.storage == s.storage[..s.max]
  }

  lemma SetAgrees<T>(s: Streams<T>, w: Streams<T>, x: T)
    requires Agree(s, w) && !Set(w, x).SetOutside?
    ensures match Set(w, x)
            case Given(id, after) => Set(s, x).Given? && Set(s, x).id == id && Agree(Set(s, x).after, after)
            case _ => Set(s, x).NoStreams?
  {
    if Set(w, x).Given? {
      var id := Set(w, x).id;
      assert w.taken[id := true] == s.taken[id := true][..s.max];
      assert w.storage[id := Some(x)] == s.storage[id := Some(x)][..s.max];
    }
  }

  lemma GetAgrees<T>(s: Streams<T>, w: Streams<T>, id: int, release: bool)
    requires Agree(s, w) && !Get(w, id, release).GetOutside?
    ensures match Get(w, id, release)
            case Found(x, after) =>
              var r := Get(s, id, release); r.Found? && r.value == x && Agree(r.after, after)
            case _ => Get(s, id, release) == Get(w, id, release)
  {
    if Get(w, id, release).Found? && release {
      assert w.taken[id := false] == s.taken[id := false][..s.max];
    }
  }

  lemma StepAgrees<T>(s: Streams<T>, w: Streams<T>, op: Op<T>)
    requires Agree(s, w) && Step(w, op).Some?
    ensures Step(s, op).Some? && Agree(Step(s, op).value, Step(w, op).value)
  {
    match op
    case SetOp(x) => SetAgrees(s, w, x);
    case GetOp(id, release) => GetAgrees(s, w, id, release);
  }

  /** Along the run of s no allocation finds just one id left, and every id looked up is in 0..max - 1. */
  predicate StaysRoomy<T>(s: Streams<T>, ops: seq<Op<T>>)
    decreases |ops|
  {
    ops == [] || (Roomy(s, ops[0]) && Step(s, ops[0]).Some? && StaysRoomy(Step(s, ops[0]).value, ops[1..]))
  }

  lemma {:induction false} RunAgreesIff<T>(s: Streams<T>, w: Streams<T>, ops: seq<Op<T>>)
    requires Good(s) && Good(w) && Agree(s, w)
    ensures Run(w, ops).Some? <==> StaysRoomy(s, ops)
    ensures Run(w, ops).Some? ==> Run(s, ops).Some? && Agree(Run(s, ops).value, Run(w, ops).value)
    decreases |ops|
  {
    if ops != [] {
      OutsideIff(w, ops[0]);
      if Step(w, ops[0]).Some? {
        StepAgrees(s, w, ops[0]);
        StepGood(w, ops[0]);
        StepGood(s, ops[0]);
        RunAgreesIff(Step(s, ops[0]).value, Step(w, ops[0]).value, ops[1..]);
      }
    }
  }

  /**
   The allocator as written goes through a run as one with a cell more does, in the states of that one
   but for the idle last cell, if and only if along that run no id is allocated when just one is left
   and none but 0..max - 1 is looked up.
   */
  lemma AsWrittenIff<T>(max: nat, ops: seq<Op<T>>)
    requires max >= 1
    ensures var s, w := Init<T>(max, max + 1), Init<T>(max, max);
            && (Run(w, ops).Some? <==> StaysRoomy(s, ops))
            && (Run(w, ops).Some? ==> Run(s, ops).Some? && Agree(Run(s, ops).value, Run(w, ops).value))
  {
    var s, w := Init<T>(max, max + 1), Init<T>(max, max);
    InitGood<T>(max, max);
    InitGood<T>(max, max + 1);
    assert w.taken == s.taken[..max] && w.storage == s.storage[..max];
    RunAgreesIff(s, w, ops);
  }

  function Sets<T>(x: T, n: nat): seq<Op<T>> {
    if n == 0 then [] else [SetOp(x)] + Sets(x, n - 1)
  }

  lemma RunSets<T>(s: Streams<T>, x: T, n: nat)
    requires n > 0
    ensures Run(s, Sets(x, n))
         == if Step(s, SetOp(x)).None? then None else Run(Step(s, SetOp(x)).value, Sets(x, n - 1))
  {
    assert Sets(x, n)[0] == SetOp(x) && Sets(x, n)[1..] == Sets(x, n - 1);
  }

  lemma {:induction false} Filling<T>(s: Streams<T>, x: T, n: nat)
    requires Good(s)
    ensures |s.taken| == s.max + 1 ==> Run(s, Sets(x, n)).Some?
    ensures |s.taken| == s.max ==> (Run(s, Sets(x, n)).Some? <==> n < Available(s))
    decreases n
  {
    if n > 0 {
      RunSets(s, x, n);
      OutsideIff(s, SetOp(x));
      if Step(s, SetOp(x)).Some? {
        StepGood(s, SetOp(x));
        Filling(Step(s, SetOp(x)).value, x, n - 1);
      }
    }
  }

  /** Nothing was ever released. */
  ghost predicate InOrder<T>(s: Streams<T>) {
    Good(s) && Untouched(s) && LiveIds(s) == Range(s.index)
  }

  lemma OneInOrder<T>(s: Streams<T>, x: T) returns (t: Streams<T>)
    requires InOrder(s) && 1 < Available(s)
    ensures Step(s, SetOp(x)) == Some(t) && InOrder(t)
    ensures t.index == s.index + 1 && t.max == s.max
  {
    t := Set(s, x).after;
    IndexCounts(s);
    SetFails(s, x);
    GivenGood(s, x);
    NextIsNext(s, x);
  }

  /** n allocations keep what each of them keeps. */
  lemma {:induction false} EachKeeps<T>(keeps: Streams<T> -> bool, s: Streams<T>, x: T, n: nat)
    requires forall t | keeps(t) && 1 < Available(t) ::
               Step(t, SetOp(x)).Some? && keeps(Step(t, SetOp(x)).value) && Step(t, SetOp(x)).value.index == t.index + 1
               && Step(t, SetOp(x)).value.max == t.max
    requires keeps(s) && n < Available(s)
    ensures var r := Run(s, Sets(x, n)); r.Some? && keeps(r.value) && r.value.index == s.index + n
    decreases n
  {
    if n > 0 {
      RunSets(s, x, n);
      EachKeeps(keeps, Step(s, SetOp(x)).value, x, n - 1);
    }
  }

  /** The first ids come in order: after n allocations on a new allocator 1..n are live. */
  lemma FirstInOrder<T(!new)>(max: nat, cells: nat, x: T, n: nat)
    requires n < max && (cells == max || cells == max + 1)
    ensures var r := Run(Init<T>(max, cells), Sets(x, n)); r.Some? && LiveIds(r.value) == Range(n)
  {
    var s := Init<T>(max, cells);
    InitGood<T>(max, cells);
    assert LiveIds(s) == Range(0);
    var keeps := (t: Streams<T>) => InOrder(t);
    forall t | keeps(t) && 1 < Available(t)
      ensures Step(t, SetOp(x)).Some? && keeps(Step(t, SetOp(x)).value)
              && Step(t, SetOp(x)).value.index == t.index + 1 && Step(t, SetOp(x)).value.max == t.max
    {
      var u := OneInOrder(t, x);
    }
    EachKeeps(keeps, s, x, n);
  }

  /** The client's 127 streams: looking up id 127 leaves the arrays as written; one more cell makes it harmless. */
  lemma LastStreamOverruns(release: bool)
    ensures Step(Init<int>(127, 127), GetOp(127, release)) == None
    ensures Step(Init<int>(127, 128), GetOp(127, release)) == Some(Init<int>(127, 128))
  {
  }

  /** So does allocating for the 127th time. */
  lemma LastAllocationOverruns()
    ensures Run(Init<int>(127, 127), Sets(7, 127)) == None && Run(Init<int>(127, 128), Sets(7, 127)).Some?
  {
    InitGood<int>(127, 127);
    InitGood<int>(127, 128);
    Filling(Init<int>(127, 127), 7, 127);
    Filling(Init<int>(127, 128), 7, 127);
  }

  // ---------------------------------------------------------------------------------------------
  // The object
  // ---------------------------------------------------------------------------------------------

  datatype SetReply = NoStreamsReply | OutsideReply | Id(id: int)

  datatype GetReply<T> = ReleasedReply(stale: Option<T>) | OutsideOfArrays | Request(value: Option<T>)

  class StreamStorage<T> {
    const max: nat
    var index: nat
    const available: array<int>
    const taken: array<bool>
    const storage: array<Option<T>>

    constructor (max: nat)
      requires max >= 1
      ensures this.max == max && Value() == Init(max, max) && Valid()
      ensures fresh(available) && fresh(taken) && fresh(storage)
    {
      this.max, index := max, 0;
      available := new int[max](_ => 0);
      taken := new bool[max](_ => false);
      storage := new Option<T>[max](_ => None);
      new;
      for i := 1 to max + 1
        invariant index == 0
        invariant forall k | 0 <= k < i - 1 :: available[k] == k + 1 && !taken[k]
        invariant forall k | 0 <= k < max :: storage[k] == None
      {
        available[i - 1] := i;
        taken[i - 1] := false;
      }
      assert available[..] == seq(max, i => i + 1);
      assert taken[..] == seq(max, _ => false);
      assert storage[..] == seq(max, _ => None);
      assert Value() == Init<T>(max, max);
      InitGood<T>(max, max);
    }

    ghost function Value(): Streams<T>
      reads this, available, taken, storage
    {
      Streams(max, index, available[..], taken[..], storage[..])
    }

    ghost predicate Valid()
      reads this, available, taken, storage
    {
      available.Length == max && Good(Value())
    }

    method SetStream(input: T) returns (r: SetReply)
      requires Valid()
      modifies this, available, taken, storage
      ensures Valid()
      ensures match Set(old(Value()), input)
              case NoStreams => r == NoStreamsReply && Value() == old(Value())
              case SetOutside => r == OutsideReply && Value() == old(Value())
              case Given(id, after) => r == Id(id) && Value() == after
    {
      ghost var s := Value();
      SetRefines(s, input);
      if index >= max { return NoStreamsReply; }
      var output := available[index];
      if !(0 <= output < storage.Length) { return OutsideReply; }
      index := index + 1;
      storage[output] := Some(input);
      taken[output] := true;
      r := Id(output);
      assert Value() == Set(s, input).after;
    }

    method GetStream(input: int, release: bool) returns (r: GetReply<T>)
      requires Valid()
      modifies this, available, taken, storage
      ensures Valid()
      ensures match Get(old(Value()), input, release)
              case GetOutside => r == OutsideOfArrays && Value() == old(Value())
              case NotAllocated(x) => r == ReleasedReply(x) && Value() == old(Value())
              case Found(x, after) => r == Request(x) && Value() == after
    {
      ghost var s := Value();
      GetRefines(s, input, release);
      if !(0 <= input < storage.Length) { return OutsideOfArrays; }
      var output := storage[input];
      if release {
        if taken[input] {
          index := index - 1;
          available[index] := input;
          taken[input] := false;
          assert Value() == Get(s, input, release).after;
        } else {
          return ReleasedReply(output);
        }
      }
      return Request(output);
    }

    method AvailableStreams() returns (n: nat)
      requires Valid()
      ensures n == max - |Live(Value())|
    {
      IndexCounts(Value());
      n := max - index;
    }
  }
}

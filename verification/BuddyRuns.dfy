/**
 Whole runs of the page allocator: any interleaving of alloc_pages, free_pages and
 memory_reserve. Execute makes the calls on an allocator, and what it goes through is a run.
 */
module BuddyRuns {
  import opened Bits
  import opened FreeLists
  import opened BuddyOps
  import opened Sequences
  import opened FrameAllocator

  datatype State = State(lists: Lists, live: Live)

  datatype Op = AllocOp(order: nat) | FreeOp(head: nat) | ReserveOp(from: nat, to: nat)

  ghost predicate Next(n: nat, s: State, op: Op, t: State)
  {
    match op
    case AllocOp(k) =>
      (match Alloc(s.lists, k)
       case OutOfMemory => t == s
       case Allocated(i, r) => t == State(r, s.live[i := k]))
    case FreeOp(i) =>
      i in s.live && |s.lists| == MAX_ORDER + 1 && s.live[i] <= MAX_ORDER
      && t == State(Merge(s.lists, n, i, s.live[i]), s.live - {i})
    case ReserveOp(from, to) => t == State(Reserve(s.lists, from, to), s.live)
  }

  ghost predicate Inv(n: nat, s: State)
  {
    Placed(s.lists, n) && NoBuddies(s.lists) && LivePlaced(n, s.lists, s.live)
  }

  ghost predicate Run(n: nat, states: seq<State>, ops: seq<Op>)
  {
    |states| == |ops| + 1 && forall i :: 0 <= i < |ops| ==> Next(n, states[i], ops[i], states[i + 1])
  }

  ghost function Reserved(n: nat, s: State): set<nat>
  {
    ReservedFrames(n, s.lists, s.live)
  }

  lemma FreeIsCovered(n: nat, ls: Lists, f: nat)
    requires Placed(ls, n)
    ensures f in FreeFrames(ls, n) <==> Covered(ls, f)
  {
    if Covered(ls, f) {
      var m: nat, j: nat :| InList(ls, m, j) && Inside(f, j, m);
    }
  }

  // One step keeps the invariant, and only memory_reserve takes frames out of circulation.
  lemma StepKeeps(n: nat, s: State, op: Op, t: State)
    requires Inv(n, s) && Next(n, s, op, t)
    ensures Inv(n, t)
    ensures !op.ReserveOp? ==> Reserved(n, t) == Reserved(n, s)
    ensures op.ReserveOp? ==> forall f: nat :: f < n ==>
              (f in Reserved(n, t) <==> f in Reserved(n, s) || (op.from <= f < op.to && Covered(s.lists, f)))
  {
    match op
    case AllocOp(k) =>
      if k <= MAX_ORDER {
        AllocCorrect(s.lists, n, k);
        if Alloc(s.lists, k).Allocated? {
          AllocLive(n, s.lists, s.live, k);
        }
      }
    case FreeOp(i) =>
      FreeLive(n, s.lists, s.live, i);
    case ReserveOp(from, to) =>
      ReserveCorrect(s.lists, n, from, to);
      forall f: nat
        ensures Covered(t.lists, f) <==> Covered(s.lists, f) && !(from <= f < to)
      {
        FreeIsCovered(n, s.lists, f);
        FreeIsCovered(n, t.lists, f);
      }
      LivePlacedByFrames(n, s.lists, t.lists, s.live);
      assert forall f: nat :: f < n && Covered(s.lists, f) ==> !LiveCovers(s.live, f) by {
        CoveredIsNotLive(n, s);
      }
  }

  lemma CoveredIsNotLive(n: nat, s: State)
    requires Inv(n, s)
    ensures forall f: nat :: Covered(s.lists, f) ==> !LiveCovers(s.live, f)
  {
    forall f: nat | LiveCovers(s.live, f)
      ensures !Covered(s.lists, f)
    {
      var i: nat :| i in s.live && Inside(f, i, s.live[i]);
      ApartIsUncovered(s.lists, i, s.live[i]);
    }
  }

  // Safety over whole runs: the invariant holds throughout, and a frame once reserved is
  // neither free nor part of any allocation ever after.
  lemma {:induction false} RunKeeps(n: nat, states: seq<State>, ops: seq<Op>, i: nat)
    requires Run(n, states, ops) && Inv(n, states[0]) && i <= |ops|
    ensures Inv(n, states[i]) && Reserved(n, states[0]) <= Reserved(n, states[i])
    ensures (forall j :: 0 <= j < i ==> !ops[j].ReserveOp?) ==> Reserved(n, states[i]) == Reserved(n, states[0])
  {
    if i > 0 {
      RunKeeps(n, states, ops, i - 1);
      StepKeeps(n, states[i - 1], ops[i - 1], states[i]);
    }
  }

  // Every frame is in exactly one of: a free block, a live block, the reserved set.
  lemma FramePartition(n: nat, s: State, f: nat)
    requires Inv(n, s) && f < n
    ensures Covered(s.lists, f) || LiveCovers(s.live, f) || f in Reserved(n, s)
    ensures !(Covered(s.lists, f) && LiveCovers(s.live, f))
    ensures f in Reserved(n, s) ==> !Covered(s.lists, f) && !LiveCovers(s.live, f)
    ensures forall i: nat, j: nat :: i in s.live && j in s.live && Inside(f, i, s.live[i]) && Inside(f, j, s.live[j]) ==> i == j
  {
    if LiveCovers(s.live, f) {
      var i: nat :| i in s.live && Inside(f, i, s.live[i]);
      ApartIsUncovered(s.lists, i, s.live[i]);
    }
  }

  // Reachable from s by allocating and freeing pages only.
  ghost predicate PageRun(n: nat, states: seq<State>, ops: seq<Op>, s: State, t: State)
  {
    && Run(n, states, ops) && states[0] == s && states[|ops|] == t
    && forall j :: 0 <= j < |ops| ==> !ops[j].ReserveOp?
  }

  // Freeing in whatever order what was allocated in whatever order restores the blocks:
  // two runs from one state that end with the same allocations end with the same blocks.
  lemma HistoryIndependence(n: nat, s: State, sa: seq<State>, oa: seq<Op>, a: State, sb: seq<State>, ob: seq<Op>, b: State, k: nat, i: nat)
    requires Inv(n, s) && PageRun(n, sa, oa, s, a) && PageRun(n, sb, ob, s, b)
    requires a.live == b.live
    ensures InList(a.lists, k, i) <==> InList(b.lists, k, i)
  {
    RunKeeps(n, sa, oa, |oa|);
    RunKeeps(n, sb, ob, |ob|);
    FreeFromReserved(n, a);
    FreeFromReserved(n, b);
    SameFramesSameBlocks(a.lists, b.lists, n, k, i);
  }

  lemma FreeFromReserved(n: nat, s: State)
    requires Inv(n, s)
    ensures FreeFrames(s.lists, n) == set f: nat | f < n && f !in Reserved(n, s) && !LiveCovers(s.live, f)
  {
    forall f: nat | f < n
      ensures f in FreeFrames(s.lists, n) <==> f !in Reserved(n, s) && !LiveCovers(s.live, f)
    {
      FramePartition(n, s, f);
    }
  }

  // In particular a run that gives back all it took returns to the blocks it began with.
  lemma FreeingAllRestores(n: nat, s: State, states: seq<State>, ops: seq<Op>, t: State, k: nat, i: nat)
    requires Inv(n, s) && PageRun(n, states, ops, s, t) && t.live == s.live
    ensures InList(t.lists, k, i) <==> InList(s.lists, k, i)
  {
    assert PageRun(n, [s], [], s, s);
    HistoryIndependence(n, s, states, ops, t, [s], [], s, k, i);
  }

  // ---------- the runs of the allocator ----------

  // which counts among the addresses that were returned and not yet freed; a caller that
  // holds fewer does nothing.
  datatype Call = AllocCall(order: nat) | FreeCall(which: nat) | ReserveCall(start: nat, size: nat)

  ghost function StateOf(a: Allocator): State
    reads a
  {
    State(a.lists, a.live)
  }

  // The operation that a call is.
  ghost predicate Matches(a: Allocator, call: Call, op: Op)
  {
    match call
    case AllocCall(order) => op == AllocOp(order)
    case FreeCall(_) => op.FreeOp?
    case ReserveCall(start, size) =>
      op.ReserveOp? && forall f: nat :: f < a.n ==> (op.from <= f < op.to <==> a.Touched(f, start, size))
  }

  // The operations of the calls, in order, but for those that did nothing.
  ghost predicate Carried(a: Allocator, calls: seq<Call>, ops: seq<Op>)
    decreases |calls|
  {
    if calls == [] then ops == []
    else
      var before, last := calls[..|calls| - 1], calls[|calls| - 1];
      || (last.FreeCall? && Carried(a, before, ops))
      || (ops != [] && Matches(a, last, ops[|ops| - 1]) && Carried(a, before, ops[..|ops| - 1]))
  }

  // A run from s to t that the calls carry out.
  ghost predicate Ran(a: Allocator, calls: seq<Call>, states: seq<State>, ops: seq<Op>, t: State)
  {
    true == (Run(a.n, states, ops) && states[|ops|] == t && Carried(a, calls, ops))
  }

  lemma RanOn(a: Allocator, calls: seq<Call>, states: seq<State>, ops: seq<Op>, s: State, call: Call, op: Op, t: State)
    requires Ran(a, calls, states, ops, s) && Matches(a, call, op) && Next(a.n, s, op, t)
    ensures Ran(a, calls + [call], states + [t], ops + [op], t) && (states + [t])[0] == states[0]
  {
    var cs, ss, os := calls + [call], states + [t], ops + [op];
    assert cs[..|calls|] == calls && os[..|ops|] == ops;
    forall i | 0 <= i < |os|
      ensures Next(a.n, ss[i], os[i], ss[i + 1])
    {
      assert i < |ops| ==> Next(a.n, states[i], ops[i], states[i + 1]);
    }
  }

  lemma RanIdle(a: Allocator, calls: seq<Call>, states: seq<State>, ops: seq<Op>, s: State, call: Call)
    requires Ran(a, calls, states, ops, s) && call.FreeCall?
    ensures Ran(a, calls + [call], states, ops, s)
  {
    assert (calls + [call])[..|calls|] == calls;
  }

  // The kernel address of the block at frame i.
  function Address(base: nat, i: nat): nat
  {
    base + i * PAGE_SIZE + KERNEL_VA_OFFSET
  }

  ghost predicate IsAddress(base: nat, live: Live, p: nat)
  {
    exists i: nat :: i in live && p == Address(base, i)
  }

  // The addresses held are those of live blocks, each once.
  ghost predicate Held(base: nat, live: Live, held: seq<nat>)
  {
    true == (NoDup(held) && forall p: nat :: p in held ==> IsAddress(base, live, p))
  }

  lemma HeldMore(base: nat, live: Live, held: seq<nat>, i: nat, k: nat, p: nat)
    requires Held(base, live, held) && i !in live && p == Address(base, i)
    ensures Held(base, live[i := k], held + [p])
  {
    var live' := live[i := k];
    assert i in live' && IsAddress(base, live', p);
    forall q: nat | q in held
      ensures IsAddress(base, live', q) && q != p
    {
      var j: nat :| j in live && q == Address(base, j);
      assert j in live';
    }
  }

  lemma HeldLess(base: nat, live: Live, held: seq<nat>, i: nat, p: nat)
    requires Held(base, live, held) && i in live && p == Address(base, i)
    ensures Held(base, live - {i}, Without(held, p))
  {
    WithoutElems(held, p);
    forall q: nat | q in Without(held, p)
      ensures IsAddress(base, live - {i}, q)
    {
      var j: nat :| j in live && q == Address(base, j);
      assert j in live - {i};
    }
  }

  lemma AddressIndex(a: Allocator, p: nat) returns (i: nat)
    requires a.Valid() && IsAddress(a.base, a.live, p)
    ensures a.IsFrameAddr(p) && i == a.FrameIndex(p) && i in a.live && p == Address(a.base, i)
  {
    i :| i in a.live && p == Address(a.base, i);
    assert i + Pow2(a.live[i]) <= a.n;
    AddressInRange(a, i, p);
  }

  lemma AddressInRange(a: Allocator, i: nat, p: nat)
    requires a.base % PAGE_SIZE == 0 && i < a.n && p == Address(a.base, i)
    ensures a.IsFrameAddr(p) && i == a.FrameIndex(p)
  {
    assert KernelPtrToPhys(p) == a.base + i * PAGE_SIZE;
  }

  method DoAlloc(a: Allocator, held: seq<nat>, order: nat) returns (now: seq<nat>)
    requires a.Valid() && Held(a.base, a.live, held)
    modifies a, a.pages
    ensures a.Valid() && Held(a.base, a.live, now)
    ensures Next(a.n, old(StateOf(a)), AllocOp(order), StateOf(a))
  {
    ghost var before, live := a.lists, a.live;
    var p := a.AllocPages(order);
    if p == 0 {
      return held;
    }
    HeldMore(a.base, live, held, Alloc(before, order).head, order, p);
    now := held + [p];
  }

  method DoFree(a: Allocator, held: seq<nat>, which: nat) returns (now: seq<nat>, ghost i: nat)
    requires a.Valid() && Held(a.base, a.live, held) && which < |held|
    modifies a, a.pages
    ensures a.Valid() && Held(a.base, a.live, now)
    ensures Next(a.n, old(StateOf(a)), FreeOp(i), StateOf(a))
  {
    var p := held[which];
    i := AddressIndex(a, p);
    ghost var live := a.live;
    a.FreePages(p);
    HeldLess(a.base, live, held, i, p);
    now := Without(held, p);
  }

  // The call, and the operation it was; none for a caller that holds too few.
  method DoCall(a: Allocator, held: seq<nat>, call: Call) returns (now: seq<nat>, ghost done: seq<Op>)
    requires a.Valid() && Held(a.base, a.live, held)
    modifies a, a.pages
    ensures a.Valid() && Held(a.base, a.live, now)
    ensures |done| <= 1 && (done == [] ==> call.FreeCall? && StateOf(a) == old(StateOf(a)))
    ensures done != [] ==> Matches(a, call, done[0]) && Next(a.n, old(StateOf(a)), done[0], StateOf(a))
  {
    now := held;
    match call
    case AllocCall(order) =>
      now := DoAlloc(a, held, order);
      done := [AllocOp(order)];
    case FreeCall(which) =>
      if which >= |held| {
        return held, [];
      }
      ghost var i;
      now, i := DoFree(a, held, which);
      done := [FreeOp(i)];
    case ReserveCall(start, size) =>
      ghost var from, to := a.MemoryReserve(start, size);
      done := [ReserveOp(from, to)];
  }

  // Any calls at all on an allocator are a run from its state before to its state after, so
  // what holds of runs holds of the allocator.
  method Execute(a: Allocator, calls: seq<Call>) returns (held: seq<nat>, ghost states: seq<State>, ghost ops: seq<Op>)
    requires a.Valid()
    modifies a, a.pages
    ensures a.Valid() && Held(a.base, a.live, held)
    ensures Run(a.n, states, ops) && Carried(a, calls, ops)
    ensures states[0] == old(StateOf(a)) && states[|ops|] == StateOf(a)
    ensures forall i :: 0 <= i <= |ops| ==> Inv(a.n, states[i])
    ensures Reserved(a.n, states[0]) <= Reserved(a.n, StateOf(a))
  {
    held, states, ops := [], [StateOf(a)], [];
    ghost var s := StateOf(a);
    for c := 0 to |calls|
      invariant a.Valid() && Held(a.base, a.live, held)
      invariant Ran(a, calls[..c], states, ops, StateOf(a)) && states[0] == s
    {
      ghost var t, done := StateOf(a), [];
      assert calls[..c + 1] == calls[..c] + [calls[c]];
      held, done := DoCall(a, held, calls[c]);
      if done == [] {
        RanIdle(a, calls[..c], states, ops, t, calls[c]);
      } else {
        RanOn(a, calls[..c], states, ops, t, calls[c], done[0], StateOf(a));
        states, ops := states + [StateOf(a)], ops + [done[0]];
      }
    }
    assert calls[..|calls|] == calls;
    forall i | 0 <= i <= |ops|
      ensures Inv(a.n, states[i])
    {
      RunKeeps(a.n, states, ops, i);
    }
    RunKeeps(a.n, states, ops, |ops|);
  }
}

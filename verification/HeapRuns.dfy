/**
 Whole runs of the allocators from mm_init on: whatever is allocated and freed, in whatever
 order, live allocations stay off each other and off everything the boot environment occupies.
 */
module HeapRuns {
  import opened Bits
  import opened Sequences
  import opened FreeLists
  import opened BuddyOps
  import opened FrameAllocator
  import opened ChunkHeap
  import opened Startup

  // ---------- what a live allocation meets ----------

  // The frames out of circulation are just those that hold a byte of the given ranges.
  ghost predicate KeepsOff(h: KernelHeap, rs: seq<Range>)
    reads h.fa
  {
    true == (forall f: nat :: f < h.fa.n ==>
               (f in ReservedFrames(h.fa.n, h.fa.lists, h.fa.live) <==> Occupied(h.fa.base, f, rs)))
  }

  // The bytes [a, a + len) are none of the range's, at their addresses in the linear map.
  predicate OffRange(a: nat, len: nat, r: Range)
  {
    r.size == 0 || a + len <= r.start + KERNEL_VA_OFFSET || r.start + r.size + KERNEL_VA_OFFSET <= a
  }

  lemma OffRanges(h: KernelHeap, rs: seq<Range>, a: nat, len: nat, r: Range)
    requires h.Valid() && KeepsOff(h, rs) && h.IsAllocation(a, len) && r in rs
    ensures OffRange(a, len, r)
  {
    if !OffRange(a, len, r) {
      var i := h.AllocationInLiveFrames(a, len);
      var x := if a <= r.start + KERNEL_VA_OFFSET then r.start + KERNEL_VA_OFFSET else a;
      var f: nat := (x - h.KBase()) / PAGE_SIZE;
      PageOf(h.KBase(), f, x);
      LiveByte(h, i, f, x);
      assert OccupiedBy(h.fa.base, f, r);
    }
  }

  // The frame of a byte of a live block is not out of circulation.
  lemma LiveByte(h: KernelHeap, i: nat, f: nat, x: nat)
    requires h.Valid() && i in h.fa.live && i + Pow2(h.fa.live[i]) <= h.fa.n
    requires h.KBase() + i * PAGE_SIZE <= x < h.KBase() + (i + Pow2(h.fa.live[i])) * PAGE_SIZE
    requires h.KBase() + f * PAGE_SIZE <= x < h.KBase() + f * PAGE_SIZE + PAGE_SIZE
    ensures f < h.fa.n && f !in ReservedFrames(h.fa.n, h.fa.lists, h.fa.live)
  {
    h.InOneFrame(i, Pow2(h.fa.live[i]), f, x);
    assert Inside(f, i, h.fa.live[i]);
  }

  // Live allocations are disjoint, and none meets a range.
  ghost predicate Safe(h: KernelHeap, rs: seq<Range>)
    reads h, h.fa
  {
    && (forall a: nat, len: nat, b: nat, len': nat :: h.IsAllocation(a, len) && h.IsAllocation(b, len') && a != b ==>
          a + len <= b || b + len' <= a)
    && (forall a: nat, len: nat, r: Range :: h.IsAllocation(a, len) && r in rs ==> OffRange(a, len, r))
  }

  lemma AlwaysSafe(h: KernelHeap, rs: seq<Range>)
    requires h.Valid() && KeepsOff(h, rs)
    ensures Safe(h, rs)
  {
    forall a: nat, len: nat, b: nat, len': nat | h.IsAllocation(a, len) && h.IsAllocation(b, len') && a != b
      ensures a + len <= b || b + len' <= a
    {
      h.AllocationsDisjoint(a, len, b, len');
    }
    forall a: nat, len: nat, r: Range | h.IsAllocation(a, len) && r in rs
      ensures OffRange(a, len, r)
    {
      OffRanges(h, rs, a, len, r);
    }
  }

  // ---------- what is live ----------

  // The live blocks, the pages that are cut into chunks, and the chunks handed out.
  datatype Hands = Hands(kbase: nat, live: Live, chunkPages: ChunkPages, chunks: map<nat, nat>)

  ghost function HandsOf(h: KernelHeap): Hands
    reads h, h.fa
  {
    Hands(h.KBase(), h.fa.live, h.chunkPages, h.liveChunks)
  }

  // A block of pages that was handed out whole.
  ghost predicate IsBlock(v: Hands, p: nat)
  {
    exists i: nat :: i in v.live && i !in v.chunkPages && p == v.kbase + i * PAGE_SIZE
  }

  ghost predicate IsLive(v: Hands, p: nat)
  {
    p in v.chunks || IsBlock(v, p)
  }

  // The allocation at p is [p, p + len).
  ghost predicate Spans(v: Hands, p: nat, len: nat)
  {
    || (p in v.chunks && v.chunks[p] < NUM_POOLS && len == POOL_SIZES[v.chunks[p]])
    || (exists i: nat :: i in v.live && i !in v.chunkPages && p == v.kbase + i * PAGE_SIZE && len == Pow2(v.live[i]) * PAGE_SIZE)
  }

  ghost predicate Settled(v: Hands)
  {
    ChunksPlaced(v.kbase, v.chunkPages, v.chunks)
  }

  // The pointers that were returned and not given back are, each once, the live allocations.
  ghost predicate Holding(v: Hands, held: seq<nat>, taken: seq<nat>)
  {
    true == (&& NoDup(held + taken)
             && (forall p: nat :: IsLive(v, p) <==> p in held + taken)
             && (forall p: nat :: p in taken ==> IsBlock(v, p)))
  }

  // What was live still is, as long as it was, and so is p, new, and nothing else.
  ghost predicate Gained(v: Hands, w: Hands, p: nat)
  {
    true == (&& !IsLive(v, p) && (forall q: nat :: IsLive(w, q) <==> IsLive(v, q) || q == p)
             && (forall q: nat :: IsBlock(v, q) ==> IsBlock(w, q))
             && (forall q: nat, len: nat :: Spans(v, q, len) ==> Spans(w, q, len)))
  }

  // p, and nothing else, is live no more; the others are as long as they were.
  ghost predicate Lost(v: Hands, w: Hands, p: nat)
  {
    true == ((forall q: nat :: IsLive(w, q) <==> IsLive(v, q) && q != p)
             && (forall q: nat :: IsBlock(v, q) && q != p ==> IsBlock(w, q))
             && (forall q: nat, len: nat :: Spans(v, q, len) && q != p ==> Spans(w, q, len)))
  }

  lemma BlockGained(v: Hands, w: Hands, i: nat, k: nat, p: nat)
    requires Settled(v) && i !in v.live && i !in v.chunkPages && w == v.(live := v.live[i := k])
    requires p == v.kbase + i * PAGE_SIZE
    ensures Gained(v, w, p) && IsBlock(w, p)
  {
    BlockIsNoChunk(v.kbase, v.chunkPages, v.chunks, i, p);
    assert i in w.live;
    forall q: nat
      ensures IsBlock(w, q) <==> IsBlock(v, q) || q == p
    {
      if IsBlock(v, q) {
        var j: nat :| j in v.live && j !in v.chunkPages && q == v.kbase + j * PAGE_SIZE;
        assert j in w.live;
      }
      if IsBlock(w, q) {
        var j: nat :| j in w.live && j !in w.chunkPages && q == w.kbase + j * PAGE_SIZE;
      }
    }
    assert !IsBlock(v, p);
    assert forall j: nat :: j in v.live ==> j in w.live && w.live[j] == v.live[j];
  }

  lemma BlockLost(v: Hands, w: Hands, i: nat, p: nat)
    requires Settled(v) && i in v.live && i !in v.chunkPages && w == v.(live := v.live - {i})
    requires p == v.kbase + i * PAGE_SIZE
    ensures Lost(v, w, p)
  {
    BlockIsNoChunk(v.kbase, v.chunkPages, v.chunks, i, p);
    forall q: nat
      ensures IsBlock(w, q) <==> IsBlock(v, q) && q != p
    {
      if IsBlock(v, q) && q != p {
        var j: nat :| j in v.live && j !in v.chunkPages && q == v.kbase + j * PAGE_SIZE;
        assert j in w.live;
      }
      if IsBlock(w, q) {
        var j: nat :| j in w.live && j !in w.chunkPages && q == w.kbase + j * PAGE_SIZE;
        assert j in v.live && j != i;
      }
    }
    assert forall j: nat :: j in v.live && j != i ==> j in w.live && w.live[j] == v.live[j];
  }

  // The live blocks that are not cut up are the same.
  ghost predicate SameBlocks(v: Hands, w: Hands)
  {
    true == (v.kbase == w.kbase
             && (forall i: nat :: i in w.live && i !in w.chunkPages <==> i in v.live && i !in v.chunkPages)
             && (forall i: nat :: i in v.live && i !in v.chunkPages ==> w.live[i] == v.live[i]))
  }

  lemma ChunkGained(v: Hands, w: Hands, p: nat, pool: nat)
    requires SameBlocks(v, w) && p !in v.chunks && w.chunks == v.chunks[p := pool] && Settled(w)
    ensures Gained(v, w, p)
  {
    SameBlocksSame(v, w);
    if IsBlock(w, p) {
      var i: nat :| i in w.live && i !in w.chunkPages && p == w.kbase + i * PAGE_SIZE;
      BlockIsNoChunk(w.kbase, w.chunkPages, w.chunks, i, p);
    }
  }

  lemma ChunkLost(v: Hands, w: Hands, p: nat)
    requires SameBlocks(v, w) && Settled(v) && p in v.chunks && w.chunks == v.chunks - {p}
    ensures Lost(v, w, p)
  {
    SameBlocksSame(v, w);
    if IsBlock(v, p) {
      var i: nat :| i in v.live && i !in v.chunkPages && p == v.kbase + i * PAGE_SIZE;
      BlockIsNoChunk(v.kbase, v.chunkPages, v.chunks, i, p);
    }
  }

  lemma SameBlocksSame(v: Hands, w: Hands)
    requires SameBlocks(v, w)
    ensures forall q: nat :: IsBlock(v, q) <==> IsBlock(w, q)
  {
    forall q: nat
      ensures IsBlock(v, q) <==> IsBlock(w, q)
    {
      if IsBlock(v, q) {
        var i: nat :| i in v.live && i !in v.chunkPages && q == v.kbase + i * PAGE_SIZE;
        assert i in w.live && i !in w.chunkPages;
      }
      if IsBlock(w, q) {
        var i: nat :| i in w.live && i !in w.chunkPages && q == w.kbase + i * PAGE_SIZE;
        assert i in v.live && i !in v.chunkPages;
      }
    }
  }

  // ---------- the pointers held ----------

  lemma HoldMore(v: Hands, w: Hands, held: seq<nat>, taken: seq<nat>, p: nat)
    requires Holding(v, held, taken) && Gained(v, w, p)
    ensures Holding(w, held + [p], taken)
    ensures IsBlock(w, p) ==> Holding(w, held, taken + [p])
  {
    assert p !in held + taken;
    InsertNoDup(held, taken, p);
  }

  lemma InsertNoDup(a: seq<nat>, b: seq<nat>, p: nat)
    requires NoDup(a + b) && p !in a + b
    ensures NoDup(a + [p] + b) && NoDup(a + (b + [p]))
    ensures forall q: nat :: q in a + [p] + b <==> q in a + b || q == p
    ensures forall q: nat :: q in a + (b + [p]) <==> q in a + b || q == p
  {
    var c, d := a + [p] + b, a + (b + [p]);
    assert forall i :: 0 <= i < |a + b| ==> (a + b)[i] == d[i] && (a + b)[i] == c[if i < |a| then i else i + 1];
    forall i, j | 0 <= i < j < |c|
      ensures c[i] != c[j]
    {
      assert i != |a| ==> c[i] == (a + b)[if i < |a| then i else i - 1];
      assert j != |a| ==> c[j] == (a + b)[if j < |a| then j else j - 1];
    }
  }

  lemma HoldLess(v: Hands, w: Hands, held: seq<nat>, taken: seq<nat>, p: nat)
    requires Holding(v, held, taken) && Lost(v, w, p)
    ensures p in held ==> Holding(w, Without(held, p), taken)
    ensures p in taken ==> Holding(w, held, Without(taken, p))
  {
    if p in held {
      DropNoDup(held, taken, p);
    }
    if p in taken {
      NoDupSwap(held, taken);
      DropNoDup(taken, held, p);
      NoDupSwap(Without(taken, p), held);
    }
  }

  lemma NoDupSwap(a: seq<nat>, b: seq<nat>)
    requires NoDup(a + b)
    ensures NoDup(b + a) && forall q: nat :: q in b + a <==> q in a + b
  {
    var c, d := a + b, b + a;
    forall i, j | 0 <= i < j < |d|
      ensures d[i] != d[j]
    {
      assert d[i] == c[if i < |b| then |a| + i else i - |b|];
      assert d[j] == c[if j < |b| then |a| + j else j - |b|];
    }
  }

  lemma DropNoDup(a: seq<nat>, b: seq<nat>, p: nat)
    requires NoDup(a + b) && p in a
    ensures NoDup(Without(a, p) + b) && p !in b && forall q: nat :: q in Without(a, p) ==> q in a && q != p
    ensures forall q: nat :: q in Without(a, p) + b <==> q in a + b && q != p
  {
    assert forall i :: 0 <= i < |a| ==> a[i] == (a + b)[i];
    assert forall i :: 0 <= i < |b| ==> b[i] == (a + b)[|a| + i];
    assert NoDup(a) && NoDup(b);
    WithoutElems(a, p);
    var c := Without(a, p) + b;
    forall i, j | 0 <= i < j < |c|
      ensures c[i] != c[j]
    {
      assert c[i] in a || c[i] in b;
      assert i < |c| - |b| ==> c[i] in Without(a, p);
      assert j < |c| - |b| ==> c[j] in Without(a, p);
    }
  }

  lemma ValidPlaces(h: KernelHeap)
    requires h.Valid()
    ensures Settled(HandsOf(h))
    ensures forall i: nat :: i in h.fa.live ==> i < h.fa.n
  {
    assert forall i: nat :: i in h.fa.live ==> Pow2(h.fa.live[i]) > 0;
  }

  lemma FrameOf(h: KernelHeap, i: nat, p: nat)
    requires i < h.fa.n && p == h.KBase() + i * PAGE_SIZE
    ensures h.fa.InManagedRange(KernelPtrToPhys(p)) && h.fa.FrameIndex(p) == i
  {
    assert KernelPtrToPhys(p) == h.fa.base + i * PAGE_SIZE;
  }

  lemma FrameAligned(h: KernelHeap, i: nat, p: nat)
    requires h.fa.base % PAGE_SIZE == 0 && p == h.KBase() + i * PAGE_SIZE
    ensures p != 0 && KernelPtrToPhys(p) % PAGE_SIZE == 0
  {
    assert KernelPtrToPhys(p) == h.fa.base + i * PAGE_SIZE;
  }

  lemma BlockIsPage(h: KernelHeap, p: nat) returns (i: nat)
    requires h.Valid() && IsBlock(HandsOf(h), p)
    ensures h.fa.IsFrameAddr(p) && h.LivePage(p) && p !in h.liveChunks
    ensures i == h.fa.FrameIndex(p) && i in h.fa.live && i !in h.chunkPages && p == h.KBase() + i * PAGE_SIZE
  {
    ValidPlaces(h);
    i :| i in h.fa.live && i !in h.chunkPages && p == h.KBase() + i * PAGE_SIZE;
    BlockIsNoChunk(h.KBase(), h.chunkPages, h.liveChunks, i, p);
    FrameOf(h, i, p);
    FrameAligned(h, i, p);
  }

  // ---------- runs ----------

  // allocate, free of a pointer that allocate has returned, alloc_pages, and free_pages of a
  // pointer that alloc_pages has returned. which counts among the pointers still held; a
  // caller that holds fewer does nothing.
  datatype HeapOp = AllocateOp(size: nat) | FreeOp(which: nat) | TakeOp(order: nat) | GiveOp(which: nat)

  // What every operation keeps.
  ghost predicate Sound(h: KernelHeap, held: seq<nat>, taken: seq<nat>, rs: seq<Range>)
    reads h, h.freeHead, h.fa, h.fa.pages
  {
    true == (h.Valid() && Holding(HandsOf(h), held, taken) && KeepsOff(h, rs))
  }

  ghost function OutOfUse(h: KernelHeap): set<nat>
    reads h.fa
  {
    ReservedFrames(h.fa.n, h.fa.lists, h.fa.live)
  }

  method Allocate(h: KernelHeap, size: nat) returns (p: nat)
    requires h.Valid()
    modifies h, h.freeHead, h.fa, h.fa.pages
    ensures h.Valid() && OutOfUse(h) == old(OutOfUse(h))
    ensures if p == 0 then HandsOf(h) == old(HandsOf(h)) else Gained(old(HandsOf(h)), HandsOf(h), p)
  {
    ghost var v, ls := HandsOf(h), h.fa.lists;
    ValidPlaces(h);
    p := h.Allocate(size);
    ValidPlaces(h);
    if p != 0 {
      if size <= 2048 {
        ChunkGained(v, HandsOf(h), p, PoolFor(size));
      } else {
        BlockGained(v, HandsOf(h), Alloc(ls, OrderFor(size)).head, OrderFor(size), p);
      }
    }
  }

  // A live pointer is one that free finds its allocator for.
  lemma LivePointers(h: KernelHeap, p: nat) returns (i: nat)
    requires h.Valid() && IsLive(HandsOf(h), p)
    ensures h.LivePointer(p)
    ensures p !in h.liveChunks ==>
              && h.fa.InManagedRange(KernelPtrToPhys(p)) && i == h.fa.FrameIndex(p)
              && i in h.fa.live && i !in h.chunkPages && p == h.KBase() + i * PAGE_SIZE
  {
    i := 0;
    if p !in h.liveChunks {
      i := BlockIsPage(h, p);
    }
  }

  method Free(h: KernelHeap, p: nat)
    requires h.Valid() && IsLive(HandsOf(h), p)
    modifies h, h.freeHead, h.fa, h.fa.pages
    ensures h.Valid() && OutOfUse(h) == old(OutOfUse(h))
    ensures Lost(old(HandsOf(h)), HandsOf(h), p)
  {
    ghost var v := HandsOf(h);
    ValidPlaces(h);
    ghost var i := LivePointers(h, p);
    h.Free(p);
    if p in v.chunks {
      ChunkLost(v, HandsOf(h), p);
    } else {
      BlockLost(v, HandsOf(h), i, p);
    }
  }

  method TakePages(h: KernelHeap, order: nat) returns (p: nat)
    requires h.Valid()
    modifies h, h.freeHead, h.fa, h.fa.pages
    ensures h.Valid() && OutOfUse(h) == old(OutOfUse(h))
    ensures if p == 0 then HandsOf(h) == old(HandsOf(h))
            else Gained(old(HandsOf(h)), HandsOf(h), p) && IsBlock(HandsOf(h), p)
  {
    ghost var v, ls := HandsOf(h), h.fa.lists;
    ValidPlaces(h);
    p := h.TakePages(order);
    if p != 0 {
      BlockGained(v, HandsOf(h), Alloc(ls, order).head, order, p);
    }
  }

  method GivePages(h: KernelHeap, p: nat)
    requires h.Valid() && IsBlock(HandsOf(h), p)
    modifies h, h.freeHead, h.fa, h.fa.pages
    ensures h.Valid() && OutOfUse(h) == old(OutOfUse(h))
    ensures Lost(old(HandsOf(h)), HandsOf(h), p)
  {
    ghost var v := HandsOf(h);
    ValidPlaces(h);
    ghost var i := BlockIsPage(h, p);
    h.GivePages(p);
    BlockLost(v, HandsOf(h), i, p);
  }

  method DoAllocate(h: KernelHeap, held: seq<nat>, taken: seq<nat>, size: nat, ghost rs: seq<Range>) returns (now: seq<nat>, p: nat)
    requires Sound(h, held, taken, rs)
    modifies h, h.freeHead, h.fa, h.fa.pages
    ensures Sound(h, now, taken, rs) && now == held + if p == 0 then [] else [p]
  {
    ghost var v := HandsOf(h);
    p := Allocate(h, size);
    now := held + if p == 0 then [] else [p];
    if p != 0 {
      HoldMore(v, HandsOf(h), held, taken, p);
    } else {
      assert now == held;
    }
  }

  method DoFree(h: KernelHeap, held: seq<nat>, taken: seq<nat>, which: nat, ghost rs: seq<Range>) returns (now: seq<nat>)
    requires Sound(h, held, taken, rs)
    modifies h, h.freeHead, h.fa, h.fa.pages
    ensures Sound(h, now, taken, rs)
    ensures now == if which < |held| then Without(held, held[which]) else held
  {
    if which >= |held| {
      return held;
    }
    ghost var v := HandsOf(h);
    var p := held[which];
    assert IsLive(v, p) by { assert (held + taken)[which] == p; }
    now := Without(held, p);
    Free(h, p);
    HoldLess(v, HandsOf(h), held, taken, p);
  }

  method DoTake(h: KernelHeap, held: seq<nat>, taken: seq<nat>, order: nat, ghost rs: seq<Range>) returns (now: seq<nat>, p: nat)
    requires Sound(h, held, taken, rs)
    modifies h, h.freeHead, h.fa, h.fa.pages
    ensures Sound(h, held, now, rs) && now == taken + if p == 0 then [] else [p]
  {
    ghost var v := HandsOf(h);
    p := TakePages(h, order);
    now := taken + if p == 0 then [] else [p];
    if p != 0 {
      HoldMore(v, HandsOf(h), held, taken, p);
    } else {
      assert now == taken;
    }
  }

  method DoGive(h: KernelHeap, held: seq<nat>, taken: seq<nat>, which: nat, ghost rs: seq<Range>) returns (now: seq<nat>)
    requires Sound(h, held, taken, rs)
    modifies h, h.freeHead, h.fa, h.fa.pages
    ensures Sound(h, held, now, rs)
    ensures now == if which < |taken| then Without(taken, taken[which]) else taken
  {
    if which >= |taken| {
      return taken;
    }
    ghost var v := HandsOf(h);
    var p := taken[which];
    now := Without(taken, p);
    GivePages(h, p);
    HoldLess(v, HandsOf(h), held, taken, p);
  }

  method DoOp(h: KernelHeap, held: seq<nat>, taken: seq<nat>, op: HeapOp, ghost rs: seq<Range>) returns (held': seq<nat>, taken': seq<nat>)
    requires Sound(h, held, taken, rs)
    modifies h, h.freeHead, h.fa, h.fa.pages
    ensures Sound(h, held', taken', rs)
  {
    var p;
    held', taken' := held, taken;
    match op
    case AllocateOp(size) => held', p := DoAllocate(h, held, taken, size, rs);
    case FreeOp(which) => held' := DoFree(h, held, taken, which, rs);
    case TakeOp(order) => taken', p := DoTake(h, held, taken, order, rs);
    case GiveOp(which) => taken' := DoGive(h, held, taken, which, rs);
  }

  // Any run whatever ends with the pointers held being the live allocations, disjoint from
  // each other and from every range.
  method RunHeap(h: KernelHeap, ops: seq<HeapOp>, ghost rs: seq<Range>) returns (held: seq<nat>, taken: seq<nat>)
    requires Sound(h, [], [], rs)
    modifies h, h.freeHead, h.fa, h.fa.pages
    ensures h.Valid() && Holding(HandsOf(h), held, taken) && Safe(h, rs)
    ensures forall p: nat :: p in held + taken <==> exists len: nat :: h.IsAllocation(p, len)
  {
    held, taken := [], [];
    for i := 0 to |ops|
      invariant Sound(h, held, taken, rs)
    {
      held, taken := DoOp(h, held, taken, ops[i], rs);
    }
    AlwaysSafe(h, rs);
    LiveIsAllocation(h);
  }

  lemma LiveIsAllocation(h: KernelHeap)
    requires h.Valid()
    ensures forall p: nat :: IsLive(HandsOf(h), p) <==> exists len: nat :: h.IsAllocation(p, len)
  {
    var v := HandsOf(h);
    forall p: nat
      ensures IsLive(v, p) <==> exists len: nat :: h.IsAllocation(p, len)
    {
      if p in h.liveChunks {
        assert IsChunk(h.KBase(), h.chunkPages, p, h.liveChunks[p]);
        assert h.IsAllocation(p, POOL_SIZES[h.liveChunks[p]]);
      } else if IsBlock(v, p) {
        var i: nat :| i in v.live && i !in v.chunkPages && p == v.kbase + i * PAGE_SIZE;
        assert h.IsAllocation(p, Pow2(h.fa.live[i]) * PAGE_SIZE);
      }
    }
  }

  lemma FreshHeap(h: KernelHeap, rs: seq<Range>)
    requires h.Valid() && h.liveChunks == map[] && h.fa.live == map[]
    requires forall f: nat :: f < h.fa.n ==> (Covered(h.fa.lists, f) <==> !Occupied(h.fa.base, f, rs))
    ensures Sound(h, [], [], rs)
  {
    assert !exists f: nat :: LiveCovers(h.fa.live, f);
  }

  // mm_init, and then any run: unless mm_init finds no room for the frame array, what is
  // allocated at the end meets neither the boot environment nor the frame array.
  method BootAndRun(dtbBase: nat, dtbSize: nat, fdt: Range, kernelStart: nat, kernelEnd: nat, initrdStart: nat, initrdEnd: nat,
                    ops: seq<HeapOp>)
    returns (h: KernelHeap?, frameArray: Range, held: seq<nat>, taken: seq<nat>)
    requires AlignUp(dtbBase, PAGE_SIZE) - dtbBase <= dtbSize && dtbBase + dtbSize <= PHYS_LIMIT
    ensures var rs := BootRanges(fdt, kernelStart, kernelEnd, initrdStart, initrdEnd);
            var base := AlignUp(dtbBase, PAGE_SIZE);
            var n := (dtbBase + dtbSize - base) / PAGE_SIZE;
            if h == null then forall a: nat :: !RoomAt(base, n, rs, n * PAGE_STRUCT_SIZE, a)
            else
              && h.fa.base == base && h.fa.n == n && frameArray.size == n * PAGE_STRUCT_SIZE
              && RoomAt(base, n, rs, frameArray.size, frameArray.start)
              && h.Valid() && Holding(HandsOf(h), held, taken) && Safe(h, rs + [frameArray])
    ensures h != null ==> forall p: nat :: p in held + taken <==> exists len: nat :: h.IsAllocation(p, len)
    ensures h != null ==> forall a: nat, len: nat :: h.IsAllocation(a, len) ==>
              && !Meets(a, a + len, fdt.start + KERNEL_VA_OFFSET, fdt.start + fdt.size + KERNEL_VA_OFFSET)
              && !Meets(a, a + len, kernelStart + KERNEL_VA_OFFSET, kernelEnd + KERNEL_VA_OFFSET)
              && (initrdStart != 0 ==> !Meets(a, a + len, initrdStart + KERNEL_VA_OFFSET, initrdEnd + KERNEL_VA_OFFSET))
              && !Meets(a, a + len, 0x0300_0000 + KERNEL_VA_OFFSET, 0x0340_0000 + KERNEL_VA_OFFSET)
              && !Meets(a, a + len, frameArray.start + KERNEL_VA_OFFSET, frameArray.start + frameArray.size + KERNEL_VA_OFFSET)
  {
    var boot := MmInit(dtbBase, dtbSize, fdt, kernelStart, kernelEnd, initrdStart, initrdEnd);
    match boot
    case Halted =>
      return null, Range(0, 0), [], [];
    case Ready(fa, frames) =>
      ghost var rs := BootRanges(fdt, kernelStart, kernelEnd, initrdStart, initrdEnd) + [frames];
      var heap := new KernelHeap(fa);
      FreshHeap(heap, rs);
      held, taken := RunHeap(heap, ops, rs);
      h, frameArray := heap, frames;
      SafeIsClear(heap, fdt, kernelStart, kernelEnd, initrdStart, initrdEnd, frames);
  }

  // What safety means for the single boot ranges.
  lemma SafeIsClear(h: KernelHeap, fdt: Range, kernelStart: nat, kernelEnd: nat, initrdStart: nat, initrdEnd: nat, frames: Range)
    requires Safe(h, BootRanges(fdt, kernelStart, kernelEnd, initrdStart, initrdEnd) + [frames])
    ensures forall a: nat, len: nat :: h.IsAllocation(a, len) ==>
              && !Meets(a, a + len, fdt.start + KERNEL_VA_OFFSET, fdt.start + fdt.size + KERNEL_VA_OFFSET)
              && !Meets(a, a + len, kernelStart + KERNEL_VA_OFFSET, kernelEnd + KERNEL_VA_OFFSET)
              && (initrdStart != 0 ==> !Meets(a, a + len, initrdStart + KERNEL_VA_OFFSET, initrdEnd + KERNEL_VA_OFFSET))
              && !Meets(a, a + len, 0x0300_0000 + KERNEL_VA_OFFSET, 0x0340_0000 + KERNEL_VA_OFFSET)
              && !Meets(a, a + len, frames.start + KERNEL_VA_OFFSET, frames.start + frames.size + KERNEL_VA_OFFSET)
  {
    var rs := BootRanges(fdt, kernelStart, kernelEnd, initrdStart, initrdEnd) + [frames];
    assert fdt in rs && USER_PROGRAM in rs && frames in rs;
    assert kernelEnd > kernelStart ==> Range(kernelStart, kernelEnd - kernelStart) in rs;
    assert initrdStart != 0 && initrdEnd > initrdStart ==> Range(initrdStart, initrdEnd - initrdStart) in rs;
    RangeOff(h, rs, fdt.start, fdt.start + fdt.size);
    RangeOff(h, rs, kernelStart, kernelEnd);
    if initrdStart != 0 {
      RangeOff(h, rs, initrdStart, initrdEnd);
    }
    RangeOff(h, rs, 0x0300_0000, 0x0340_0000);
    RangeOff(h, rs, frames.start, frames.start + frames.size);
  }

  lemma RangeOff(h: KernelHeap, rs: seq<Range>, start: nat, end: nat)
    requires Safe(h, rs) && (start < end ==> Range(start, end - start) in rs)
    ensures forall a: nat, len: nat :: h.IsAllocation(a, len) ==>
              !Meets(a, a + len, start + KERNEL_VA_OFFSET, end + KERNEL_VA_OFFSET)
  {
    if start < end {
      forall a: nat, len: nat | h.IsAllocation(a, len)
        ensures !Meets(a, a + len, start + KERNEL_VA_OFFSET, end + KERNEL_VA_OFFSET)
      {
        assert OffRange(a, len, Range(start, end - start));
      }
    }
  }
}

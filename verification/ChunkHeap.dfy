/**
 The dynamic allocator: size-class chunk pools, whose free lists are threaded through the
 free chunks themselves, on top of the page allocator.
 */
module ChunkHeap {
  import opened Bits
  import opened FreeLists
  import opened BuddyOps
  import opened Sequences
  import opened PageLinks
  import opened FrameAllocator

  const NUM_POOLS: nat := 8

  const POOL_SIZES: seq<nat> := [16, 32, 64, 128, 256, 512, 1024, 2048]

  const MAX_ALLOC_SIZE: nat := PAGE_SIZE * Pow2(MAX_ORDER)

  // Memory by aligned words: the links kept in free chunks, and what owners store in theirs.
  type Memory = map<nat, nat>

  const WORD: nat := 8

  // From head, following the word stored at each chunk visits l and ends in NULL.
  ghost predicate Chain(mem: Memory, head: nat, l: seq<nat>)
  {
    true == (&& head == (if |l| == 0 then 0 else l[0])
             && forall i :: 0 <= i < |l| ==>
                  l[i] != 0 && l[i] in mem && mem[l[i]] == Following(l, i))
  }

  // The element after position i of a NULL-terminated list.
  function Following(l: seq<nat>, i: nat): nat
  {
    if i + 1 < |l| then l[i + 1] else 0
  }

  lemma ChainPush(mem: Memory, head: nat, l: seq<nat>, x: nat)
    requires Chain(mem, head, l) && NoDup(l) && x != 0 && x !in l
    ensures Chain(mem[x := head], x, [x] + l) && NoDup([x] + l)
  {
  }

  // A store outside the free chunks of a list leaves the list alone.
  lemma ChainStore(mem: Memory, head: nat, l: seq<nat>, x: nat, v: nat)
    requires Chain(mem, head, l) && x !in l
    ensures Chain(mem[x := v], head, l)
  {
    assert forall i :: 0 <= i < |l| ==> l[i] in l;
  }

  lemma ChainPop(mem: Memory, head: nat, l: seq<nat>)
    requires Chain(mem, head, l) && NoDup(l)
    ensures head != 0 <==> l != []
    ensures l != [] ==> head == l[0] && head in mem && Chain(mem, mem[head], l[1..]) && NoDup(l[1..]) && head !in l[1..]
  {
    if l != [] {
      var t := l[1..];
      forall i | 0 <= i < |t|
        ensures t[i] != 0 && t[i] in mem && mem[t[i]] == Following(t, i)
      {
        assert l[i + 1] != 0;
      }
    }
  }

  // Chunk pages by frame, with the pool each was cut up for.
  type ChunkPages = map<nat, nat>

  // c is the address of a slot of pool p in one of its pages; page(f) starts at kbase + f * PAGE_SIZE.
  ghost predicate IsChunk(kbase: nat, cp: ChunkPages, c: nat, p: nat)
  {
    && p < NUM_POOLS && c >= kbase
    && (c - kbase) / PAGE_SIZE in cp && cp[(c - kbase) / PAGE_SIZE] == p
    && (c - kbase) % PAGE_SIZE % POOL_SIZES[p] == 0
  }

  // A slot never crosses the end of its page.
  lemma SlotFits(off: nat, p: nat)
    requires p < NUM_POOLS && off < PAGE_SIZE && off % POOL_SIZES[p] == 0
    ensures off + POOL_SIZES[p] <= PAGE_SIZE
  {
    var q := POOL_SIZES[p];
    assert PAGE_SIZE % q == 0 by {
      assert p == 0 || p == 1 || p == 2 || p == 3 || p == 4 || p == 5 || p == 6 || p == 7;
    }
    MultiplesApart(off, PAGE_SIZE, q);
  }

  // Stepping to the next slot of a page adds exactly one slot.
  lemma NextSlot(off: nat, p: nat)
    requires p < NUM_POOLS && off % POOL_SIZES[p] == 0
    ensures (off + POOL_SIZES[p]) % POOL_SIZES[p] == 0
    ensures forall o: nat :: o < off + POOL_SIZES[p] && o % POOL_SIZES[p] == 0 ==> o <= off
  {
    var q := POOL_SIZES[p];
    DivModUnique(off + q, q, off / q + 1, 0);
    forall o: nat | o % q == 0 && off < o
      ensures off + q <= o
    {
      MultiplesApart(off, o, q);
    }
  }

  // The slots of pool p tile a page: none is left over at its end.
  lemma LastSlot(off: nat, p: nat)
    requires p < NUM_POOLS && off % POOL_SIZES[p] == 0 && off <= PAGE_SIZE < off + POOL_SIZES[p]
    ensures off == PAGE_SIZE
  {
    assert p == 0 || p == 1 || p == 2 || p == 3 || p == 4 || p == 5 || p == 6 || p == 7;
  }

  // c is one of the slots of pool's size in the page at va, below offset off.
  predicate SlotBelow(va: nat, pool: nat, off: nat, c: nat)
    requires pool < NUM_POOLS
  {
    va <= c < va + off && (c - va) % POOL_SIZES[pool] == 0
  }

  lemma PageOf(kbase: nat, f: nat, c: nat)
    ensures c >= kbase && (c - kbase) / PAGE_SIZE == f <==>
              kbase + f * PAGE_SIZE <= c < kbase + f * PAGE_SIZE + PAGE_SIZE
    ensures c >= kbase && (c - kbase) / PAGE_SIZE == f ==> (c - kbase) % PAGE_SIZE == c - (kbase + f * PAGE_SIZE)
  {
  }

  lemma SlotOf(kbase: nat, cp: ChunkPages, c: nat, p: nat) returns (f: nat)
    requires IsChunk(kbase, cp, c, p)
    ensures f == (c - kbase) / PAGE_SIZE && f in cp && cp[f] == p
    ensures kbase + f * PAGE_SIZE <= c && c + POOL_SIZES[p] <= kbase + f * PAGE_SIZE + PAGE_SIZE
  {
    f := (c - kbase) / PAGE_SIZE;
    PageOf(kbase, f, c);
    SlotFits((c - kbase) % PAGE_SIZE, p);
  }

  lemma NewPageSlot(kbase: nat, cp: ChunkPages, f: nat, pool: nat, c: nat, p: nat)
    requires f !in cp && pool < NUM_POOLS
    ensures IsChunk(kbase, cp[f := pool], c, p) <==>
              IsChunk(kbase, cp, c, p) || (p == pool && SlotBelow(kbase + f * PAGE_SIZE, pool, PAGE_SIZE, c))
    ensures IsChunk(kbase, cp, c, p) ==> !SlotBelow(kbase + f * PAGE_SIZE, pool, PAGE_SIZE, c)
  {
    PageOf(kbase, f, c);
  }

  // struct page records the pool of exactly the chunk pages, which are live single pages.
  ghost predicate TagsHold(pg: seq<Page>, live: Live, cp: ChunkPages)
  {
    true == (&& (forall f: nat :: f in live && f < |pg| ==> (pg[f].chunkSize != 0 <==> f in cp))
             && (forall f: nat :: f in cp ==>
                   && f in live && live[f] == 0 && f < |pg| && cp[f] < NUM_POOLS
                   && pg[f].chunkSize == POOL_SIZES[cp[f]] && pg[f].chunkPool == cp[f]))
  }

  // Handing out a block that is not cut up, with its page untagged.
  lemma TagsAfterTake(pg: seq<Page>, pg': seq<Page>, live: Live, cp: ChunkPages, i: nat, k: nat)
    requires TagsHold(pg, live, cp) && i < |pg| == |pg'| && i !in live && pg'[i].chunkSize == 0
    requires forall g: nat :: g in live && g < |pg| ==> SameMeta(pg[g], pg'[g])
    ensures TagsHold(pg', live[i := k], cp) && i !in cp
  {
  }

  // Giving back a block that is not cut up.
  lemma TagsAfterGive(pg: seq<Page>, pg': seq<Page>, live: Live, cp: ChunkPages, i: nat)
    requires TagsHold(pg, live, cp) && |pg| == |pg'| && i !in cp
    requires forall g: nat :: g in live - {i} && g < |pg| ==> SameMeta(pg[g], pg'[g])
    ensures TagsHold(pg', live - {i}, cp)
  {
  }

  lemma TagsAfterRefill(pg: seq<Page>, pg': seq<Page>, live: Live, cp: ChunkPages, f: nat, pool: nat)
    requires TagsHold(pg, live, cp) && f < |pg| == |pg'| && pool < NUM_POOLS && f in live && live[f] == 0 && f !in cp
    requires forall g: nat :: g < |pg| && g != f && g in live ==> pg'[g] == pg[g]
    requires pg'[f].chunkSize == POOL_SIZES[pool] && pg'[f].chunkPool == pool
    ensures TagsHold(pg', live, cp[f := pool])
  {
  }

  // Every slot of every chunk page is either on its pool's list or handed out, never both.
  ghost predicate SlotsHold(kbase: nat, cp: ChunkPages, pools: seq<seq<nat>>, live: map<nat, nat>)
  {
    true == (&& |pools| == NUM_POOLS
             && (forall p: nat, c: nat :: p < NUM_POOLS && c in pools[p] ==> IsChunk(kbase, cp, c, p) && c !in live)
             && (forall c: nat :: c in live ==> IsChunk(kbase, cp, c, live[c]))
             && (forall p: nat, c: nat :: IsChunk(kbase, cp, c, p) ==> c in pools[p] || c in live))
  }

  ghost predicate ChunksPlaced(kbase: nat, cp: ChunkPages, chunks: map<nat, nat>)
  {
    true == (forall c: nat :: c in chunks ==> IsChunk(kbase, cp, c, chunks[c]))
  }

  // The address of a page that is not cut up is no chunk.
  lemma BlockIsNoChunk(kbase: nat, cp: ChunkPages, chunks: map<nat, nat>, i: nat, p: nat)
    requires ChunksPlaced(kbase, cp, chunks) && i !in cp && p == kbase + i * PAGE_SIZE
    ensures p !in chunks
  {
    PageOf(kbase, i, p);
    forall c: nat | c in chunks
      ensures c != p
    {
      assert IsChunk(kbase, cp, c, chunks[c]);
    }
  }

  lemma NoSlotsYet(kbase: nat, cp: ChunkPages, pools: seq<seq<nat>>, live: map<nat, nat>, f: nat, va: nat)
    requires SlotsHold(kbase, cp, pools, live) && f !in cp && va == kbase + f * PAGE_SIZE
    ensures forall p: nat, c: nat :: p < NUM_POOLS && c in pools[p] ==> !(va <= c < va + PAGE_SIZE)
  {
    forall p: nat, c: nat | p < NUM_POOLS && c in pools[p]
      ensures !(va <= c < va + PAGE_SIZE)
    {
      assert IsChunk(kbase, cp, c, p);
      PageOf(kbase, f, c);
    }
  }

  // The empty pool has become the list of the slots of the page at va.
  ghost predicate Filled(pools: seq<seq<nat>>, pools': seq<seq<nat>>, pool: nat, va: nat)
    requires pool < NUM_POOLS
  {
    true == (&& |pools| == |pools'| == NUM_POOLS
             && (forall p: nat :: p < NUM_POOLS && p != pool ==> pools'[p] == pools[p])
             && pools'[pool] != []
             && (forall c: nat :: c in pools'[pool] <==> SlotBelow(va, pool, PAGE_SIZE, c)))
  }

  lemma SlotsAfterRefill(kbase: nat, cp: ChunkPages, pools: seq<seq<nat>>, pools': seq<seq<nat>>, live: map<nat, nat>, f: nat, pool: nat, va: nat)
    requires SlotsHold(kbase, cp, pools, live) && f !in cp && pool < NUM_POOLS && va == kbase + f * PAGE_SIZE
    requires |pools| == NUM_POOLS && pools[pool] == [] && Filled(pools, pools', pool, va)
    ensures SlotsHold(kbase, cp[f := pool], pools', live)
  {
    var cp' := cp[f := pool];
    forall c: nat | c in live
      ensures IsChunk(kbase, cp', c, live[c]) && !SlotBelow(kbase + f * PAGE_SIZE, pool, PAGE_SIZE, c)
    {
      NewPageSlot(kbase, cp, f, pool, c, live[c]);
    }
    forall p: nat, c: nat | p < NUM_POOLS && c in pools'[p]
      ensures IsChunk(kbase, cp', c, p) && c !in live
    {
      NewPageSlot(kbase, cp, f, pool, c, p);
    }
    forall p: nat, c: nat | IsChunk(kbase, cp', c, p)
      ensures c in pools'[p] || c in live
    {
      NewPageSlot(kbase, cp, f, pool, c, p);
    }
  }

  lemma SlotsAfterPop(kbase: nat, cp: ChunkPages, pools: seq<seq<nat>>, pool: nat, live: map<nat, nat>)
    requires SlotsHold(kbase, cp, pools, live) && pool < NUM_POOLS && pools[pool] != [] && NoDup(pools[pool])
    ensures pools[pool][0] !in live && IsChunk(kbase, cp, pools[pool][0], pool)
    ensures SlotsHold(kbase, cp, pools[pool := pools[pool][1..]], live[pools[pool][0] := pool])
  {
    var l := pools[pool];
    var x, pools' := l[0], pools[pool := l[1..]];
    var live' := live[x := pool];
    assert l == [x] + l[1..];
    forall p: nat, c: nat | p < NUM_POOLS && c in pools'[p]
      ensures IsChunk(kbase, cp, c, p) && c !in live'
    {
      assert c in pools[p];
    }
    forall p: nat, c: nat | IsChunk(kbase, cp, c, p)
      ensures c in pools'[p] || c in live'
    {
      assert c in pools[p] || c in live;
    }
  }

  lemma SlotsAfterPush(kbase: nat, cp: ChunkPages, pools: seq<seq<nat>>, x: nat, live: map<nat, nat>)
    requires SlotsHold(kbase, cp, pools, live) && x in live
    ensures live[x] < NUM_POOLS && forall p: nat :: p < NUM_POOLS ==> x !in pools[p]
    ensures SlotsHold(kbase, cp, pools[live[x] := [x] + pools[live[x]]], live - {x})
  {
    var pool := live[x];
    var pools' := pools[pool := [x] + pools[pool]];
    forall p: nat, c: nat | p < NUM_POOLS && c in pools'[p]
      ensures IsChunk(kbase, cp, c, p) && c !in live - {x}
    {
      assert c in pools[p] || c == x;
    }
    forall p: nat, c: nat | IsChunk(kbase, cp, c, p)
      ensures c in pools'[p] || c in live - {x}
    {
      assert c in pools[p] || c in live;
    }
  }

  // The smallest pool from p upwards that holds size bytes; NUM_POOLS when there is none.
  function PoolFrom(size: nat, p: nat): (r: nat)
    requires p <= NUM_POOLS
    ensures p <= r <= NUM_POOLS
    ensures r < NUM_POOLS ==> size <= POOL_SIZES[r]
    ensures forall q: nat :: p <= q < r ==> POOL_SIZES[q] < size
    decreases NUM_POOLS - p
  {
    if p == NUM_POOLS || size <= POOL_SIZES[p] then p else PoolFrom(size, p + 1)
  }

  function PoolFor(size: nat): (r: nat)
    ensures r <= NUM_POOLS && (r < NUM_POOLS ==> size <= POOL_SIZES[r])
    ensures forall q: nat :: q < r ==> POOL_SIZES[q] < size
    ensures size <= 2048 ==> r < NUM_POOLS
  {
    assert POOL_SIZES[NUM_POOLS - 1] == 2048;
    PoolFrom(size, 0)
  }

  // find_pool, with NUM_POOLS for its -1.
  method FindPool(size: nat) returns (p: nat)
    ensures p == PoolFor(size)
  {
    p := 0;
    while p < NUM_POOLS
      invariant p <= NUM_POOLS && PoolFrom(size, p) == PoolFor(size)
    {
      if size <= POOL_SIZES[p] {
        return p;
      }
      p := p + 1;
    }
  }

  // Two slots of one chunk page do not overlap.
  lemma SlotsApart(kbase: nat, cp: ChunkPages, f: nat, a: nat, p: nat, b: nat)
    requires IsChunk(kbase, cp, a, p) && IsChunk(kbase, cp, b, p) && a != b
    requires (a - kbase) / PAGE_SIZE == f && (b - kbase) / PAGE_SIZE == f
    ensures a + POOL_SIZES[p] <= b || b + POOL_SIZES[p] <= a
  {
    var x, y := (a - kbase) % PAGE_SIZE, (b - kbase) % PAGE_SIZE;
    if x < y {
      MultiplesApart(x, y, POOL_SIZES[p]);
    } else {
      MultiplesApart(y, x, POOL_SIZES[p]);
    }
  }

  // The smallest order from k upwards whose block holds the given number of pages.
  function OrderFrom(pages: nat, k: nat): (r: nat)
    ensures k <= r && pages <= Pow2(r)
    ensures r > k ==> Pow2(r - 1) < pages
    decreases if pages > Pow2(k) then pages - Pow2(k) else 0
  {
    if Pow2(k) >= pages then k else OrderFrom(pages, k + 1)
  }

  function OrderFor(size: nat): (r: nat)
    ensures size <= PAGE_SIZE * Pow2(r)
    ensures r > 0 ==> PAGE_SIZE * Pow2(r - 1) < size
  {
    OrderFrom((size + PAGE_SIZE - 1) / PAGE_SIZE, 0)
  }

  method SizeToOrder(size: nat) returns (order: nat)
    ensures order == OrderFor(size)
  {
    var pages := (size + PAGE_SIZE - 1) / PAGE_SIZE;
    order := 0;
    var n := 1;
    while n < pages
      invariant n == Pow2(order) && OrderFrom(pages, order) == OrderFor(size)
      decreases pages - n
    {
      n := n * 2;
      order := order + 1;
    }
  }

  class KernelHeap {
    const fa: Allocator
    const freeHead: array<nat>          // chunk_free_list
    var mem: Memory
    ghost var pools: seq<seq<nat>>      // the free chunks, in list order
    ghost var chunkPages: ChunkPages
    ghost var liveChunks: map<nat, nat> // handed-out chunks, with their pool

    function KBase(): nat
    {
      fa.base + KERNEL_VA_OFFSET
    }

    ghost predicate ChainsOk()
      reads this, freeHead
    {
      true == (&& freeHead.Length == NUM_POOLS && |pools| == NUM_POOLS
               && forall p: nat :: p < NUM_POOLS ==> NoDup(pools[p]) && Chain(mem, freeHead[p], pools[p]))
    }

    ghost predicate Valid()
      reads this, fa, fa.pages, freeHead
    {
      fa.Valid() && TagsHold(fa.pages[..], fa.live, chunkPages) && ChainsOk() && SlotsHold(KBase(), chunkPages, pools, liveChunks)
    }

    constructor (fa: Allocator)
      requires fa.Valid() && fa.live == map[]
      ensures Valid() && this.fa == fa && fresh(freeHead)
      ensures liveChunks == map[] && chunkPages == map[]
    {
      this.fa := fa;
      freeHead := new nat[NUM_POOLS](_ => 0);
      mem := map[];
      pools := seq(NUM_POOLS, _ => []);
      chunkPages := map[];
      liveChunks := map[];
    }

    // ---------- chunk lists ----------

    method PushChunk(pool: nat, ptr: nat)
      requires ChainsOk() && pool < NUM_POOLS && ptr != 0
      requires forall p: nat :: p < NUM_POOLS ==> ptr !in pools[p]
      modifies this`mem, this`pools, freeHead
      ensures ChainsOk() && pools == old(pools)[pool := [ptr] + old(pools)[pool]]
      ensures mem == old(mem)[ptr := old(freeHead[pool])]
    {
      ChainPush(mem, freeHead[pool], pools[pool], ptr);
      forall p: nat | p < NUM_POOLS
        ensures Chain(mem[ptr := freeHead[pool]], freeHead[p], pools[p])
      {
        ChainStore(mem, freeHead[p], pools[p], ptr, freeHead[pool]);
      }
      mem := mem[ptr := freeHead[pool]];
      freeHead[pool] := ptr;
      pools := pools[pool := [ptr] + pools[pool]];
    }

    method PopChunk(pool: nat) returns (ptr: nat)
      requires ChainsOk() && pool < NUM_POOLS
      modifies this`pools, freeHead
      ensures ChainsOk()
      ensures old(pools)[pool] == [] ==> ptr == 0 && pools == old(pools)
      ensures old(pools)[pool] != [] ==>
                ptr != 0 && ptr == old(pools)[pool][0] && pools == old(pools)[pool := old(pools)[pool][1..]]
    {
      ptr := freeHead[pool];
      ChainPop(mem, ptr, pools[pool]);
      if ptr != 0 {
        freeHead[pool] := mem[ptr];
        pools := pools[pool := pools[pool][1..]];
      }
    }

    // ---------- refill ----------

    // The loop of refill_chunk_pool: the whole page at va becomes free chunks of the pool.
    method CutPage(va: nat, pool: nat)
      requires ChainsOk() && pool < NUM_POOLS && va > 0 && pools[pool] == []
      requires forall p: nat, c: nat :: p < NUM_POOLS && c in pools[p] ==> !(va <= c < va + PAGE_SIZE)
      modifies this`mem, this`pools, freeHead
      ensures ChainsOk() && Filled(old(pools), pools, pool, va)
    {
      var chunkSize := POOL_SIZES[pool];
      var off := 0;
      while off + chunkSize <= PAGE_SIZE
        invariant ChainsOk() && off % chunkSize == 0 && off <= PAGE_SIZE
        invariant forall p: nat :: p < NUM_POOLS && p != pool ==> pools[p] == old(pools)[p]
        invariant forall c: nat :: c in pools[pool] <==> SlotBelow(va, pool, off, c)
        invariant off > 0 ==> pools[pool] != []
        decreases PAGE_SIZE - off
      {
        NextSlot(off, pool);
        ghost var before := pools[pool];
        assert va + off !in pools[pool];
        PushChunk(pool, va + off);
        forall c: nat
          ensures c in pools[pool] <==> SlotBelow(va, pool, off + chunkSize, c)
        {
          assert c in pools[pool] <==> c == va + off || c in before;
        }
        off := off + chunkSize;
      }
      LastSlot(off, pool);
    }

    // alloc_pages as the heap sees it: a fresh block that no chunk lies in.
    method TakePages(order: nat) returns (addr: nat)
      requires Valid()
      modifies fa.pages, fa`lists, fa`live
      ensures Valid()
      ensures match Alloc(old(fa.lists), order)
              case OutOfMemory => addr == 0 && fa.lists == old(fa.lists) && fa.live == old(fa.live)
              case Allocated(i, rest) =>
                && i < fa.n && addr == KBase() + i * PAGE_SIZE && i !in chunkPages
                && fa.lists == rest && i !in old(fa.live) && fa.live == old(fa.live)[i := order]
      ensures ReservedFrames(fa.n, fa.lists, fa.live) == ReservedFrames(fa.n, old(fa.lists), old(fa.live))
    {
      LiveUncovered(fa.n, fa.lists, fa.live);
      ghost var before, live, ls := fa.pages[..], fa.live, fa.lists;
      addr := fa.AllocPages(order);
      if addr != 0 {
        TagsAfterTake(before, fa.pages[..], live, chunkPages, Alloc(ls, order).head, order);
      }
    }

    // The new page is recorded as a chunk page of the pool.
    method TagPage(pageIdx: nat, pool: nat)
      requires Valid() && pool < NUM_POOLS && pageIdx < fa.n
      requires pageIdx in fa.live && fa.live[pageIdx] == 0 && pageIdx !in chunkPages
      modifies fa.pages
      ensures fa.Valid() && TagsHold(fa.pages[..], fa.live, chunkPages[pageIdx := pool])
    {
      ghost var before := fa.pages[..];
      fa.TagChunkPage(pageIdx, POOL_SIZES[pool], pool);
      TagsAfterRefill(before, fa.pages[..], fa.live, chunkPages, pageIdx, pool);
    }

    // The page at pageAddr becomes the free chunks of the pool.
    method FillPool(pageAddr: nat, ghost pageIdx: nat, pool: nat)
      requires fa.Valid() && pool < NUM_POOLS && pageIdx !in chunkPages
      requires TagsHold(fa.pages[..], fa.live, chunkPages[pageIdx := pool])
      requires ChainsOk() && pools[pool] == [] && SlotsHold(KBase(), chunkPages, pools, liveChunks)
      requires pageAddr == KBase() + pageIdx * PAGE_SIZE
      modifies this`mem, this`pools, this`chunkPages, freeHead
      ensures Valid() && chunkPages == old(chunkPages)[pageIdx := pool]
      ensures Filled(old(pools), pools, pool, pageAddr)
    {
      ghost var P, C, pg := pools, chunkPages, fa.pages[..];
      NoSlotsYet(KBase(), C, P, liveChunks, pageIdx, pageAddr);
      CutPage(pageAddr, pool);
      SlotsAfterRefill(KBase(), C, P, pools, liveChunks, pageIdx, pool, pageAddr);
      chunkPages := C[pageIdx := pool];
      assert fa.pages[..] == pg;
    }

    method Refill(pool: nat)
      requires Valid() && pool < NUM_POOLS && pools[pool] == []
      modifies this`mem, this`pools, this`chunkPages, freeHead, fa.pages, fa`lists, fa`live
      ensures Valid()
      ensures ReservedFrames(fa.n, fa.lists, fa.live) == ReservedFrames(fa.n, old(fa.lists), old(fa.live))
      ensures match Alloc(old(fa.lists), 0)
              case OutOfMemory => pools == old(pools) && chunkPages == old(chunkPages) && fa.lists == old(fa.lists) && fa.live == old(fa.live)
              case Allocated(i, rest) =>
                && fa.lists == rest && i !in old(fa.live) && fa.live == old(fa.live)[i := 0]
                && i !in old(chunkPages) && chunkPages == old(chunkPages)[i := pool]
                && Filled(old(pools), pools, pool, KBase() + i * PAGE_SIZE)
    {
      var pageAddr := TakePages(0);
      if pageAddr == 0 {
        return;
      }
      var pageIdx := fa.FrameIndex(pageAddr);
      TagPage(pageIdx, pool);
      FillPool(pageAddr, pageIdx, pool);
    }

    // ---------- allocate and free ----------

    // What an allocation of one chunk of the pool leaves behind.
    twostate predicate TookChunk(pool: nat, ptr: nat)
      requires pool < NUM_POOLS
      reads this, fa
    {
      && ptr !in old(liveChunks) && liveChunks == old(liveChunks)[ptr := pool]
      && IsChunk(KBase(), chunkPages, ptr, pool)
      && (forall f: nat :: f in old(chunkPages) ==> f in chunkPages && chunkPages[f] == old(chunkPages)[f])
      && (forall f: nat :: f in chunkPages && f !in old(chunkPages) ==> f !in old(fa.live))
      && (forall i: nat :: i in old(fa.live) ==> i in fa.live && fa.live[i] == old(fa.live)[i])
      && (forall i: nat :: i in fa.live && i !in old(fa.live) ==> i in chunkPages)
    }

    method AllocChunk(size: nat) returns (ptr: nat)
      requires Valid() && size <= 2048
      modifies this`mem, this`pools, this`chunkPages, this`liveChunks, freeHead, fa.pages, fa`lists, fa`live
      ensures Valid()
      ensures ReservedFrames(fa.n, fa.lists, fa.live) == ReservedFrames(fa.n, old(fa.lists), old(fa.live))
      ensures PoolFor(size) < NUM_POOLS
      ensures ptr == 0 <==> old(pools)[PoolFor(size)] == [] && Alloc(old(fa.lists), 0).OutOfMemory?
      ensures ptr == 0 ==> liveChunks == old(liveChunks) && chunkPages == old(chunkPages) && fa.live == old(fa.live)
      ensures ptr != 0 ==> TookChunk(PoolFor(size), ptr)
    {
      var pool := FindPool(size);
      ChainPop(mem, freeHead[pool], pools[pool]);
      if freeHead[pool] == 0 {
        Refill(pool);
      }
      ptr := TakeChunk(pool);
    }

    // The end of alloc_chunk: hand out the first chunk of the pool, if there is one.
    method TakeChunk(pool: nat) returns (ptr: nat)
      requires Valid() && pool < NUM_POOLS
      modifies this`pools, this`liveChunks, freeHead
      ensures Valid()
      ensures ptr == 0 <==> old(pools)[pool] == []
      ensures ptr == 0 ==> liveChunks == old(liveChunks)
      ensures ptr != 0 ==> ptr !in old(liveChunks) && liveChunks == old(liveChunks)[ptr := pool] && IsChunk(KBase(), chunkPages, ptr, pool)
    {
      ghost var P, L := pools, liveChunks;
      ptr := PopChunk(pool);
      if ptr != 0 {
        SlotsAfterPop(KBase(), chunkPages, P, pool, L);
        liveChunks := liveChunks[ptr := pool];
      }
    }

    method FreeChunk(ptr: nat, pool: nat)
      requires Valid() && ptr in liveChunks && liveChunks[ptr] == pool
      modifies this`mem, this`pools, this`liveChunks, freeHead
      ensures Valid() && liveChunks == old(liveChunks) - {ptr}
      ensures pools == old(pools)[pool := [ptr] + old(pools)[pool]]
    {
      SlotsAfterPush(KBase(), chunkPages, pools, ptr, liveChunks);
      PushChunk(pool, ptr);
      liveChunks := liveChunks - {ptr};
    }

    method Allocate(size: nat) returns (ptr: nat)
      requires Valid()
      modifies this`mem, this`pools, this`chunkPages, this`liveChunks, freeHead, fa.pages, fa`lists, fa`live
      ensures Valid()
      ensures ReservedFrames(fa.n, fa.lists, fa.live) == ReservedFrames(fa.n, old(fa.lists), old(fa.live))
      ensures size == 0 || size > MAX_ALLOC_SIZE ==> ptr == 0
      ensures ptr == 0 ==> liveChunks == old(liveChunks) && chunkPages == old(chunkPages) && fa.live == old(fa.live)
      ensures 0 < size <= 2048 ==>
                && PoolFor(size) < NUM_POOLS
                && (ptr == 0 <==> old(pools)[PoolFor(size)] == [] && Alloc(old(fa.lists), 0).OutOfMemory?)
                && (ptr != 0 ==> TookChunk(PoolFor(size), ptr))
      ensures 2048 < size <= MAX_ALLOC_SIZE ==>
                liveChunks == old(liveChunks) && chunkPages == old(chunkPages)
                && match Alloc(old(fa.lists), OrderFor(size))
                   case OutOfMemory => ptr == 0
                   case Allocated(i, rest) =>
                     && ptr == KBase() + i * PAGE_SIZE && i !in chunkPages && fa.lists == rest
                     && i !in old(fa.live) && fa.live == old(fa.live)[i := OrderFor(size)]
      ensures ptr != 0 ==> Holds(ptr, size)
    {
      if size == 0 {
        return 0;
      }
      if size > MAX_ALLOC_SIZE {
        return 0;
      }
      if size <= 2048 {
        ptr := AllocChunk(size);
        if ptr != 0 {
          ChunkHolds(ptr, size);
        }
        return;
      }
      var order := SizeToOrder(size);
      ghost var ls := fa.lists;
      ptr := TakePages(order);
      if ptr != 0 {
        BlockHolds(ptr, Alloc(ls, order).head, size);
      }
    }

    // There is a live allocation at a, of at least this size.
    ghost predicate Holds(a: nat, size: nat)
      reads this, fa
    {
      exists len: nat :: IsAllocation(a, len) && size <= len
    }

    lemma ChunkHolds(a: nat, size: nat)
      requires a in liveChunks && liveChunks[a] == PoolFor(size) < NUM_POOLS
      ensures Holds(a, size)
    {
      assert IsAllocation(a, POOL_SIZES[PoolFor(size)]);
    }

    lemma BlockHolds(a: nat, i: nat, size: nat)
      requires i in fa.live && i !in chunkPages && a == KBase() + i * PAGE_SIZE && size <= Pow2(fa.live[i]) * PAGE_SIZE
      ensures Holds(a, size)
    {
      assert IsAllocation(a, Pow2(fa.live[i]) * PAGE_SIZE);
    }

    // A pointer allocate has handed out and free has not taken back.
    ghost predicate LivePointer(ptr: nat)
      reads this, fa
    {
      ptr in liveChunks || (fa.IsFrameAddr(ptr) && LivePage(ptr))
    }

    ghost predicate LivePage(ptr: nat)
      requires fa.InManagedRange(KernelPtrToPhys(ptr))
      reads this, fa
    {
      fa.FrameIndex(ptr) in fa.live && fa.FrameIndex(ptr) !in chunkPages
    }

    // free finds the allocator that issued the pointer, and ignores NULL and pointers
    // outside managed memory.
    method Free(ptr: nat)
      requires Valid()
      requires ptr == 0 || !fa.InManagedRange(KernelPtrToPhys(ptr)) || LivePointer(ptr)
      modifies this`mem, this`pools, this`liveChunks, freeHead, fa.pages, fa`lists, fa`live
      ensures Valid()
      ensures ReservedFrames(fa.n, fa.lists, fa.live) == ReservedFrames(fa.n, old(fa.lists), old(fa.live))
      ensures !old(LivePointer(ptr)) ==> liveChunks == old(liveChunks) && fa.live == old(fa.live) && fa.lists == old(fa.lists) && pools == old(pools)
      ensures ptr in old(liveChunks) ==>
                && liveChunks == old(liveChunks) - {ptr} && fa.live == old(fa.live) && fa.lists == old(fa.lists)
                && old(liveChunks)[ptr] < NUM_POOLS
                && pools == old(pools)[old(liveChunks)[ptr] := [ptr] + old(pools)[old(liveChunks)[ptr]]]
      ensures ptr !in old(liveChunks) && old(LivePointer(ptr)) ==>
                && liveChunks == old(liveChunks) && pools == old(pools)
                && var i := fa.FrameIndex(ptr);
                   fa.live == old(fa.live) - {i} && fa.lists == Merge(old(fa.lists), fa.n, i, old(fa.live)[i])
    {
      if ptr == 0 {
        return;
      }
      var pa := KernelPtrToPhys(ptr);
      if ptr in liveChunks {
        ChunkIsManaged(ptr);
      }
      if !fa.InManagedRange(pa) {
        return;
      }
      var pageIdx := fa.FrameIndex(ptr);
      if fa.pages[pageIdx].chunkSize != 0 {
        FreeChunk(ptr, fa.pages[pageIdx].chunkPool);
        return;
      }
      GivePages(ptr);
    }

    // free_pages as the heap sees it: a block that no chunk lies in goes back.
    method GivePages(ptr: nat)
      requires Valid() && fa.IsFrameAddr(ptr) && LivePage(ptr)
      modifies fa.pages, fa`lists, fa`live
      ensures Valid()
      ensures ReservedFrames(fa.n, fa.lists, fa.live) == ReservedFrames(fa.n, old(fa.lists), old(fa.live))
      ensures var i := fa.FrameIndex(ptr);
              fa.live == old(fa.live) - {i} && fa.lists == Merge(old(fa.lists), fa.n, i, old(fa.live)[i])
    {
      ghost var before, live := fa.pages[..], fa.live;
      fa.FreePages(ptr);
      TagsAfterGive(before, fa.pages[..], live, chunkPages, fa.FrameIndex(ptr));
    }

    lemma ChunkIsManaged(c: nat)
      requires Valid() && c in liveChunks
      ensures c != 0 && fa.InManagedRange(KernelPtrToPhys(c)) && fa.FrameIndex(c) in chunkPages
      ensures chunkPages[fa.FrameIndex(c)] == liveChunks[c]
    {
      var f := ChunkInPage(c);
      PageInRange(f, c);
    }

    lemma PageInRange(f: nat, c: nat)
      requires f < fa.n && KBase() + f * PAGE_SIZE <= c < KBase() + f * PAGE_SIZE + PAGE_SIZE
      ensures c != 0 && fa.InManagedRange(KernelPtrToPhys(c)) && fa.FrameIndex(c) == f
    {
      assert KernelPtrToPhys(c) == c - KERNEL_VA_OFFSET;
      PageOf(fa.base, f, c - KERNEL_VA_OFFSET);
    }

    // ---------- live allocations ----------

    // The bytes [a, a + len) are one live allocation.
    ghost predicate IsAllocation(a: nat, len: nat)
      reads this, fa
    {
      || (a in liveChunks && liveChunks[a] < NUM_POOLS && len == POOL_SIZES[liveChunks[a]])
      || (exists i: nat :: i in fa.live && i !in chunkPages && a == KBase() + i * PAGE_SIZE && len == Pow2(fa.live[i]) * PAGE_SIZE)
    }

    // A live chunk lies in one chunk page, which is live as a block of one page.
    lemma ChunkInPage(a: nat) returns (i: nat)
      requires Valid() && a in liveChunks
      ensures liveChunks[a] < NUM_POOLS && a >= KBase() && (a - KBase()) / PAGE_SIZE == i
      ensures i in chunkPages && chunkPages[i] == liveChunks[a] && i in fa.live && fa.live[i] == 0 && i < fa.n
      ensures KBase() + i * PAGE_SIZE <= a && a + POOL_SIZES[liveChunks[a]] <= KBase() + i * PAGE_SIZE + PAGE_SIZE
    {
      assert IsChunk(KBase(), chunkPages, a, liveChunks[a]);
      i := SlotOf(KBase(), chunkPages, a, liveChunks[a]);
      assert i in fa.live && fa.live[i] == 0 && i + Pow2(0) <= fa.n;
    }

    // A live allocation lies inside one live block.
    lemma AllocationInLiveFrames(a: nat, len: nat) returns (i: nat)
      requires Valid() && IsAllocation(a, len)
      ensures i in fa.live
      ensures KBase() + i * PAGE_SIZE <= a && a + len <= KBase() + (i + Pow2(fa.live[i])) * PAGE_SIZE
      ensures i + Pow2(fa.live[i]) <= fa.n
      ensures i in chunkPages <==> a in liveChunks
      ensures i !in chunkPages ==> a == KBase() + i * PAGE_SIZE
      ensures i in chunkPages ==>
                liveChunks[a] < NUM_POOLS && len == POOL_SIZES[liveChunks[a]] && a >= KBase() && (a - KBase()) / PAGE_SIZE == i
    {
      if a in liveChunks && len == POOL_SIZES[liveChunks[a]] {
        i := ChunkInPage(a);
        assert Pow2(0) == 1;
      } else {
        i :| i in fa.live && i !in chunkPages && a == KBase() + i * PAGE_SIZE && len == Pow2(fa.live[i]) * PAGE_SIZE;
        BlockIsNoChunk(KBase(), chunkPages, liveChunks, i, a);
      }
    }

    // Whatever was allocated and freed so far, the live allocations are pairwise disjoint
    // byte ranges.
    lemma AllocationsDisjoint(a: nat, len: nat, b: nat, len': nat)
      requires Valid() && IsAllocation(a, len) && IsAllocation(b, len') && a != b
      ensures a + len <= b || b + len' <= a
    {
      var i := AllocationInLiveFrames(a, len);
      var j := AllocationInLiveFrames(b, len');
      if i == j {
        SlotsOfPage(a, len, b, len', i);
      } else {
        assert Disjoint(i, fa.live[i], j, fa.live[j]);
        BlocksApart(i, Pow2(fa.live[i]), j, Pow2(fa.live[j]));
      }
    }

    lemma SlotsOfPage(a: nat, len: nat, b: nat, len': nat, f: nat)
      requires SlotsHold(KBase(), chunkPages, pools, liveChunks)
      requires a in liveChunks && b in liveChunks && a != b
      requires len == POOL_SIZES[liveChunks[a]] && len' == POOL_SIZES[liveChunks[b]]
      requires a >= KBase() && b >= KBase() && (a - KBase()) / PAGE_SIZE == f == (b - KBase()) / PAGE_SIZE
      ensures a + len <= b || b + len' <= a
    {
      assert IsChunk(KBase(), chunkPages, a, liveChunks[a]) && IsChunk(KBase(), chunkPages, b, liveChunks[b]);
      SlotsApart(KBase(), chunkPages, f, a, liveChunks[a], b);
    }

    lemma BlocksApart(i: nat, p: nat, j: nat, q: nat)
      requires i + p <= j || j + q <= i
      ensures (i + p) * PAGE_SIZE <= j * PAGE_SIZE || (j + q) * PAGE_SIZE <= i * PAGE_SIZE
    {
    }

    // A store of an aligned word by the owner of an allocation disturbs no free list. The
    // links are aligned words as well, so no store meets one in part.
    method OwnerStore(a: nat, len: nat, addr: nat, v: nat)
      requires Valid() && IsAllocation(a, len) && addr % WORD == 0 && a <= addr && addr + WORD <= a + len
      modifies this`mem
      ensures Valid() && mem == old(mem)[addr := v]
    {
      OwnerOutsideLists(a, len, addr);
      forall p: nat | p < NUM_POOLS
        ensures Chain(mem[addr := v], freeHead[p], pools[p])
      {
        ChainStore(mem, freeHead[p], pools[p], addr, v);
      }
      mem := mem[addr := v];
    }

    lemma OwnerOutsideLists(a: nat, len: nat, addr: nat)
      requires Valid() && IsAllocation(a, len) && a <= addr < a + len
      ensures forall p: nat :: p < NUM_POOLS ==> addr !in pools[p]
    {
      var i := AllocationInLiveFrames(a, len);
      forall p: nat | p < NUM_POOLS
        ensures addr !in pools[p]
      {
        if addr in pools[p] {
          assert IsChunk(KBase(), chunkPages, addr, p);
          var f := (addr - KBase()) / PAGE_SIZE;
          PageOf(KBase(), f, addr);
          FrameOfByte(i, f, addr);
          if i in chunkPages {
            SlotsApart(KBase(), chunkPages, i, a, liveChunks[a], addr);
          }
        }
      }
    }

    lemma InOneFrame(i: nat, p: nat, f: nat, addr: nat)
      requires KBase() + i * PAGE_SIZE <= addr < KBase() + (i + p) * PAGE_SIZE
      requires KBase() + f * PAGE_SIZE <= addr < KBase() + f * PAGE_SIZE + PAGE_SIZE
      ensures i <= f < i + p
    {
    }

    lemma FrameOfByte(i: nat, f: nat, addr: nat)
      requires Valid() && i in fa.live && f in chunkPages
      requires KBase() + i * PAGE_SIZE <= addr < KBase() + (i + Pow2(fa.live[i])) * PAGE_SIZE
      requires KBase() + f * PAGE_SIZE <= addr < KBase() + f * PAGE_SIZE + PAGE_SIZE
      ensures f == i
    {
      InOneFrame(i, Pow2(fa.live[i]), f, addr);
      assert f != i ==> Disjoint(i, fa.live[i], f, fa.live[f]);
    }
  }
}

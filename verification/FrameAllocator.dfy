/**
 The binary buddy allocator over frame_array: alloc_pages, free_pages and memory_reserve.
 */
module FrameAllocator {
  import opened Bits
  import opened FreeLists
  import opened BuddyOps
  import opened Sequences
  import opened PageLinks

  const PAGE_SIZE: nat := 4096
  const KERNEL_VA_OFFSET: nat := 0xffffffc000000000

  // Physical addresses stay below 2^38, so that adding KERNEL_VA_OFFSET does not wrap.
  const PHYS_LIMIT: nat := 0x4000000000

  // Blocks handed out and not yet given back, by head frame and order.
  type Live = map<nat, nat>

  ghost predicate LiveCovers(live: Live, f: nat)
  {
    exists i: nat :: i in live && Inside(f, i, live[i])
  }

  ghost predicate LivePlaced(n: nat, ls: Lists, live: Live)
  {
    && (forall i: nat :: i in live ==>
          live[i] <= MAX_ORDER && Aligned(i, live[i]) && i + Pow2(live[i]) <= n && Apart(ls, i, live[i]))
    && (forall i: nat, j: nat :: i in live && j in live && i != j ==> Disjoint(i, live[i], j, live[j]))
  }

  ghost predicate LiveTagged(pg: seq<Page>, live: Live)
  {
    forall i: nat :: i in live ==> i < |pg| && pg[i].order == live[i] && pg[i].state == USED && !pg[i].inFreeList
  }

  datatype Snapshot = Snapshot(n: nat, pages: seq<Page>, lists: Lists, live: Live)

  ghost predicate Consistent(s: Snapshot)
  {
    match s
    case Snapshot(n, pg, ls, live) =>
      && Placed(ls, n) && NoBuddies(ls)
      && LivePlaced(n, ls, live)
      && LiveTagged(pg, live)
  }

  // Frames that are neither free nor handed out.
  ghost function ReservedFrames(n: nat, ls: Lists, live: Live): set<nat>
  {
    set f: nat | f < n && !Covered(ls, f) && !LiveCovers(live, f)
  }

  function KernelPtrToPhys(addr: nat): nat
  {
    if addr >= KERNEL_VA_OFFSET then addr - KERNEL_VA_OFFSET else addr
  }

  lemma ApartIsUncovered(ls: Lists, i: nat, k: nat)
    ensures Apart(ls, i, k) <==> forall f: nat :: Inside(f, i, k) ==> !Covered(ls, f)
  {
    if !Apart(ls, i, k) {
      var m: nat, j: nat :| InList(ls, m, j) && !Disjoint(i, k, j, m);
      var f := if i < j then j else i;
      assert Inside(f, i, k) && Inside(f, j, m);
    }
  }

  lemma LivePlacedByFrames(n: nat, ls: Lists, r: Lists, live: Live)
    requires LivePlaced(n, ls, live)
    requires forall f: nat :: Covered(r, f) && !Covered(ls, f) ==> !LiveCovers(live, f)
    ensures LivePlaced(n, r, live)
  {
    forall i: nat | i in live
      ensures Apart(r, i, live[i])
    {
      ApartIsUncovered(ls, i, live[i]);
      ApartIsUncovered(r, i, live[i]);
      assert forall f: nat :: Inside(f, i, live[i]) ==> LiveCovers(live, f);
    }
  }

  // Handing out a block moves its frames from free to live and touches no other frame.
  lemma AllocLive(n: nat, ls: Lists, live: Live, k: nat)
    requires Placed(ls, n) && NoBuddies(ls) && LivePlaced(n, ls, live) && k <= MAX_ORDER
    requires Alloc(ls, k).Allocated?
    ensures var Allocated(i, r) := Alloc(ls, k);
            && i !in live && LivePlaced(n, r, live[i := k])
            && ReservedFrames(n, r, live[i := k]) == ReservedFrames(n, ls, live)
  {
    AllocCorrect(ls, n, k);
    var Allocated(i, r) := Alloc(ls, k);
    var live' := live[i := k];
    LivePlacedByFrames(n, ls, r, live);
    forall j: nat | j in live
      ensures j != i && Disjoint(i, k, j, live[j])
    {
      ApartIsUncovered(ls, j, live[j]);
      var f := if i < j then j else i;
      assert Disjoint(i, k, j, live[j]) || (Inside(f, i, k) && Inside(f, j, live[j]));
    }
    forall f: nat
      ensures LiveCovers(live', f) <==> LiveCovers(live, f) || Inside(f, i, k)
    {
      assert live'[i] == k;
      if LiveCovers(live, f) {
        var j: nat :| j in live && Inside(f, j, live[j]);
        assert live'[j] == live[j];
      }
    }
  }

  lemma LiveUncovered(n: nat, ls: Lists, live: Live)
    requires LivePlaced(n, ls, live)
    ensures forall j: nat :: j in live ==> !Covered(ls, j)
  {
    forall j: nat | j in live
      ensures !Covered(ls, j)
    {
      ApartIsUncovered(ls, j, live[j]);
      assert Inside(j, j, live[j]);
    }
  }

  lemma LiveOutside(n: nat, ls: Lists, live: Live, F: set<nat>)
    requires LivePlaced(n, ls, live) && F == FreeFrames(ls, n)
    ensures forall j: nat :: j in live ==> j !in F
  {
    forall j: nat | j in live
      ensures j !in F
    {
      ApartIsUncovered(ls, j, live[j]);
      assert Inside(j, j, live[j]);
    }
  }

  // Frames of T may be rewritten by work on the free lists ls and the loose block (i, k).
  ghost predicate Within(ls: Lists, i: nat, k: nat, T: set<nat>)
  {
    forall f: nat :: Covered(ls, f) || Inside(f, i, k) ==> f in T
  }

  lemma WithinStep(ls: Lists, n: nat, i: nat, k: nat, T: set<nat>)
    requires Loose(ls, n, i, k) && CanMerge(ls, n, i, k) && Within(ls, i, k, T)
    ensures var b := Xor(i, Pow2(k));
            && i in T && b in T && b < n
            && Within(Remove(ls, k, b), Lower(i, b), k + 1, T)
  {
    var b := Xor(i, Pow2(k));
    MergeStep(ls, n, i, k);
    assert Inside(i, i, k) && Inside(b, b, k);
  }

  lemma LiveHeadsOutside(n: nat, ls: Lists, live: Live, i: nat, T: set<nat>)
    requires LivePlaced(n, ls, live) && i in live
    requires T == FreeFrames(ls, n) + BlockFrames(i, live[i])
    ensures forall j: nat :: j in live && j != i ==> j !in T
  {
    forall j: nat | j in live && j != i
      ensures j !in T
    {
      ApartIsUncovered(ls, j, live[j]);
      assert Inside(j, j, live[j]);
    }
  }

  // Giving a block back moves its frames from live to free and touches no other frame.
  lemma FreeLive(n: nat, ls: Lists, live: Live, i: nat)
    requires Placed(ls, n) && NoBuddies(ls) && LivePlaced(n, ls, live) && i in live
    ensures var r := Merge(ls, n, i, live[i]);
            && Placed(r, n) && NoBuddies(r) && LivePlaced(n, r, live - {i})
            && ReservedFrames(n, r, live - {i}) == ReservedFrames(n, ls, live)
  {
    var r, live' := Merge(ls, n, i, live[i]), live - {i};
    MergeCorrect(ls, n, i, live[i]);
    forall f: nat
      ensures LiveCovers(live, f) <==> LiveCovers(live', f) || Inside(f, i, live[i])
    {
      if LiveCovers(live, f) {
        var j: nat :| j in live && Inside(f, j, live[j]);
        assert j != i ==> j in live' && live'[j] == live[j];
      }
      if LiveCovers(live', f) {
        var j: nat :| j in live' && Inside(f, j, live'[j]);
        assert j in live && live[j] == live'[j];
      }
    }
    assert LivePlaced(n, ls, live');
    LivePlacedByFrames(n, ls, r, live');
  }

  // Merging the loose block (i, k) into ls gives goal, and rewrites frames of T only.
  ghost predicate Merging(ls: Lists, n: nat, i: nat, k: nat, T: set<nat>, goal: Lists)
  {
    true == (Loose(ls, n, i, k) && Within(ls, i, k, T) && i in T && Merge(ls, n, i, k) == goal)
  }

  lemma MergingStep(ls: Lists, n: nat, i: nat, k: nat, T: set<nat>, goal: Lists)
    requires Merging(ls, n, i, k, T, goal) && CanMerge(ls, n, i, k)
    ensures i in T && Xor(i, Pow2(k)) in T
    ensures Merging(Remove(ls, k, Xor(i, Pow2(k))), n, Lower(i, Xor(i, Pow2(k))), k + 1, T, goal)
  {
    WithinStep(ls, n, i, k, T);
    MergeStep(ls, n, i, k);
  }

  lemma MergingEnd(ls: Lists, n: nat, i: nat, k: nat, T: set<nat>, goal: Lists)
    requires Merging(ls, n, i, k, T, goal) && !CanMerge(ls, n, i, k)
    ensures Add(ls, k, i) == goal
  {
  }

  lemma MetaKeptStep(pg: seq<Page>, pg1: seq<Page>, pg2: seq<Page>, n: nat, F: set<nat>, a: nat, b: nat)
    requires MetaKept(pg, pg1, n, F) && |pg2| == |pg1| && a in F && b in F
    requires forall p: nat :: p < n && p != a && p != b ==> SameMeta(pg1[p], pg2[p])
    ensures MetaKept(pg, pg2, n, F)
  {
  }

  // The pages outside F keep everything but their links.
  ghost predicate MetaKept(pg: seq<Page>, pg': seq<Page>, n: nat, F: set<nat>)
  {
    true == (n <= |pg| == |pg'| && forall q: nat :: q < n && q !in F ==> SameMeta(pg[q], pg'[q]))
  }

  lemma MetaKeptTwice(pg: seq<Page>, pg1: seq<Page>, pg2: seq<Page>, n: nat, F: set<nat>)
    requires MetaKept(pg, pg1, n, F) && MetaKept(pg1, pg2, n, F)
    ensures MetaKept(pg, pg2, n, F)
  {
  }

  // Pages of no free block and outside the block (i, k) keep everything but their links.
  ghost predicate OthersKept(pg: seq<Page>, pg': seq<Page>, n: nat, ls: Lists, i: nat, k: nat)
  {
    true == (n <= |pg| == |pg'| && forall p: nat :: p < n && !Covered(ls, p) && !Inside(p, i, k) ==> SameMeta(pg[p], pg'[p]))
  }

  lemma OthersKeptStep(pg: seq<Page>, pg1: seq<Page>, pg2: seq<Page>, n: nat, ls: Lists, i: nat, k: nat, a: nat, b: nat)
    requires OthersKept(pg, pg1, n, ls, i, k) && |pg2| == |pg1| && Inside(a, i, k) && Inside(b, i, k)
    requires forall p: nat :: p < n && p != a && p != b ==> SameMeta(pg1[p], pg2[p])
    ensures OthersKept(pg, pg2, n, ls, i, k)
  {
  }

  // The walk of memory_reserve over the list l of one order is at p, element i, and none of
  // the elements before it touches frames [s, e).
  ghost predicate Walking(h: nat, l: seq<nat>, i: nat, p: nat, order: nat, s: nat, e: nat)
  {
    true == (i <= |l| && p == At(h, l, i + 1) && forall a :: 0 <= a < i ==> !Touches(l[a], order, s, e))
  }

  lemma WalkAt(pg: seq<Page>, n: nat, ls: Lists, i: nat, p: nat, order: nat, s: nat, e: nat)
    requires ListsOk(pg, n, ls) && order <= MAX_ORDER && order < |ls|
    requires Walking(n + order, ls[order], i, p, order, s, e) && p != n + order
    ensures i < |ls[order]| && p == ls[order][i] && InList(ls, order, p) && NoDup(ls[order])
    ensures p < n && p < |pg| && pg[p].next == At(n + order, ls[order], i + 2)
  {
    AtHeadIsEnd(pg, n + order, ls[order], i);
    RingNeighbours(pg, n + order, ls[order], i);
    assert InList(ls, order, p);
  }

  lemma WalkPast(h: nat, l: seq<nat>, i: nat, p: nat, order: nat, s: nat, e: nat)
    requires Walking(h, l, i, p, order, s, e) && i < |l| && p == l[i] && !Touches(p, order, s, e)
    ensures Walking(h, l, i + 1, At(h, l, i + 2), order, s, e)
  {
  }

  lemma WalkTaken(h: nat, l: seq<nat>, i: nat, p: nat, order: nat, s: nat, e: nat)
    requires Walking(h, l, i, p, order, s, e) && i < |l| && p == l[i] && NoDup(l)
    ensures Walking(h, Without(l, p), i, At(h, l, i + 2), order, s, e)
    ensures |Without(l, p)| == |l| - 1
  {
    WithoutAt(l, i);
  }

  // The rest of the walk over list k, from element i on, gives goal.
  ghost predicate Gives(ls: Lists, k: nat, i: nat, s: nat, e: nat, goal: Lists)
  {
    true == (k < |ls| && i <= |ls[k]| && ReserveList(ls, k, ls[k][i..], s, e) == goal)
  }

  lemma GivesPast(ls: Lists, k: nat, i: nat, s: nat, e: nat, goal: Lists)
    requires Gives(ls, k, i, s, e, goal) && i < |ls[k]| && !Touches(ls[k][i], k, s, e)
    ensures Gives(ls, k, i + 1, s, e, goal)
  {
  }

  lemma GivesEnd(ls: Lists, k: nat, i: nat, s: nat, e: nat, goal: Lists)
    requires Gives(ls, k, i, s, e, goal) && i == |ls[k]|
    ensures ls == goal
  {
  }

  lemma GivesTaken(ls: Lists, r: Lists, k: nat, i: nat, s: nat, e: nat, goal: Lists)
    requires Gives(ls, k, i, s, e, goal) && i < |ls[k]| && Touches(ls[k][i], k, s, e) && NoDup(ls[k])
    requires r == ReserveOne(ls, k, ls[k][i], s, e) && r[k] == Without(ls[k], ls[k][i])
    ensures Gives(r, k, i, s, e, goal)
  {
    var l := ls[k];
    WithoutAt(l, i);
    assert r[k][i..] == l[i + 1..] == l[i..][1..];
  }

  lemma WalkDone(pg: seq<Page>, n: nat, ls: Lists, i: nat, order: nat, s: nat, e: nat)
    requires ListsOk(pg, n, ls) && order <= MAX_ORDER && order < |ls|
    requires Walking(n + order, ls[order], i, n + order, order, s, e) && Cleared(ls, order + 1, s, e)
    ensures Cleared(ls, order, s, e) && i == |ls[order]|
  {
    AtHeadIsEnd(pg, n + order, ls[order], i);
  }

  class Allocator {
    const base: nat          // managed_base
    const n: nat             // frame_count
    const pages: array<Page> // frame_array, then free_area
    ghost var lists: Lists
    ghost var live: Live

    ghost predicate Shape()
      reads this, pages
    {
      && base % PAGE_SIZE == 0 && base + n * PAGE_SIZE <= PHYS_LIMIT
      && pages.Length == n + MAX_ORDER + 1
      && ListsOk(pages[..], n, lists)
    }

    ghost predicate Valid()
      reads this, pages
    {
      Shape() && Consistent(Snapshot(n, pages[..], lists, live))
    }

    // mm_init steps 5 to 7: empty lists, untagged frames, then every frame into the lists
    // as the largest aligned blocks that fit.
    constructor (base: nat, n: nat)
      requires base % PAGE_SIZE == 0 && base + n * PAGE_SIZE <= PHYS_LIMIT
      ensures Valid() && fresh(pages) && this.base == base && this.n == n
      ensures live == map[] && forall f: nat :: f < n ==> Covered(lists, f)
    {
      this.base := base;
      this.n := n;
      var untagged := Page(-1, USED, false, 0, -1, NIL, NIL);
      pages := new Page[n + MAX_ORDER + 1](_ => untagged);
      lists := EmptyLists();
      live := map[];
      new;
      for k := 0 to MAX_ORDER + 1
        invariant live == map[] && lists == EmptyLists()
        invariant forall p :: 0 <= p < n ==> pages[p] == untagged
        invariant forall p :: n <= p < n + k ==> pages[p].next == p && pages[p].prev == p
      {
        pages[n + k] := pages[n + k].(next := n + k, prev := n + k);
      }
      EmptyListsOk(pages[..], n);
      EmptyGreedy(n);
      FillLists();
    }

    // mm_init step 7.
    method FillLists()
      requires Shape() && GreedyUpTo(lists, n, 0)
      modifies pages, this`lists
      ensures Shape() && GreedyUpTo(lists, n, n)
    {
      var idx := 0;
      while idx < n
        invariant idx <= n && Shape() && GreedyUpTo(lists, n, idx)
      {
        var order := LargestFit(idx);
        GreedyStep(lists, n, idx, order);
        LooseOffList(idx, order);
        AddFreeBlock(idx, order);
        idx := idx + Pow2(order);
      }
    }

    method LargestFit(idx: nat) returns (order: nat)
      requires idx < n
      ensures order <= MAX_ORDER && Aligned(idx, order) && idx + Pow2(order) <= n
      ensures order < MAX_ORDER ==> !(Aligned(idx, order + 1) && idx + Pow2(order + 1) <= n)
    {
      order := MAX_ORDER;
      while true
        invariant order <= MAX_ORDER
        invariant order < MAX_ORDER ==> !(Aligned(idx, order + 1) && idx + Pow2(order + 1) <= n)
        decreases order
      {
        AlignedIsMod(idx, order);
        if idx % Pow2(order) == 0 && idx + Pow2(order) <= n {
          return;
        }
        order := order - 1;
      }
    }

    // The chunk allocator records in struct page which pool a page was cut up for.
    method TagChunkPage(idx: nat, chunkSize: nat, pool: nat)
      requires Valid() && idx in live
      modifies pages
      ensures Valid()
      ensures pages[idx].chunkSize == chunkSize && pages[idx].chunkPool == pool
      ensures forall p: nat :: p < n && p != idx ==> pages[p] == old(pages[p])
    {
      assert Inside(idx, idx, live[idx]);
      ListsOkRetag(pages[..], n, lists, idx, pages[idx].(chunkSize := chunkSize, chunkPool := pool));
      pages[idx] := pages[idx].(chunkSize := chunkSize, chunkPool := pool);
    }

    function FrameAddr(idx: nat): nat
    {
      base + idx * PAGE_SIZE
    }

    // ---------- circular doubly linked list ----------

    method ListAdd(head: nat, node: nat)
      requires head < pages.Length && node < pages.Length && head != node
      requires 0 <= pages[head].next < pages.Length && pages[head].next != node
      modifies pages
      ensures Linked(old(pages[..]), pages[..], head, node)
      ensures forall p: nat :: p < pages.Length ==> SameMeta(old(pages[p]), pages[p])
    {
      pages[node] := pages[node].(next := pages[head].next);
      pages[node] := pages[node].(prev := head);
      var succ := pages[head].next;
      pages[succ] := pages[succ].(prev := node);
      pages[head] := pages[head].(next := node);
    }

    method ListDel(node: nat)
      requires node < pages.Length
      requires 0 <= pages[node].prev < pages.Length && 0 <= pages[node].next < pages.Length
      requires pages[node].prev != node && pages[node].next != node
      modifies pages
      ensures Unlinked(old(pages[..]), pages[..], node)
      ensures forall p: nat :: p < pages.Length ==> SameMeta(old(pages[p]), pages[p])
      ensures pages[node].next == NIL && pages[node].prev == NIL
    {
      var before, after := pages[node].prev, pages[node].next;
      pages[before] := pages[before].(next := after);
      pages[after] := pages[after].(prev := before);
      pages[node] := pages[node].(next := NIL);
      pages[node] := pages[node].(prev := NIL);
    }

    // ---------- free-area operations ----------

    method AddFreeBlock(idx: nat, order: nat)
      requires Shape() && idx < n && order <= MAX_ORDER && !pages[idx].inFreeList
      modifies pages, this`lists
      ensures Shape() && lists == Add(old(lists), order, idx)
      ensures forall p: nat :: p < n && p != idx ==> SameMeta(old(pages[p]), pages[p])
    {
      ghost var before := pages[..];
      pages[idx] := pages[idx].(order := order, state := FREE, inFreeList := true, chunkSize := 0, chunkPool := -1);
      assert 0 <= before[n + order].next < |before| && before[n + order].next != idx by {
        assert before[At(n + order, lists[order], 0)].next == At(n + order, lists[order], 1);
        assert !InList(lists, order, idx);
      }
      ListAdd(n + order, idx);
      ListsOkAdd(before, pages[..], n, lists, order, idx);
      lists := Add(lists, order, idx);
    }

    method RemoveFreeBlock(idx: nat)
      requires Shape() && idx < n && pages[idx].inFreeList
      modifies pages, this`lists
      ensures 0 <= old(pages[idx]).order <= MAX_ORDER && InList(old(lists), old(pages[idx]).order, idx)
      ensures Shape() && lists == Remove(old(lists), old(pages[idx]).order, idx)
      ensures !pages[idx].inFreeList
      ensures forall p: nat :: p < n && p != idx ==> SameMeta(old(pages[p]), pages[p])
    {
      ghost var before := pages[..];
      ghost var k: nat := pages[idx].order;
      LinksOf(before, n, lists, k, idx);
      ListDel(idx);
      pages[idx] := pages[idx].(inFreeList := false);
      ListsOkDel(before, pages[..], n, lists, k, idx);
      lists := Remove(lists, k, idx);
    }

    // ---------- alloc_pages ----------

    // The splitting loop of alloc_pages: cut the block of order c at page down to order.
    method SplitBlock(page: nat, c: nat, order: nat)
      requires Shape() && Loose(lists, n, page, c) && order <= c
      requires page < n && !pages[page].inFreeList
      modifies pages, this`lists
      ensures Shape() && lists == Split(old(lists), page, c, order)
      ensures !pages[page].inFreeList
      ensures OthersKept(old(pages[..]), pages[..], n, old(lists), page, c)
    {
      ghost var R, pg := lists, pages[..];
      var current := c;
      while current > order
        invariant order <= current <= c && Shape() && !pages[page].inFreeList
        invariant lists == Split(R, page, c, current) && OthersKept(pg, pages[..], n, R, page, c)
      {
        SplitOnce(page, c, current, R, pg);
        current := current - 1;
      }
    }

    // One turn of the loop: the upper half of the block that is left goes on a list.
    method SplitOnce(page: nat, c: nat, current: nat, ghost R: Lists, ghost pg: seq<Page>)
      requires Shape() && Loose(R, n, page, c) && 0 < current <= c && lists == Split(R, page, c, current)
      requires page < n && !pages[page].inFreeList && OthersKept(pg, pages[..], n, R, page, c)
      modifies pages, this`lists
      ensures Shape() && lists == Split(R, page, c, current - 1)
      ensures !pages[page].inFreeList && OthersKept(pg, pages[..], n, R, page, c)
    {
      ghost var before := pages[..];
      var child := current - 1;
      var buddy := page + Pow2(child);
      SplitHalf(R, n, page, c, child);
      AddFreeBlock(buddy, child);
      ListsOkRetag(pages[..], n, lists, page, pages[page].(order := child));
      pages[page] := pages[page].(order := child);
      OthersKeptStep(pg, before, pages[..], n, R, page, c, page, buddy);
    }

    // The body of alloc_pages once list c is known to be the first that is not empty.
    method TakeBlock(page: nat, c: nat, order: nat) returns (addr: nat)
      requires Valid() && order <= c <= MAX_ORDER && c == FirstNonEmpty(lists, order)
      requires lists[c] != [] && page == lists[c][0]
      modifies pages, this`lists, this`live
      ensures Valid()
      ensures Alloc(old(lists), order) == Allocated(page, lists)
      ensures page < n && addr == FrameAddr(page) + KERNEL_VA_OFFSET
      ensures page !in old(live) && live == old(live)[page := order]
      ensures pages[page].chunkSize == 0
      ensures ReservedFrames(n, lists, live) == ReservedFrames(n, old(lists), old(live))
      ensures forall p: nat :: p < n && !Covered(old(lists), p) ==> SameMeta(old(pages[p]), pages[p])
    {
      ghost var L := lists;
      assert InList(L, c, page);
      assert Remove(L, c, page) == L[c := L[c][1..]];
      RemovePlaced(L, n, c, page);
      RemoveFreeBlock(page);
      SplitBlock(page, c, order);
      AllocCorrect(L, n, order);
      AllocLive(n, L, live, order);
      ghost var used := pages[page].(order := order, state := USED, inFreeList := false, chunkSize := 0, chunkPool := -1);
      ListsOkRetag(pages[..], n, lists, page, used);
      pages[page] := pages[page].(order := order, state := USED, inFreeList := false, chunkSize := 0, chunkPool := -1);
      LiveUncovered(n, L, live);
      live := live[page := order];
      return FrameAddr(page) + KERNEL_VA_OFFSET;
    }

    method AllocPages(order: nat) returns (addr: nat)
      requires Valid()
      modifies pages, this`lists, this`live
      ensures Valid()
      ensures match Alloc(old(lists), order)
              case OutOfMemory => addr == 0 && lists == old(lists) && live == old(live)
              case Allocated(i, rest) =>
                && i < n && addr == FrameAddr(i) + KERNEL_VA_OFFSET
                && lists == rest && i !in old(live) && live == old(live)[i := order]
                && pages[i].chunkSize == 0
      ensures ReservedFrames(n, lists, live) == ReservedFrames(n, old(lists), old(live))
      ensures forall p: nat :: p < n && !Covered(old(lists), p) ==> SameMeta(old(pages[p]), pages[p])
    {
      if order > MAX_ORDER {
        return 0;
      }
      var current: nat := order;
      while current <= MAX_ORDER
        invariant order <= current <= MAX_ORDER + 1 && current <= FirstNonEmpty(lists, order)
        invariant pages[..] == old(pages[..]) && lists == old(lists) && live == old(live)
      {
        var head := n + current;
        FirstOnList(pages[..], n, lists, current);
        if pages[head].next != head {
          var page: nat := pages[head].next;
          addr := TakeBlock(page, current, order);
          return;
        }
        current := current + 1;
      }
      return 0;
    }

    // ---------- free_pages ----------

    predicate InManagedRange(addr: nat)
    {
      base <= addr < base + n * PAGE_SIZE
    }

    // The pointers free_pages acts on; it ignores every other value.
    predicate IsFrameAddr(addr: nat)
    {
      addr != 0 && InManagedRange(KernelPtrToPhys(addr)) && KernelPtrToPhys(addr) % PAGE_SIZE == 0
    }

    function FrameIndex(addr: nat): nat
      requires InManagedRange(KernelPtrToPhys(addr))
    {
      (KernelPtrToPhys(addr) - base) / PAGE_SIZE
    }

    // The pointers acted on are just those to the first byte of a managed frame, physical or
    // in the kernel's half.
    lemma FrameAddrMeans(addr: nat, i: nat)
      requires base % PAGE_SIZE == 0 && base + n * PAGE_SIZE <= PHYS_LIMIT
      ensures IsFrameAddr(addr) && FrameIndex(addr) == i <==>
                i < n && addr != 0 && (addr == base + i * 4096 || addr == base + i * 4096 + 0xffff_ffc0_0000_0000)
    {
      if i < n && addr != 0 && (addr == base + i * 4096 || addr == base + i * 4096 + 0xffff_ffc0_0000_0000) {
        assert KernelPtrToPhys(addr) == base + i * PAGE_SIZE;
      }
    }

    // A page whose block is disjoint from every free block is on no free list.
    lemma LooseOffList(i: nat, k: nat)
      requires Shape() && Apart(lists, i, k) && i < n
      ensures !pages[i].inFreeList
    {
    }

    // A merge: the buddy leaves its list, and the lower head becomes that of the whole block.
    method AbsorbBuddy(idx: nat, order: nat, buddyIdx: nat) returns (idx': nat)
      requires Shape() && Loose(lists, n, idx, order) && CanMerge(lists, n, idx, order)
      requires buddyIdx == Xor(idx, Pow2(order)) && pages[buddyIdx].inFreeList && pages[buddyIdx].order == order
      modifies pages, this`lists
      ensures Shape() && lists == Remove(old(lists), order, buddyIdx)
      ensures idx' == Lower(idx, buddyIdx) && Loose(lists, n, idx', order + 1) && !pages[idx'].inFreeList
      ensures forall p: nat :: p < n && p != idx && p != buddyIdx ==> SameMeta(old(pages[p]), pages[p])
    {
      MergeStep(lists, n, idx, order);
      RemoveFreeBlock(buddyIdx);
      idx' := idx;
      if buddyIdx < idx {
        idx' := buddyIdx;
      }
      assert Inside(idx', idx', order + 1);
      LooseOffList(idx', order + 1);
      RaiseOrder(idx', order + 1);
    }

    method RaiseOrder(idx: nat, order: nat)
      requires Shape() && idx < n && !pages[idx].inFreeList
      modifies pages
      ensures Shape() && !pages[idx].inFreeList
      ensures forall p: nat :: p < n && p != idx ==> pages[p] == old(pages[p])
    {
      ListsOkRetag(pages[..], n, lists, idx, pages[idx].(order := order, state := FREE));
      pages[idx] := pages[idx].(order := order, state := FREE);
    }

    // The merging loop of free_pages and its final add_free_block, on a block that is on
    // no list.
    method MergeUp(idx0: nat, order0: nat, ghost T: set<nat>)
      requires Shape() && Loose(lists, n, idx0, order0) && Within(lists, idx0, order0, T)
      modifies pages, this`lists
      ensures Shape() && lists == Merge(old(lists), n, idx0, order0)
      ensures MetaKept(old(pages[..]), pages[..], n, T)
    {
      var idx, order := idx0, order0;
      ghost var goal := Merge(lists, n, idx0, order0);
      assert Inside(idx, idx, order);
      ghost var pg := pages[..];
      while order < MAX_ORDER
        invariant Shape() && Merging(lists, n, idx, order, T, goal) && MetaKept(pg, pages[..], n, T)
        decreases MAX_ORDER - order
      {
        var merged;
        idx, merged := MergeOnce(idx, order, T, goal, pg);
        if !merged {
          break;
        }
        order := order + 1;
      }
      LooseOffList(idx, order);
      MergingEnd(lists, n, idx, order, T, goal);
      ghost var before := pages[..];
      AddFreeBlock(idx, order);
      MetaKeptStep(pg, before, pages[..], n, T, idx, idx);
    }

    // One turn of the loop: the block absorbs its buddy if that is free and of its order.
    method MergeOnce(idx: nat, order: nat, ghost T: set<nat>, ghost goal: Lists, ghost pg: seq<Page>) returns (next: nat, merged: bool)
      requires Shape() && order < MAX_ORDER && Merging(lists, n, idx, order, T, goal) && MetaKept(pg, pages[..], n, T)
      modifies pages, this`lists
      ensures Shape() && MetaKept(pg, pages[..], n, T)
      ensures Merging(lists, n, next, if merged then order + 1 else order, T, goal)
      ensures !merged ==> next == idx && !CanMerge(lists, n, idx, order)
    {
      next, merged := idx, false;
      var buddyIdx := Xor(idx, Pow2(order));
      if buddyIdx >= n {
        return;
      }
      MergeTest(pages[..], n, lists, order, buddyIdx);
      if !pages[buddyIdx].inFreeList || pages[buddyIdx].state != FREE || pages[buddyIdx].order != order {
        return;
      }
      ghost var before, ls := pages[..], lists;
      next := AbsorbBuddy(idx, order, buddyIdx);
      merged := true;
      MergingStep(ls, n, idx, order, T, goal);
      MetaKeptStep(pg, before, pages[..], n, T, idx, buddyIdx);
    }

    // The body of free_pages once the pointer is known to be a live frame address.
    method ReturnBlock(idx0: nat)
      requires Valid() && idx0 in live
      modifies pages, this`lists, this`live
      ensures Valid()
      ensures lists == Merge(old(lists), n, idx0, old(live)[idx0]) && live == old(live) - {idx0}
      ensures ReservedFrames(n, lists, live) == ReservedFrames(n, old(lists), old(live))
      ensures forall p: nat :: p in live ==> SameMeta(old(pages[p]), pages[p])
    {
      ghost var k0, L := live[idx0], lists;
      ghost var T := FreeFrames(L, n) + BlockFrames(idx0, k0);
      LiveHeadsOutside(n, L, live, idx0, T);
      FreeLive(n, L, live, idx0);
      assert Inside(idx0, idx0, k0);
      var order := pages[idx0].order;
      ListsOkRetag(pages[..], n, lists, idx0, pages[idx0].(state := FREE, chunkSize := 0, chunkPool := -1));
      pages[idx0] := pages[idx0].(state := FREE, chunkSize := 0, chunkPool := -1);
      MergeUp(idx0, order, T);
      live := live - {idx0};
    }

    method FreePages(addr: nat)
      requires Valid()
      requires IsFrameAddr(addr) ==> FrameIndex(addr) in live
      modifies pages, this`lists, this`live
      ensures Valid()
      ensures !IsFrameAddr(addr) ==> lists == old(lists) && live == old(live) && pages[..] == old(pages[..])
      ensures IsFrameAddr(addr) ==>
                var i := FrameIndex(addr);
                && lists == Merge(old(lists), n, i, old(live)[i])
                && live == old(live) - {i}
      ensures ReservedFrames(n, lists, live) == ReservedFrames(n, old(lists), old(live))
      ensures forall p: nat :: p in live ==> SameMeta(old(pages[p]), pages[p])
    {
      if addr == 0 {
        return;
      }
      var a := KernelPtrToPhys(addr);
      if !InManagedRange(a) {
        return;
      }
      if a % PAGE_SIZE != 0 {
        return;
      }
      ReturnBlock(FrameIndex(addr));
    }

    // ---------- memory_reserve ----------

    // Some byte of frame f lies in [start, start + size).
    predicate Touched(f: nat, start: nat, size: nat)
    {
      size > 0 && FrameAddr(f) < start + size && start < FrameAddr(f) + PAGE_SIZE
    }

    // A block that is only partly inside the range is cut in two.
    method CutInTwo(p: nat, order: nat)
      requires Shape() && Placed(lists, n) && InList(lists, order, p) && 0 < order
      modifies pages, this`lists
      ensures Shape() && lists == Halve(old(lists), order, p)
      ensures forall q: nat :: q < n && !Covered(old(lists), q) ==> SameMeta(old(pages[q]), pages[q])
    {
      HalvePlaced(lists, n, order, p);
      var child := order - 1;
      var half := Pow2(child);
      assert Inside(p, p, order) && Inside(p + half, p, order);
      RemoveFreeBlock(p);
      AddFreeBlock(p, child);
      AddFreeBlock(p + half, child);
    }

    // The stores that end the life of a free block.
    method MarkUsed(p: nat, order: nat)
      requires Shape() && p < n && !pages[p].inFreeList
      modifies pages
      ensures Shape() && pages[p] == old(pages[p]).(order := order, state := USED, chunkSize := 0, chunkPool := -1)
      ensures forall q: nat :: q < pages.Length && q != p ==> pages[q] == old(pages[q])
    {
      ghost var used := pages[p].(order := order, state := USED, inFreeList := false, chunkSize := 0, chunkPool := -1);
      ListsOkRetag(pages[..], n, lists, p, used);
      pages[p] := pages[p].(order := order, state := USED, inFreeList := false, chunkSize := 0, chunkPool := -1);
    }

    // Take the block at p, which touches frames [s, e), off the list of its order, and put
    // its halves back when it is only partly inside.
    method ReserveBlock(p: nat, order: nat, s: nat, e: nat, ghost F: set<nat>)
      requires Shape() && Reserving(lists, n, F, s, e) && s < e
      requires InList(lists, order, p) && Touches(p, order, s, e) && Cleared(lists, order + 1, s, e)
      modifies pages, this`lists
      ensures Shape() && Reserving(lists, n, F, s, e) && Cleared(lists, order + 1, s, e)
      ensures lists == ReserveOne(old(lists), order, p, s, e) && lists[order] == Without(old(lists)[order], p)
      ensures MetaKept(old(pages[..]), pages[..], n, F)
    {
      assert Inside(p, p, order) && p in FreeFrames(lists, n);
      var blockEnd := p + Pow2(order);
      if (s <= p && blockEnd <= e) || order == 0 {
        ReserveWhole(lists, n, F, s, e, order, p);
        RemoveFreeBlock(p);
        MarkUsed(p, order);
      } else {
        ReserveSplit(lists, n, F, s, e, order, p);
        assert forall q: nat :: q < n && Covered(lists, q) ==> q in FreeFrames(lists, n);
        CutInTwo(p, order);
      }
    }

    // The walk over one list, which loses elements under the walker's feet.
    method ReserveOrder(order: nat, s: nat, e: nat, ghost F: set<nat>)
      requires Shape() && Reserving(lists, n, F, s, e) && s < e
      requires order <= MAX_ORDER && Cleared(lists, order + 1, s, e)
      modifies pages, this`lists
      ensures Shape() && Reserving(lists, n, F, s, e) && Cleared(lists, order, s, e)
      ensures order < |old(lists)| && lists == ReserveList(old(lists), order, old(lists)[order], s, e)
      ensures MetaKept(old(pages[..]), pages[..], n, F)
    {
      assert order < |lists|;
      ghost var goal := ReserveList(lists, order, lists[order], s, e);
      assert lists[order][0..] == lists[order];
      var head := n + order;
      FirstOnList(pages[..], n, lists, order);
      var p: nat := pages[head].next;
      ghost var i := 0;
      ghost var pg := pages[..];
      while p != head
        invariant Shape() && Reserving(lists, n, F, s, e) && Cleared(lists, order + 1, s, e)
        invariant Walking(head, lists[order], i, p, order, s, e) && Gives(lists, order, i, s, e, goal)
        invariant MetaKept(pg, pages[..], n, F)
        decreases |lists[order]| - i
      {
        p, i := WalkOn(order, s, e, F, p, i, goal, pg);
      }
      WalkDone(pages[..], n, lists, i, order, s, e);
      GivesEnd(lists, order, i, s, e, goal);
    }

    // One turn of the walk: the block at p stays or goes.
    method WalkOn(order: nat, s: nat, e: nat, ghost F: set<nat>, p: nat, ghost i: nat, ghost goal: Lists, ghost pg: seq<Page>)
      returns (next: nat, ghost j: nat)
      requires Shape() && Reserving(lists, n, F, s, e) && Cleared(lists, order + 1, s, e) && MetaKept(pg, pages[..], n, F)
      requires s < e && order <= MAX_ORDER && p != n + order
      requires Walking(n + order, lists[order], i, p, order, s, e) && Gives(lists, order, i, s, e, goal)
      modifies pages, this`lists
      ensures Shape() && Reserving(lists, n, F, s, e) && Cleared(lists, order + 1, s, e) && MetaKept(pg, pages[..], n, F)
      ensures Walking(n + order, lists[order], j, next, order, s, e) && Gives(lists, order, j, s, e, goal)
      ensures i < |old(lists)[order]| && |lists[order]| - j < |old(lists)[order]| - i
    {
      ghost var ls, before := lists, pages[..];
      WalkAt(before, n, ls, i, p, order, s, e);
      next, j := pages[p].next, i;
      var blockEnd := p + Pow2(order);
      if blockEnd <= s || p >= e {
        WalkPast(n + order, ls[order], i, p, order, s, e);
        GivesPast(ls, order, i, s, e, goal);
        j := i + 1;
      } else {
        WalkTaken(n + order, ls[order], i, p, order, s, e);
        ReserveBlock(p, order, s, e, F);
        GivesTaken(ls, lists, order, i, s, e, goal);
        MetaKeptTwice(pg, before, pages[..], n, F);
      }
    }

    // Frames [s, e) of the page-rounded range are the frames the byte range touches.
    lemma ReservedRange(start: nat, size: nat, from: nat, to: nat, s: nat, e: nat)
      requires base % PAGE_SIZE == 0 && size > 0 && n > 0
      requires start + size > base && start < base + n * PAGE_SIZE
      requires from == if start < base then base else start
      requires to == if start + size > base + n * PAGE_SIZE then base + n * PAGE_SIZE else start + size
      requires s == (AlignDown(from, PAGE_SIZE) - base) / PAGE_SIZE
      requires e == (AlignUp(to, PAGE_SIZE) - base) / PAGE_SIZE
      ensures s < e <= n
      ensures forall f: nat :: f < n ==> (s <= f < e <==> Touched(f, start, size))
    {
      var b := base / PAGE_SIZE;
      assert base == b * PAGE_SIZE;
      assert s == from / PAGE_SIZE - b && e == (to + PAGE_SIZE - 1) / PAGE_SIZE - b;
    }

    // [s, e) are the frames of the range.
    method MemoryReserve(start: nat, size: nat) returns (ghost s: nat, ghost e: nat)
      requires Valid()
      modifies pages, this`lists
      ensures Valid()
      ensures lists == Reserve(old(lists), s, e) && forall f: nat :: f < n ==> (s <= f < e <==> Touched(f, start, size))
      ensures FreeFrames(lists, n) == set f | f in FreeFrames(old(lists), n) && !Touched(f, start, size)
      ensures forall p: nat :: p in live ==> SameMeta(old(pages[p]), pages[p])
    {
      s, e := 0, 0;
      if size == 0 {
        return;
      }
      if n == 0 {
        return;
      }
      var end := start + size;
      var managedEnd := base + n * PAGE_SIZE;
      if end <= base || start >= managedEnd {
        return;
      }
      var from := if start < base then base else start;
      var to := if end > managedEnd then managedEnd else end;
      var reserveStart := AlignDown(from, PAGE_SIZE);
      var reserveEnd := AlignUp(to, PAGE_SIZE);
      var first := (reserveStart - base) / PAGE_SIZE;
      var limit := (reserveEnd - base) / PAGE_SIZE;
      ReservedRange(start, size, from, to, first, limit);
      if limit > n {
        limit := n;
      }
      s, e := first, limit;
      ghost var L := lists;
      ReserveFrames(first, limit);
      FinishReserve(start, size, s, e, L);
    }

    // The loop over the orders.
    method ReserveFrames(s: nat, e: nat)
      requires Valid() && s < e
      modifies pages, this`lists
      ensures Shape() && lists == Reserve(old(lists), s, e)
      ensures Reserving(lists, n, FreeFrames(old(lists), n), s, e) && Cleared(lists, 0, s, e)
      ensures MetaKept(old(pages[..]), pages[..], n, FreeFrames(old(lists), n))
    {
      hide Ring, MetaOk;
      ghost var F, goal := FreeFrames(lists, n), Reserve(lists, s, e);
      var order: nat := MAX_ORDER + 1;
      while order > 0
        invariant order <= MAX_ORDER + 1 && order <= |lists|
        invariant Shape() && Reserving(lists, n, F, s, e) && Cleared(lists, order, s, e)
        invariant ReserveBelow(lists, order, s, e) == goal
        invariant MetaKept(old(pages[..]), pages[..], n, F)
      {
        order := order - 1;
        ReserveOrder(order, s, e, F);
      }
    }

    lemma FinishReserve(start: nat, size: nat, s: nat, e: nat, L: Lists)
      requires Shape() && LivePlaced(n, L, live)
      requires Reserving(lists, n, FreeFrames(L, n), s, e) && Cleared(lists, 0, s, e) && s < e
      requires forall f: nat :: f < n ==> (s <= f < e <==> Touched(f, start, size))
      ensures NoBuddies(lists) && LivePlaced(n, lists, live)
      ensures FreeFrames(lists, n) == set f | f in FreeFrames(L, n) && !Touched(f, start, size)
      ensures forall j: nat :: j in live ==> j !in FreeFrames(L, n)
    {
      ReserveDone(lists, n, FreeFrames(L, n), s, e);
      LiveOutside(n, L, live, FreeFrames(L, n));
      forall f: nat | Covered(lists, f)
        ensures Covered(L, f)
      {
        var m: nat, j: nat :| InList(lists, m, j) && Inside(f, j, m);
        assert f in FreeFrames(lists, n);
      }
      LivePlacedByFrames(n, L, lists, live);
    }
  }
}

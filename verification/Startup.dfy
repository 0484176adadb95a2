/**
 Early boot: the table of reserved regions, the startup allocator, and mm_init, which hands
 over to the buddy allocator.
 */
module Startup {
  import opened Bits
  import opened FreeLists
  import opened FrameAllocator

  const MAX_EARLY_RESERVED: nat := 16

  // sizeof(struct page) on RV64.
  const PAGE_STRUCT_SIZE: nat := 48

  datatype Region = Region(start: nat, end: nat)

  // A byte range the boot environment occupies.
  datatype Range = Range(start: nat, size: nat)

  // USER_PROG_BASE and USER_PROG_MAX_SIZE.
  const USER_PROGRAM: Range := Range(0x03000000, 0x00400000)

  // The table entry for a range: none when it is empty, else its pages.
  function RoundOut(r: Range): seq<Region>
  {
    if r.size == 0 then [] else [Region(AlignDown(r.start, PAGE_SIZE), AlignUp(r.start + r.size, PAGE_SIZE))]
  }

  function RoundAll(rs: seq<Range>): seq<Region>
  {
    if rs == [] then [] else RoundAll(rs[..|rs| - 1]) + RoundOut(rs[|rs| - 1])
  }

  lemma {:induction false} RoundAllElems(rs: seq<Range>)
    ensures |RoundAll(rs)| <= |rs|
    ensures forall x :: x in RoundAll(rs) <==> exists r :: r in rs && x in RoundOut(r)
  {
    if rs != [] {
      var last := rs[|rs| - 1];
      assert rs == rs[..|rs| - 1] + [last];
      RoundAllElems(rs[..|rs| - 1]);
    }
  }

  predicate Overlap(aStart: nat, aEnd: nat, bStart: nat, bEnd: nat)
  {
    aStart < bEnd && bStart < aEnd
  }

  // A place startup_alloc may return.
  predicate Fits(regions: seq<Region>, ptr: nat, limit: nat, size: nat, align: nat, a: nat)
    requires align > 0
  {
    && ptr <= a && a % align == 0 && a + size <= limit
    && forall r :: r in regions ==> !Overlap(a, a + size, r.start, r.end)
  }

  // A place fits if no byte of it lies in a region.
  lemma FitsMeans(regions: seq<Region>, ptr: nat, limit: nat, size: nat, align: nat, a: nat)
    requires align > 0 && size > 0 && forall r :: r in regions ==> r.start < r.end
    ensures Fits(regions, ptr, limit, size, align, a) <==>
              && ptr <= a && a % align == 0 && a + size <= limit
              && forall r, x: nat :: r in regions && Within(x, a, a + size) ==> !Within(x, r.start, r.end)
  {
    forall r | r in regions
      ensures Overlap(a, a + size, r.start, r.end) ==> exists x: nat :: Within(x, a, a + size) && Within(x, r.start, r.end)
    {
      var x := if a < r.start then r.start else a;
      assert Overlap(a, a + size, r.start, r.end) ==> Within(x, a, a + size) && Within(x, r.start, r.end);
    }
  }

  predicate Within(x: nat, lo: nat, hi: nat)
  {
    lo <= x < hi
  }

  // Every aligned place from addr up to the end of a conflicting region conflicts as well.
  lemma ConflictSkips(r: Region, addr: nat, size: nat, align: nat, a: nat)
    requires align > 0 && a % align == 0
    requires Overlap(addr, addr + size, r.start, r.end)
    requires addr <= a
    ensures a < AlignUp(r.end, align) ==> Overlap(a, a + size, r.start, r.end)
  {
    AlignUpLeast(r.end, align);
  }

  class EarlyMemory {
    var regions: seq<Region> // early_reserved[0..early_reserved_count]
    var ptr: nat             // startup_ptr
    var limit: nat           // startup_end

    constructor ()
      ensures regions == [] && ptr == 0 && limit == 0
    {
      regions, ptr, limit := [], 0, 0;
    }

    // A full table stops the machine.
    method ReserveAdd(start: nat, size: nat) returns (halted: bool)
      modifies this`regions
      ensures halted <==> size != 0 && |old(regions)| >= MAX_EARLY_RESERVED
      ensures regions == old(regions) + (if halted then [] else RoundOut(Range(start, size)))
    {
      if size == 0 {
        return false;
      }
      if |regions| >= MAX_EARLY_RESERVED {
        return true;
      }
      var end := start + size;
      regions := regions + [Region(AlignDown(start, PAGE_SIZE), AlignUp(end, PAGE_SIZE))];
      return false;
    }

    method Init(start: nat, end: nat)
      modifies this`ptr, this`limit
      ensures ptr == AlignUp(start, PAGE_SIZE) && limit == AlignDown(end, PAGE_SIZE)
    {
      ptr := AlignUp(start, PAGE_SIZE);
      limit := AlignDown(end, PAGE_SIZE);
    }

    // Optimal first fit: the least place that fits, or NULL when no place does.
    method Alloc(size: nat, align: nat) returns (va: nat)
      requires align > 0
      modifies this`ptr
      ensures var sz := AlignUp(size, PAGE_SIZE);
              if va == 0
              then ptr == old(ptr) && forall a: nat :: !Fits(regions, old(ptr), limit, sz, align, a)
              else
                && va >= KERNEL_VA_OFFSET
                && var pa := va - KERNEL_VA_OFFSET;
                   && Fits(regions, old(ptr), limit, sz, align, pa) && ptr == pa + sz
                   && forall a: nat :: Fits(regions, old(ptr), limit, sz, align, a) ==> pa <= a
    {
      AlignUpLeast(ptr, align);
      var addr := AlignUp(ptr, align);
      var sz := AlignUp(size, PAGE_SIZE);
      while addr + sz <= limit
        invariant ptr == old(ptr) <= addr && addr % align == 0
        invariant forall a: nat :: Fits(regions, ptr, limit, sz, align, a) ==> addr <= a
        decreases limit - addr
      {
        var conflict := false;
        var i := 0;
        while i < |regions| && !conflict
          invariant 0 <= i <= |regions| && ptr == old(ptr)
          invariant forall j :: 0 <= j < i ==> !Overlap(addr, addr + sz, regions[j].start, regions[j].end)
          invariant conflict ==> i < |regions| && Overlap(addr, addr + sz, regions[i].start, regions[i].end)
          decreases |regions| - i, !conflict
        {
          if Overlap(addr, addr + sz, regions[i].start, regions[i].end) {
            conflict := true;
          } else {
            i := i + 1;
          }
        }
        if conflict {
          var next := AlignUp(regions[i].end, align);
          AlignUpLeast(regions[i].end, align);
          forall a: nat | Fits(regions, ptr, limit, sz, align, a)
            ensures next <= a
          {
            ConflictSkips(regions[i], addr, sz, align, a);
          }
          addr := next;
        } else {
          ptr := addr + sz;
          return addr + KERNEL_VA_OFFSET;
        }
      }
      return 0;
    }
  }

  // ---------- mm_init ----------

  // Frame f of the managed range holds some byte of r.
  predicate OccupiedBy(base: nat, f: nat, r: Range)
  {
    r.size > 0 && base + f * PAGE_SIZE < r.start + r.size && r.start < base + (f + 1) * PAGE_SIZE
  }

  ghost predicate Occupied(base: nat, f: nat, rs: seq<Range>)
  {
    exists r :: r in rs && OccupiedBy(base, f, r)
  }

  // Some whole pages, all of them inside the managed range and none of them occupied,
  // start at a and hold size bytes.
  ghost predicate RoomAt(base: nat, n: nat, rs: seq<Range>, size: nat, a: nat)
  {
    Fits(RoundAll(rs), base, base + n * PAGE_SIZE, AlignUp(size, PAGE_SIZE), PAGE_SIZE, a)
  }

  // Frame f has a byte in the table entry.
  predicate Hits(base: nat, f: nat, e: Region)
  {
    base + f * PAGE_SIZE < e.end && e.start < base + (f + 1) * PAGE_SIZE
  }

  // Rounding a range out to pages changes no answer about whole frames.
  lemma RoundOutHits(base: nat, f: nat, r: Range)
    requires base % PAGE_SIZE == 0 && r.size > 0
    ensures RoundOut(r)[0].start <= r.start && r.start + r.size <= RoundOut(r)[0].end
    ensures OccupiedBy(base, f, r) <==> Hits(base, f, RoundOut(r)[0])
  {
    AlignDownGreatest(r.start, PAGE_SIZE);
    AlignUpLeast(r.start + r.size, PAGE_SIZE);
    var b := base / PAGE_SIZE;
    assert base == b * PAGE_SIZE;
  }

  lemma OccupiedIsHit(base: nat, f: nat, rs: seq<Range>)
    requires base % PAGE_SIZE == 0
    ensures Occupied(base, f, rs) <==> exists e :: e in RoundAll(rs) && Hits(base, f, e)
  {
    RoundAllElems(rs);
    if Occupied(base, f, rs) {
      var r :| r in rs && OccupiedBy(base, f, r);
      RoundOutHits(base, f, r);
      assert RoundOut(r)[0] in RoundOut(r);
    }
    if e :| e in RoundAll(rs) && Hits(base, f, e) {
      var r :| r in rs && e in RoundOut(r);
      RoundOutHits(base, f, r);
    }
  }

  lemma RegionsProper(rs: seq<Range>)
    ensures forall e :: e in RoundAll(rs) ==> e.start < e.end
  {
    RoundAllElems(rs);
    forall e | e in RoundAll(rs)
      ensures e.start < e.end
    {
      var r :| r in rs && e in RoundOut(r);
      RoundOutHits(0, 0, r);
    }
  }

  // mm_init step 8.
  method ReserveEarly(heap: Allocator, regions: seq<Region>)
    requires heap.Valid() && forall e :: e in regions ==> e.start < e.end
    modifies heap`lists, heap.pages
    ensures heap.Valid()
    ensures forall f: nat :: f < heap.n ==>
              (Covered(heap.lists, f) <==> Covered(old(heap.lists), f) && forall e :: e in regions ==> !Hits(heap.base, f, e))
  {
    for i := 0 to |regions|
      invariant heap.Valid()
      invariant forall f: nat :: f < heap.n ==>
                  (Covered(heap.lists, f) <==> Covered(old(heap.lists), f) && forall e :: e in regions[..i] ==> !Hits(heap.base, f, e))
    {
      ghost var before := heap.lists;
      var e := regions[i];
      ghost var from, to := heap.MemoryReserve(e.start, e.end - e.start);
      assert regions[..i + 1] == regions[..i] + [e];
      forall f: nat | f < heap.n
        ensures Covered(heap.lists, f) <==> Covered(before, f) && !Hits(heap.base, f, e)
      {
        assert f in FreeFrames(heap.lists, heap.n) <==> Covered(heap.lists, f);
        assert f in FreeFrames(before, heap.n) <==> Covered(before, f);
      }
    }
    assert regions[..|regions|] == regions;
  }

  // The bytes [start, end) are some, and one of them lies in [lo, hi) unless that is empty.
  predicate Meets(lo: nat, hi: nat, start: nat, end: nat)
  {
    start < end && lo < end && start < hi
  }

  // A byte in both ranges is what makes them meet.
  lemma MeetsByte(lo: nat, hi: nat, start: nat, end: nat) returns (x: nat)
    requires lo < hi
    ensures Meets(lo, hi, start, end) <==> lo <= x < hi && start <= x < end
  {
    x := if lo < start then start else lo;
  }

  // [lo, lo + len) meets neither DTB, kernel image, initramfs nor the user program region.
  predicate Clear(fdt: Range, kernelStart: nat, kernelEnd: nat, initrdStart: nat, initrdEnd: nat, lo: nat, len: nat)
  {
    && !Meets(lo, lo + len, fdt.start, fdt.start + fdt.size)
    && !Meets(lo, lo + len, kernelStart, kernelEnd)
    && (initrdStart != 0 ==> !Meets(lo, lo + len, initrdStart, initrdEnd))
    && !Meets(lo, lo + len, 0x0300_0000, 0x0340_0000)
  }

  datatype Boot = Halted | Ready(heap: Allocator, frameArray: Range)

  // What mm_init enters in the table before anything is allocated.
  function BootRanges(fdt: Range, kernelStart: nat, kernelEnd: nat, initrdStart: nat, initrdEnd: nat): seq<Range>
  {
    [fdt]
    + (if kernelEnd > kernelStart then [Range(kernelStart, kernelEnd - kernelStart)] else [])
    + (if initrdStart != 0 && initrdEnd != 0 && initrdEnd > initrdStart then [Range(initrdStart, initrdEnd - initrdStart)] else [])
    + [USER_PROGRAM]
  }

  // The table of mm_init holds just those ranges.
  lemma BootRangesClear(fdt: Range, kernelStart: nat, kernelEnd: nat, initrdStart: nat, initrdEnd: nat, lo: nat, len: nat)
    ensures var rs := BootRanges(fdt, kernelStart, kernelEnd, initrdStart, initrdEnd);
            Clear(fdt, kernelStart, kernelEnd, initrdStart, initrdEnd, lo, len) <==>
            forall r :: r in rs ==> !Meets(lo, lo + len, r.start, r.start + r.size)
  {
    var rs := BootRanges(fdt, kernelStart, kernelEnd, initrdStart, initrdEnd);
    assert fdt in rs && USER_PROGRAM in rs;
    assert kernelEnd > kernelStart ==> Range(kernelStart, kernelEnd - kernelStart) in rs;
    assert initrdStart != 0 && initrdEnd > initrdStart ==> Range(initrdStart, initrdEnd - initrdStart) in rs;
  }

  lemma OccupiedIsMet(base: nat, f: nat, rs: seq<Range>, r: Range)
    ensures Occupied(base, f, rs + [r]) <==>
              (exists q :: q in rs && Meets(base + f * PAGE_SIZE, base + f * PAGE_SIZE + PAGE_SIZE, q.start, q.start + q.size))
              || Meets(base + f * PAGE_SIZE, base + f * PAGE_SIZE + PAGE_SIZE, r.start, r.start + r.size)
  {
    forall q | q in rs + [r]
      ensures OccupiedBy(base, f, q) <==> Meets(base + f * PAGE_SIZE, base + f * PAGE_SIZE + PAGE_SIZE, q.start, q.start + q.size)
    {
    }
    assert r in rs + [r] && forall q :: q in rs ==> q in rs + [r];
  }

  // Frame f is free of boot ranges and frame array.
  lemma FreeIsClear(fdt: Range, kernelStart: nat, kernelEnd: nat, initrdStart: nat, initrdEnd: nat, base: nat, f: nat, r: Range)
    ensures var rs, lo := BootRanges(fdt, kernelStart, kernelEnd, initrdStart, initrdEnd), base + f * PAGE_SIZE;
            !Occupied(base, f, rs + [r]) <==>
            Clear(fdt, kernelStart, kernelEnd, initrdStart, initrdEnd, lo, PAGE_SIZE)
            && !Meets(lo, lo + PAGE_SIZE, r.start, r.start + r.size)
  {
    BootRangesClear(fdt, kernelStart, kernelEnd, initrdStart, initrdEnd, base + f * PAGE_SIZE, PAGE_SIZE);
    OccupiedIsMet(base, f, BootRanges(fdt, kernelStart, kernelEnd, initrdStart, initrdEnd), r);
  }

  // For whole pages rounding a range out to pages makes no difference.
  lemma RoundOutMeets(a: nat, len: nat, r: Range)
    requires a % PAGE_SIZE == 0 && len % PAGE_SIZE == 0 && r.size > 0
    ensures Meets(a, a + len, r.start, r.start + r.size) <==> Overlap(a, a + len, RoundOut(r)[0].start, RoundOut(r)[0].end)
  {
    AlignDownGreatest(r.start, PAGE_SIZE);
    AlignUpLeast(r.start + r.size, PAGE_SIZE);
    var p, q := a / PAGE_SIZE, len / PAGE_SIZE;
    assert a == p * PAGE_SIZE && a + len == (p + q) * PAGE_SIZE;
  }

  lemma RoundAllMeets(a: nat, len: nat, rs: seq<Range>)
    requires a % PAGE_SIZE == 0 && len % PAGE_SIZE == 0
    ensures (forall r :: r in rs ==> !Meets(a, a + len, r.start, r.start + r.size)) <==>
            (forall e :: e in RoundAll(rs) ==> !Overlap(a, a + len, e.start, e.end))
  {
    RoundAllElems(rs);
    forall r | r in rs && r.size > 0
      ensures RoundOut(r)[0] in RoundAll(rs)
      ensures Meets(a, a + len, r.start, r.start + r.size) <==> Overlap(a, a + len, RoundOut(r)[0].start, RoundOut(r)[0].end)
    {
      assert RoundOut(r)[0] in RoundOut(r);
      RoundOutMeets(a, len, r);
    }
    forall e | e in RoundAll(rs)
      ensures exists r :: r in rs && r.size > 0 && e == RoundOut(r)[0]
    {
      var r :| r in rs && e in RoundOut(r);
    }
  }

  // A place for whole pages is one that is clear.
  lemma RoomIsClear(fdt: Range, kernelStart: nat, kernelEnd: nat, initrdStart: nat, initrdEnd: nat, base: nat, n: nat, size: nat, a: nat)
    ensures RoomAt(base, n, BootRanges(fdt, kernelStart, kernelEnd, initrdStart, initrdEnd), size, a) <==>
            && base <= a && a % PAGE_SIZE == 0 && a + AlignUp(size, PAGE_SIZE) <= base + n * PAGE_SIZE
            && Clear(fdt, kernelStart, kernelEnd, initrdStart, initrdEnd, a, AlignUp(size, PAGE_SIZE))
  {
    AlignUpLeast(size, PAGE_SIZE);
    BootRangesClear(fdt, kernelStart, kernelEnd, initrdStart, initrdEnd, a, AlignUp(size, PAGE_SIZE));
    if a % PAGE_SIZE == 0 {
      RoundAllMeets(a, AlignUp(size, PAGE_SIZE), BootRanges(fdt, kernelStart, kernelEnd, initrdStart, initrdEnd));
    }
  }

  // mm_init step 1.
  method ReserveRanges(rs: seq<Range>) returns (early: EarlyMemory)
    requires |rs| <= MAX_EARLY_RESERVED
    ensures fresh(early) && early.regions == RoundAll(rs)
  {
    early := new EarlyMemory();
    for i := 0 to |rs|
      invariant early.regions == RoundAll(rs[..i]) && |early.regions| <= i
    {
      var halted := early.ReserveAdd(rs[i].start, rs[i].size);
      assert rs[..i + 1][..i] == rs[..i];
    }
    assert rs[..|rs|] == rs;
  }

  // mm_init steps 2 and 3.
  method PlaceFrameArray(early: EarlyMemory, base: nat, n: nat, rs: seq<Range>) returns (va: nat)
    requires base % PAGE_SIZE == 0 && early.regions == RoundAll(rs)
    modifies early
    ensures early.regions == RoundAll(rs)
    ensures if va == 0 then forall a: nat :: !RoomAt(base, n, rs, n * PAGE_STRUCT_SIZE, a)
            else va >= KERNEL_VA_OFFSET && RoomAt(base, n, rs, n * PAGE_STRUCT_SIZE, va - KERNEL_VA_OFFSET)
  {
    early.Init(base, base + n * PAGE_SIZE);
    assert early.ptr == base && early.limit == base + n * PAGE_SIZE;
    va := early.Alloc(n * PAGE_STRUCT_SIZE, PAGE_SIZE);
    if va == 0 {
      forall a: nat
        ensures !RoomAt(base, n, rs, n * PAGE_STRUCT_SIZE, a)
      {
        assert !Fits(early.regions, early.ptr, early.limit, AlignUp(n * PAGE_STRUCT_SIZE, PAGE_SIZE), PAGE_SIZE, a);
      }
    }
  }

  // mm_init steps 5 to 8.
  method BuildHeap(base: nat, n: nat, regions: seq<Region>, ghost all: seq<Range>) returns (heap: Allocator)
    requires base % PAGE_SIZE == 0 && base + n * PAGE_SIZE <= PHYS_LIMIT && regions == RoundAll(all)
    ensures heap.Valid() && fresh(heap) && fresh(heap.pages) && heap.base == base && heap.n == n && heap.live == map[]
    ensures forall f: nat :: f < n ==> (Covered(heap.lists, f) <==> !Occupied(base, f, all))
  {
    heap := new Allocator(base, n);
    RegionsProper(all);
    ReserveEarly(heap, regions);
    forall f: nat | f < n
      ensures Covered(heap.lists, f) <==> !Occupied(base, f, all)
    {
      OccupiedIsHit(base, f, all);
    }
  }

  // dtbBase and dtbSize are the first pair of the reg property of /memory.
  method MmInit(dtbBase: nat, dtbSize: nat, fdt: Range, kernelStart: nat, kernelEnd: nat, initrdStart: nat, initrdEnd: nat)
    returns (boot: Boot)
    requires AlignUp(dtbBase, PAGE_SIZE) - dtbBase <= dtbSize && dtbBase + dtbSize <= PHYS_LIMIT
    ensures var rs := BootRanges(fdt, kernelStart, kernelEnd, initrdStart, initrdEnd);
            var base := AlignUp(dtbBase, PAGE_SIZE);
            var n := (dtbBase + dtbSize - base) / PAGE_SIZE;
            match boot
            case Halted => forall a: nat :: !RoomAt(base, n, rs, n * PAGE_STRUCT_SIZE, a)
            case Ready(h, fa) =>
              && h.Valid() && fresh(h) && fresh(h.pages) && h.base == base && h.n == n && h.live == map[]
              && fa.size == n * PAGE_STRUCT_SIZE && RoomAt(base, n, rs, fa.size, fa.start)
              && forall f: nat :: f < n ==> (Covered(h.lists, f) <==> !Occupied(base, f, rs + [fa]))
    ensures var base := AlignUp(dtbBase, PAGE_SIZE);
            var n := (dtbBase + dtbSize - base) / PAGE_SIZE;
            var room := AlignUp(n * PAGE_STRUCT_SIZE, PAGE_SIZE);
            match boot
            case Halted =>
              forall a: nat :: base <= a && a % PAGE_SIZE == 0 && a + room <= base + n * PAGE_SIZE ==>
                !Clear(fdt, kernelStart, kernelEnd, initrdStart, initrdEnd, a, room)
            case Ready(h, fa) =>
              && base <= fa.start && fa.start % PAGE_SIZE == 0 && fa.start + room <= base + n * PAGE_SIZE
              && fa.size == n * PAGE_STRUCT_SIZE <= room
              && !Meets(fa.start, fa.start + room, fdt.start, fdt.start + fdt.size)
              && !Meets(fa.start, fa.start + room, kernelStart, kernelEnd)
              && (initrdStart != 0 ==> !Meets(fa.start, fa.start + room, initrdStart, initrdEnd))
              && !Meets(fa.start, fa.start + room, 0x0300_0000, 0x0340_0000)
              && forall f: nat :: f < n ==>
                   var lo, hi := base + f * PAGE_SIZE, base + f * PAGE_SIZE + PAGE_SIZE;
                   (Covered(h.lists, f) <==>
                    && !Meets(lo, hi, fdt.start, fdt.start + fdt.size)
                    && !Meets(lo, hi, kernelStart, kernelEnd)
                    && (initrdStart != 0 ==> !Meets(lo, hi, initrdStart, initrdEnd))
                    && !Meets(lo, hi, 0x0300_0000, 0x0340_0000)
                    && !Meets(lo, hi, fa.start, fa.start + fa.size))
  {
    var rs := BootRanges(fdt, kernelStart, kernelEnd, initrdStart, initrdEnd);
    boot := InitHeap(dtbBase, dtbSize, rs);
    ghost var base := AlignUp(dtbBase, PAGE_SIZE);
    ghost var n := (dtbBase + dtbSize - base) / PAGE_SIZE;
    BootClear(fdt, kernelStart, kernelEnd, initrdStart, initrdEnd, base, n, n * PAGE_STRUCT_SIZE);
    if boot.Ready? {
      FramesClear(fdt, kernelStart, kernelEnd, initrdStart, initrdEnd, base, boot.frameArray);
    }
  }

  // mm_init for a table of ranges.
  method InitHeap(dtbBase: nat, dtbSize: nat, rs: seq<Range>) returns (boot: Boot)
    requires AlignUp(dtbBase, PAGE_SIZE) - dtbBase <= dtbSize && dtbBase + dtbSize <= PHYS_LIMIT && |rs| < MAX_EARLY_RESERVED
    ensures var base := AlignUp(dtbBase, PAGE_SIZE);
            var n := (dtbBase + dtbSize - base) / PAGE_SIZE;
            match boot
            case Halted => forall a: nat :: !RoomAt(base, n, rs, n * PAGE_STRUCT_SIZE, a)
            case Ready(h, fa) =>
              && h.Valid() && fresh(h) && fresh(h.pages) && h.base == base && h.n == n && h.live == map[]
              && fa.size == n * PAGE_STRUCT_SIZE && RoomAt(base, n, rs, fa.size, fa.start)
              && forall f: nat :: f < n ==> (Covered(h.lists, f) <==> !Occupied(base, f, rs + [fa]))
  {
    var base := AlignUp(dtbBase, PAGE_SIZE);
    var size := AlignDown(dtbSize - (base - dtbBase), PAGE_SIZE);
    var n := size / PAGE_SIZE;
    ManagedFrames(dtbBase, dtbSize, base, n);
    var early := ReserveRanges(rs);
    var va := PlaceFrameArray(early, base, n, rs);
    if va == 0 {
      return Halted;
    }
    RoundAllElems(rs);
    boot := HandOver(early, base, n, rs, va);
  }

  lemma BootClear(fdt: Range, kernelStart: nat, kernelEnd: nat, initrdStart: nat, initrdEnd: nat, base: nat, n: nat, size: nat)
    ensures size <= AlignUp(size, PAGE_SIZE)
    ensures var rs, room := BootRanges(fdt, kernelStart, kernelEnd, initrdStart, initrdEnd), AlignUp(size, PAGE_SIZE);
            forall a: nat :: RoomAt(base, n, rs, size, a) <==>
              base <= a && a % PAGE_SIZE == 0 && a + room <= base + n * PAGE_SIZE
              && Clear(fdt, kernelStart, kernelEnd, initrdStart, initrdEnd, a, room)
  {
    AlignUpLeast(size, PAGE_SIZE);
    var rs, room := BootRanges(fdt, kernelStart, kernelEnd, initrdStart, initrdEnd), AlignUp(size, PAGE_SIZE);
    forall a: nat
      ensures RoomAt(base, n, rs, size, a) <==>
              base <= a && a % PAGE_SIZE == 0 && a + room <= base + n * PAGE_SIZE
              && Clear(fdt, kernelStart, kernelEnd, initrdStart, initrdEnd, a, room)
    {
      RoomIsClear(fdt, kernelStart, kernelEnd, initrdStart, initrdEnd, base, n, size, a);
    }
  }

  lemma FramesClear(fdt: Range, kernelStart: nat, kernelEnd: nat, initrdStart: nat, initrdEnd: nat, base: nat, r: Range)
    ensures var rs := BootRanges(fdt, kernelStart, kernelEnd, initrdStart, initrdEnd);
            forall f: nat :: !Occupied(base, f, rs + [r]) <==>
              Clear(fdt, kernelStart, kernelEnd, initrdStart, initrdEnd, base + f * PAGE_SIZE, PAGE_SIZE)
              && !Meets(base + f * PAGE_SIZE, base + f * PAGE_SIZE + PAGE_SIZE, r.start, r.start + r.size)
  {
    var rs := BootRanges(fdt, kernelStart, kernelEnd, initrdStart, initrdEnd);
    forall f: nat
      ensures !Occupied(base, f, rs + [r]) <==>
              Clear(fdt, kernelStart, kernelEnd, initrdStart, initrdEnd, base + f * PAGE_SIZE, PAGE_SIZE)
              && !Meets(base + f * PAGE_SIZE, base + f * PAGE_SIZE + PAGE_SIZE, r.start, r.start + r.size)
    {
      FreeIsClear(fdt, kernelStart, kernelEnd, initrdStart, initrdEnd, base, f, r);
    }
  }

  // The rest of mm_init, once the frame array has its place.
  method HandOver(early: EarlyMemory, base: nat, n: nat, ghost rs: seq<Range>, va: nat) returns (boot: Boot)
    requires base % PAGE_SIZE == 0 && base + n * PAGE_SIZE <= PHYS_LIMIT && va >= KERNEL_VA_OFFSET
    requires early.regions == RoundAll(rs) && |early.regions| < MAX_EARLY_RESERVED
    modifies early
    ensures boot.Ready?
    ensures boot.frameArray == Range(va - KERNEL_VA_OFFSET, n * PAGE_STRUCT_SIZE)
    ensures var h := boot.heap;
            && h.Valid() && fresh(h) && fresh(h.pages) && h.base == base && h.n == n && h.live == map[]
            && forall f: nat :: f < n ==> (Covered(h.lists, f) <==> !Occupied(base, f, rs + [boot.frameArray]))
  {
    var fa := Range(va - KERNEL_VA_OFFSET, n * PAGE_STRUCT_SIZE);
    ghost var all := rs + [fa];
    assert all[..|rs|] == rs && all[|rs|] == fa;
    var halted := early.ReserveAdd(fa.start, fa.size);
    assert early.regions == RoundAll(all);
    var heap := BuildHeap(base, n, early.regions, all);
    return Ready(heap, fa);
  }

  // The frames that mm_init manages.
  lemma ManagedFrames(dtbBase: nat, dtbSize: nat, base: nat, n: nat)
    requires base == AlignUp(dtbBase, PAGE_SIZE) && base - dtbBase <= dtbSize
    requires n == AlignDown(dtbSize - (base - dtbBase), PAGE_SIZE) / PAGE_SIZE
    ensures base % PAGE_SIZE == 0 && dtbBase <= base && base + n * PAGE_SIZE <= dtbBase + dtbSize
    ensures n == (dtbBase + dtbSize - base) / PAGE_SIZE
  {
    AlignUpLeast(dtbBase, PAGE_SIZE);
    AlignDownGreatest(dtbSize - (base - dtbBase), PAGE_SIZE);
  }
}

# Verified model of the lab6 kernel core

This project models the core of the OrangePi RV2 kernel under `lab6/OrangePiVer` in Dafny and
proves properties of it: the physical memory manager, the Sv39 page tables, the flattened
devicetree scans, and the state machines of threads, signals, timers and deferred callbacks.

Sources that update state in place are classes whose methods are proved against functions on
values; what the functions mean is proved as lemmas beside them. Widths: addresses, ticks and
counters are natural numbers, and each module states where a bound matters.

| file | what it holds |
|---|---|
| `Bits.dfy`, `Sequences.dfy` | the C bit operators and alignment arithmetic; lists without repetition and the removal of an element |
| `FreeLists.dfy`, `BuddyOps.dfy`, `PageLinks.dfy`, `FrameAllocator.dfy`, `BuddyRuns.dfy` | the buddy allocator: canonical form, operations on values, the linked lists, the imperative allocator, whole runs |
| `Startup.dfy` | early reservations, the startup allocator, `mm_init` |
| `ChunkHeap.dfy` | the size-class allocator and `allocate`/`free` |
| `HeapRuns.dfy` | whole runs of all allocators from `mm_init` on |
| `Sv39.dfy`, `UserMap.dfy`, `BootMap.dfy` | translation as section 4.3.2 and 4.4 of the RISC-V Privileged Architecture define it, user mappings, boot mappings |
| `FdtTree.dfy`, `FdtBytes.dfy`, `Fdt.dfy` | trees and searches, the bytes of sections 5.4 and 5.5 of the Devicetree Specification, the two scans |
| `RunQueue.dfy` | `thread.c` |
| `SignalBits.dfy`, `Signals.dfy` | `signal.c` and the trap path of `trap.c` |
| `EventQueue.dfy`, `Timer.dfy`, `TaskQueue.dfy` | the node pools and sorted lists both files share, `timer.c`, `task.c` |

`dafny verify dfyconfig.toml` checks everything. A predicate written as `true == (...)` is one fact to
the verifier instead of a list of goals, which keeps proofs that only pass it on short; `hide` at the start
of a proof names definitions it does without.

Assumptions the code makes of its callers and its machine, stated as preconditions: `free` and
`free_pages` get a live pointer, NULL or an address outside managed memory; managed memory ends below 2^38; user mappings
are page aligned and end below 2^38; the /memory region is at least as long as its first page
boundary is away (otherwise the size computed by `mm_init` wraps); at most 2^31 - 1 threads are
ever created; a devicetree blob is shorter than 2 GiB, four-byte aligned, and its strings end.

What the proofs found where a promise needs a condition:

- The hardware deadline is the minimum of tick and first expiry after every handler exit, but
  after `timer_trigger_now` an `add_timer` that does not come first leaves it at the time of the
  trigger (`Timer.TriggerStands`); `Timer.DeadlineOverRuns` says of any run when it is right.
- Work of priority INT_MIN never begins, because the idle priority is INT_MIN + 1
  (`TaskQueue.LowestNeverBegins`); all other accepted work has begun once a run from idle is
  complete (`TaskQueue.BegunWhenIdle`).
- `map_mmio_2m_window` masks the window number to 18 bits, so it would split the wrong window for
  bases from 2^39 on (`BootMap.SplitKeepsTranslations`, `BootMap.WindowOfBase`). The function is
  static and its three calls pass constants below 2^32, so the kernel never gives it such a base.
- A page mapped with W but without R is a reserved encoding and faults, and so does one whose
  physical address has more than 56 bits (`Sv39.AddressBits`); `UserMap.MappedByte` says so, and
  the mapping theorem covers such flags and addresses too.
- `thread_exit` hands the CPU to whoever occupies the parent's slot now, which after a reap may
  be another thread: `RunQueue.StrangerInherits` reaches such a state, and
  `RunQueue.HeirIsForker` says exactly when the heir is the thread that forked.
- A child forked inside a signal handler does not inherit the handling state, so the sigreturn at
  the end of its copy of the handler only steps past the ecall (`Signals.StraySigreturn`).
- A callback run directly by the timer handler, because the callback queue is full, may add a
  timer of 0 seconds; then the handler need not end (`Timer.NeedNotEnd`). It ends exactly when
  some reading finds no more timers expired than have been taken (`Timer.HandlerEnds`).
  `Timer.TimerUnit.HandleInterrupt` therefore takes the clock readings as input and tells whether
  it was done when they ended.

## Model

| member | source | states |
|---|---|---|
| `Bits.XorIsBuddy` | lab6/OrangePiVer/Src/mm.c:375 | On an aligned index, flipping bit k is the move to the other half of the enclosing block of order k + 1: plus 2^k when the index is aligned one order higher, minus 2^k otherwise |
| `Bits.AndHighMask` | lab6/OrangePiVer/Src/mm.c:118-153 | x & ~(2^k - 1) on a w-bit word is the largest multiple of 2^k not above x |
| `Bits.AlignUpLeast` | lab6/OrangePiVer/Src/mm.c:118-120 | align_up gives the least multiple at or above its argument |
| `FreeLists.RunInOneBlock` | lab6/OrangePiVer/Src/mm.c:274-426 | With no two free buddies, a wholly free aligned run lies inside one free block |
| `FreeLists.CanonicalForm` | lab6/OrangePiVer/Src/mm.c:274-426 | The free lists hold exactly the maximal naturally aligned blocks, of order at most MAX_ORDER, inside the set of free frames |
| `FreeLists.SameFramesSameBlocks` | lab6/OrangePiVer/Src/mm.c:274-426 | Two states with the same free frames have the same blocks of every order |
| `BuddyOps.AllocCorrect` | lab6/OrangePiVer/Src/mm.c:274-328 | alloc_pages fails iff no aligned run of 2^order frames is wholly free; otherwise it returns such a run, exactly its frames leave the free set, and no free buddies appear |
| `BuddyOps.MergeCorrect` | lab6/OrangePiVer/Src/mm.c:330-426 | The merge loop keeps blocks aligned and disjoint, leaves no two free buddies, and frees exactly the frames of the block given back |
| `BuddyOps.FreeCorrect` | lab6/OrangePiVer/Src/mm.c:330-426 | free_pages adds exactly the frames of the block to the free set |
| `BuddyOps.FreeUndoesAlloc` | lab6/OrangePiVer/Src/mm.c:274-426 | alloc_pages followed at once by free_pages restores every free list as the same sequence |
| `BuddyOps.ReserveCorrect` | lab6/OrangePiVer/Src/mm.c:1042-1169 | Walking the lists from the largest order down, taking out blocks inside the range and halving those at its ends, removes exactly the frames of the range from the free set and leaves no two free buddies |
| `BuddyOps.ReserveDone` | lab6/OrangePiVer/Src/mm.c:1042-1169 | Once no free block touches the range, the free set is the old one minus the range and no two free buddies are left |
| `BuddyOps.GreedyStep` | lab6/OrangePiVer/Src/mm.c:1004-1020 | mm_init step 7 adds blocks each as large as index and end of memory allow, and no two of them are free buddies |
| `PageLinks.ListsOkAdd` | lab6/OrangePiVer/Src/mm.c:193-259 | Linking a page in behind a head keeps every free list a circular doubly linked ring, no page on two lists, and in_free_list set exactly on the pages that are on the list of their own order |
| `PageLinks.ListsOkDel` | lab6/OrangePiVer/Src/mm.c:201-270 | Unlinking a page keeps the same of the remaining lists |
| `FrameAllocator.Allocator.constructor` | lab6/OrangePiVer/Src/mm.c:977-1020 | mm_init steps 5 to 7 establish the invariant with every frame free |
| `FrameAllocator.Allocator.ListAdd` | lab6/OrangePiVer/Src/mm.c:193-199 | list_add leaves the node between the head and its old successor and changes no other link |
| `FrameAllocator.Allocator.ListDel` | lab6/OrangePiVer/Src/mm.c:201-207 | list_del makes the neighbours point at each other and changes no other link |
| `FrameAllocator.Allocator.AddFreeBlock` | lab6/OrangePiVer/Src/mm.c:247-259 | The block becomes the first element of the list of its order; all lists stay well formed |
| `FrameAllocator.Allocator.RemoveFreeBlock` | lab6/OrangePiVer/Src/mm.c:261-270 | The page leaves the list of the order its metadata names; all lists stay well formed |
| `FrameAllocator.Allocator.AllocPages` | lab6/OrangePiVer/Src/mm.c:274-328 | On the pointer structure: the result and the new lists are those of Alloc, the block becomes live, reserved frames stay reserved, and pages of no free block keep their metadata |
| `PageLinks.MergeTest` | lab6/OrangePiVer/Src/mm.c:382-391 | What the merge loop reads of the buddy's page (in_free_list, state, order) holds exactly when the buddy heads a free block of that order, so stale metadata never passes |
| `FrameAllocator.Allocator.AbsorbBuddy` | lab6/OrangePiVer/Src/mm.c:375-411 | A buddy that passes the test leaves its list, and the lower of the two heads becomes the loose block of the next order; no other page's metadata changes |
| `FrameAllocator.Allocator.FreePages` | lab6/OrangePiVer/Src/mm.c:330-426 | NULL and addresses outside managed memory or off a frame boundary change nothing; a live block is merged back as Merge says and reserved frames stay reserved |
| `FrameAllocator.Allocator.FrameAddrMeans` | lab6/OrangePiVer/Src/mm.c:330-353 | The pointers free_pages acts on are exactly those to the first byte of a managed frame, physical or in the kernel's half, and it takes each for that frame |
| `FrameAllocator.Allocator.ReserveOrder` | lab6/OrangePiVer/Src/mm.c:1111-1165 | The walk over one list ends although it removes and splits blocks under way, and afterwards no block of the order touches the range |
| `FrameAllocator.Allocator.MemoryReserve` | lab6/OrangePiVer/Src/mm.c:1042-1169 | The new lists are those of the walk on values, and the free set becomes the old one minus every frame that a byte of the clipped range touches; live blocks and the invariant are kept |
| `BuddyRuns.RunKeeps` | lab6/OrangePiVer/Src/mm.c:274-426 | Over every run of alloc_pages, free_pages and memory_reserve the invariant holds and a frame once reserved stays out of circulation |
| `BuddyRuns.Execute` | lab6/OrangePiVer/Src/mm.c:274-426 | Any sequence of calls of the three operations on an allocator, freeing what was returned in any order, is such a run from its state before to its state after, so the run theorems hold of it |
| `BuddyRuns.FramePartition` | lab6/OrangePiVer/Src/mm.c:274-426 | In every reachable state a frame is in exactly one of a free block, one live block, the reserved set |
| `BuddyRuns.HistoryIndependence` | lab6/OrangePiVer/Src/mm.c:274-426 | Two histories from one state that end with the same allocations end with the same blocks of every order |
| `BuddyRuns.FreeingAllRestores` | lab6/OrangePiVer/Src/mm.c:330-426 | Freeing all that was allocated, in any order, restores the earlier blocks |
| `Startup.ConflictSkips` | lab6/OrangePiVer/Src/mm.c:603-622 | After a conflict with a region, no aligned candidate below the region's end fits either |
| `Startup.EarlyMemory.ReserveAdd` | lab6/OrangePiVer/Src/mm.c:155-181 | early_reserve_add records the page-rounded range, ignores empty ones, and stops the machine exactly when the table is full |
| `Startup.FitsMeans` | lab6/OrangePiVer/Src/mm.c:586-591 | The interval test for a place amounts to this: no byte of the place lies in a recorded region |
| `Startup.EarlyMemory.Alloc` | lab6/OrangePiVer/Src/mm.c:603-640 | startup_alloc ends and is an optimal first fit: the least aligned address at or above startup_ptr whose page-rounded range fits and avoids all regions, NULL iff there is none |
| `Startup.MmInit` | lab6/OrangePiVer/Src/mm.c:875-1031 | After mm_init a frame is free iff it holds no byte of the DTB, of [kernel start, kernel end), of the initramfs if there is one, of [0x3000000, 0x3400000), or of the frame array; the frame array has no byte in common with any of these ranges; it stops iff the frame array has no place |
| `Startup.MeetsByte` | lab6/OrangePiVer/Src/mm.c:586-591 | Two byte ranges meet iff they have a byte in common |
| `Startup.BootRangesClear` | lab6/OrangePiVer/Src/mm.c:906-940 | A range is clear of all that mm_init enters in the table iff it meets neither DTB, kernel image, initramfs nor user program region |
| `ChunkHeap.SlotFits` | lab6/OrangePiVer/Src/mm.c:465-489 | No chunk crosses the end of its page |
| `ChunkHeap.LastSlot` | lab6/OrangePiVer/Src/mm.c:465-489 | The chunks of a size class tile the page without remainder |
| `ChunkHeap.FindPool` | lab6/OrangePiVer/Src/mm.c:430-436 | find_pool gives the smallest adequate size class |
| `ChunkHeap.SizeToOrder` | lab6/OrangePiVer/Src/mm.c:122-133 | size_to_order gives the smallest order whose block holds the size |
| `ChunkHeap.KernelHeap.PushChunk` | lab6/OrangePiVer/Src/mm.c:442-445 | Storing the old head in the chunk keeps every pool's in-memory list a NULL-terminated, duplicate-free chain with the chunk in front |
| `ChunkHeap.KernelHeap.PopChunk` | lab6/OrangePiVer/Src/mm.c:447-453 | The first chunk leaves its pool's chain; NULL iff the pool is empty |
| `ChunkHeap.KernelHeap.CutPage` | lab6/OrangePiVer/Src/mm.c:470-488 | The loop puts exactly the chunk-aligned slots of the page on the pool's list |
| `ChunkHeap.KernelHeap.Refill` | lab6/OrangePiVer/Src/mm.c:455-489 | Out of pages nothing changes; otherwise one fresh page is tagged and its tiling becomes the pool's list |
| `ChunkHeap.KernelHeap.AllocChunk` | lab6/OrangePiVer/Src/mm.c:491-512 | Fails iff the pool is empty and no page is free; otherwise hands out a chunk of the smallest class that no one holds |
| `ChunkHeap.KernelHeap.Allocate` | lab6/OrangePiVer/Src/mm.c:524-543 | Routes by size, fails exactly when the responsible allocator has nothing, leaves other allocations alone, and what it returns is the start of a live allocation of at least the size asked for |
| `ChunkHeap.KernelHeap.Free` | lab6/OrangePiVer/Src/mm.c:545-566 | free reaches the allocator that issued the pointer and ignores NULL and foreign pointers |
| `ChunkHeap.KernelHeap.AllocationInLiveFrames` | lab6/OrangePiVer/Src/mm.c:430-566 | A live allocation lies inside one live block of the managed range, at its head unless the block is a chunk page |
| `ChunkHeap.KernelHeap.AllocationsDisjoint` | lab6/OrangePiVer/Src/mm.c:430-566 | Any two live allocations, chunks or pages, are disjoint byte ranges |
| `ChunkHeap.KernelHeap.OwnerStore` | lab6/OrangePiVer/Src/mm.c:442-453 | A store of an aligned word inside an allocation by its owner disturbs no free list |
| `HeapRuns.OffRanges` | lab6/OrangePiVer/Src/mm.c:430-566 | When the frames out of circulation are those of given ranges, no live allocation has a byte of any of the ranges |
| `HeapRuns.HoldLess` | lab6/OrangePiVer/Src/mm.c:545-566 | Giving a pointer back makes that allocation and no other dead |
| `HeapRuns.LiveIsAllocation` | lab6/OrangePiVer/Src/mm.c:524-566 | A pointer is held iff some live allocation starts at it |
| `HeapRuns.RunHeap` | lab6/OrangePiVer/Src/mm.c:274-566 | After any sequence of allocate, free, alloc_pages and free_pages the pointers held are exactly the live allocations, each once; they are pairwise disjoint and meet none of the ranges |
| `HeapRuns.BootAndRun` | lab6/OrangePiVer/Src/mm.c:875-1031 | From mm_init on, after any such sequence: no live allocation has a byte in common with the DTB, [kernel start, kernel end), the initramfs, [0x3000000, 0x3400000), the frame array or another allocation, and the pointers held are exactly the starts of the live allocations |
| `Sv39.EncodeDecode` | lab6/OrangePiVer/Inc/vm.h:60-62 | Decoding an encoded entry gives back the page address and exactly the flags |
| `Sv39.FlagBits` | lab6/OrangePiVer/Inc/vm.h:32-39 | The flag bits of an entry are those of the flags it was made from |
| `Sv39.OrIsSum` | lab6/OrangePiVer/Inc/vm.h:60 | The flags never collide with the page number when they are or-ed in |
| `Sv39.MaskTests` | lab6/OrangePiVer/Src/vm.c:252-290 | Testing an entry against PTE_V and against the permission mask tells invalid, pointer and leaf entries apart |
| `Sv39.AddressBits` | lab6/OrangePiVer/Inc/vm.h:60-62 | An entry is free of the reserved bits 54 to 63 iff its address has 56 bits |
| `UserMap.AttachTable` | lab6/OrangePiVer/Src/vm.c:252-262 | Hanging an empty table below an invalid entry changes no translation and keeps the tables an unshared tree |
| `UserMap.SetLeafEffect` | lab6/OrangePiVer/Src/vm.c:326 | Writing one last-level entry changes the translation of that page in that address space and of nothing else |
| `UserMap.NewRootTranslations` | lab6/OrangePiVer/Src/vm.c:212-239 | A root with the kernel's upper half and an empty lower half translates the upper half as the kernel does and faults below |
| `UserMap.MappingsSurvive` | lab6/OrangePiVer/Src/vm.c:303-330 | Whatever map_pages_to does, every address that translated before translates identically after, in every address space |
| `UserMap.AddressSpaces.WalkCreate` | lab6/OrangePiVer/Src/vm.c:241-301 | Returns the last-level slot of the address without changing any translation, or none because an upper level holds a leaf or memory is out |
| `UserMap.TakenMeans` | lab6/OrangePiVer/Src/vm.c:241-326 | The reason for a stop, entry by entry: a valid entry of the first or second level that is no pointer, or a valid entry of the last level |
| `UserMap.AddressSpaces.MapPagesTo` | lab6/OrangePiVer/Src/vm.c:303-330 | Returns 0 iff the pages mapped hold all size bytes, and then every byte of [va, va + size) leads to the byte of pa at the same distance with the requested flags; in every case no address outside the range rounded up to whole pages changes its translation, in any address space, and a stop has its reason (occupied entry, leaf met, no frame) |
| `UserMap.MappedByteMeans` | lab6/OrangePiVer/Src/vm.c:326 | A mapped byte lies at its physical address, readable, writable, executable and open to user mode just as the requested flags say; flags or addresses that Sv39 reserves fault |
| `UserMap.AddressSpaces.CreateUserPgd` | lab6/OrangePiVer/Src/vm.c:212-239 | The new address space shares the kernel half, maps nothing else, and no other address space changes; NULL only if no frame is free |
| `BootMap.TablesTranslate` | lab6/OrangePiVer/Src/vm.c:108-195 | Tables of the boot shape translate exactly as the linear map says |
| `BootMap.EarlyTables.SetupVm` | lab6/OrangePiVer/Src/vm.c:108-195 | After setup_vm every address below 10 GiB, and every address of the 10 GiB from 0xffffffc000000000, leads to its own physical byte, readable and writable, not for user mode, and executable iff outside the three MMIO windows; all others fault |
| `BootMap.EarlyTables.MapMmioWindow` | lab6/OrangePiVer/Src/vm.c:41-106 | The 2 MiB window is split into 4 KiB pages without execute permission; out of range or out of tables nothing is mapped |
| `BootMap.EarlyTables.DropIdentityMap` | lab6/OrangePiVer/Src/vm.c:197-210 | Lower-half addresses fault from then on; every upper-half address translates as before |
| `BootMap.EarlyTables.Translations` | lab6/OrangePiVer/Src/vm.c:108-210 | The translation of every address after setup_vm and after drop_identity_map |
| `BootMap.LinearReaches` | lab6/OrangePiVer/Src/vm.c:108-210 | Every physical address below 10 GiB is reached at itself and in the upper half, and after drop_identity_map in the upper half only: readable, writable, not for user mode, executable iff outside the split windows |
| `UserMap.PointerReaches` | lab6/OrangePiVer/Src/mm.c:303-307 | An address alloc_pages returns, below 10 GiB, leads through the boot tables to its own frame, readable and writable |
| `BootMap.SplitKeepsTranslations` | lab6/OrangePiVer/Src/vm.c:41-106 | Splitting a window keeps every translation, less execute permission in it, iff the base is where the window was |
| `BootMap.WindowOfBase` | lab6/OrangePiVer/Src/vm.c:49-55 | The window number computed from the address names the window of the base iff the base is below 2^39 |
| `FdtTree.OwnComesFirst` | lab6/OrangePiVer/Src/fdt.c:156-216 | In a tree with properties before subnodes, the first property of a name in the subtree is the node's own whenever the node has one |
| `FdtTree.MatchLenSnoc` | lab6/OrangePiVer/Src/fdt.c:79-105 | How a further open node changes the number of matched segments |
| `FdtTree.PathOfSegments` | lab6/OrangePiVer/Src/fdt.c:79-124 | A list of slash-free segments, joined by slashes behind a slash, has just these segments, iff the list is empty or its last segment is not |
| `FdtTree.PathJoined` | lab6/OrangePiVer/Src/fdt.c:79-124 | No segment of an absolute path holds a slash, and joining the segments with slashes gives the path again up to one slash at its end |
| `FdtTree.NameMatchMeans` | lab6/OrangePiVer/Src/fdt.c:46-57 | A name matches a segment iff it is the segment, or the segment with an at sign and a unit address behind it |
| `FdtTree.PathTargetMeans` | lab6/OrangePiVer/Src/fdt.c:59-154 | An absolute path leads one level down per segment, from the root on, to a node whose name matches; the target is the least offset of such a node, -1 iff there is none; a relative path has none |
| `FdtBytes.FourBytes` | lab6/OrangePiVer/Src/fdt.c:24-31 | A big-endian number is the sum of its four bytes, the first weighing 2^24 |
| `FdtBytes.EightBytes` | lab6/OrangePiVer/Src/fdt.c:33-44 | Of eight bytes the first four are the high half |
| `FdtBytes.NextReads` | lab6/OrangePiVer/Src/fdt.c:72-150 | In a block that holds a tree, the word at the reader and the padding it skips lead from token to token of the tree, inside the block |
| `Fdt.Fdt32` | lab6/OrangePiVer/Src/fdt.c:24-31 | Or-ing shifted bytes gives the big-endian number |
| `Fdt.Fdt64` | lab6/OrangePiVer/Src/fdt.c:33-44 | The same for eight bytes |
| `Fdt.NodeNameMatch` | lab6/OrangePiVer/Src/fdt.c:46-57 | True iff the segment is the node's name, or its name up to the unit address |
| `Fdt.SegmentStart` | lab6/OrangePiVer/Src/fdt.c:86-94 | The skip loop finds the segment of the given depth, the end of the path if there is none; FdtTree.PathJoined says what the segments are |
| `Fdt.CountSegments` | lab6/OrangePiVer/Src/fdt.c:110-124 | The count loop counts the segments of the path |
| `Fdt.MatchNode` | lab6/OrangePiVer/Src/fdt.c:81-105 | One comparison extends the match along the open nodes |
| `Fdt.SearchOpen` | lab6/OrangePiVer/Src/fdt.c:74-131 | Entering a node either finds the target or keeps the counters in step with the search in the tree |
| `Fdt.SearchPass` | lab6/OrangePiVer/Src/fdt.c:132-146 | FDT_END_NODE, properties and no-ops keep them in step |
| `Fdt.PathOffset` | lab6/OrangePiVer/Src/fdt.c:59-154 | For every well-formed blob and every path the result is that of a search in the tree: the first node in document order whose ancestors match the segments, -1 if none, for relative paths and for a bad magic number |
| `Fdt.GetProp` | lab6/OrangePiVer/Src/fdt.c:156-216 | The first property of the name, in document order, in the node or below it; none for a bad magic number or a place that is no node |
| `Fdt.NodeAtHeld` | lab6/OrangePiVer/Src/fdt.c:59-154 | The offset of a node of the tree is a place where the block holds that node |
| `Fdt.GetU64Prop` | lab6/OrangePiVer/Src/fdt.c:247-260 | The two scans composed: eight bytes of the first such property at the path, 0 if there is none or it is shorter |
| `Fdt.PropertyMeans` | lab6/OrangePiVer/Src/fdt.c:59-216 | What the two scans find is the property of the name at the least offset in the node the path leads to or below it, with its bytes as value; nothing is found iff there is no such node or property |
| `RunQueue.UnlinkLinks` | lab6/OrangePiVer/Src/thread.c:30-55 | Taking a slot out of the ring leaves the ring of the others |
| `RunQueue.EndConsistent` | lab6/OrangePiVer/Src/thread.c:192-335 | Ending a queued slot keeps the whole invariant: queue exactly the runnable and running slots, each once and always idle, exactly one running and it is current, live pids distinct |
| `RunQueue.PidUnique` | lab6/OrangePiVer/Src/thread.c:254-261 | The slot task_find_by_pid finds is the only one task_kill can mean |
| `RunQueue.EndedMeans` | lab6/OrangePiVer/Src/thread.c:192-335 | Who ends is a zombie off the queue; every other slot keeps state, pid and parent, but for the one that runs next |
| `RunQueue.HeirIsForker` | lab6/OrangePiVer/Src/thread.c:192-216 | The slot that runs after a forked thread ends holds the very thread that forked it iff the parent's slot still carries the pid recorded at the fork and is neither unused nor a zombie |
| `RunQueue.StrangerInherits` | lab6/OrangePiVer/Src/thread.c:192-216 | A run that reaches the other case: 1 forks 2 and 3 and ends, idle reaps it and starts 4 in its slot, and when 2 ends 4 runs, neither its parent nor next in the circle |
| `RunQueue.RoundRobin` | lab6/OrangePiVer/Src/thread.c:166-183 | n schedules on a queue of n run every slot exactly once and come back |
| `RunQueue.Scheduler.constructor` | lab6/OrangePiVer/Src/thread.c:105-137 | thread_init establishes the invariant with idle alone |
| `RunQueue.Scheduler.RunqAdd` | lab6/OrangePiVer/Src/thread.c:18-28 | The slot becomes the last of the circle |
| `RunQueue.Scheduler.RunqRemove` | lab6/OrangePiVer/Src/thread.c:30-55 | The slot leaves the circle and the tail stays right; a slot that is not queued changes nothing |
| `RunQueue.Scheduler.PickNext` | lab6/OrangePiVer/Src/thread.c:61-72 | The first slot ahead that may run, the current one after a full circle |
| `RunQueue.Scheduler.Schedule` | lab6/OrangePiVer/Src/thread.c:166-183 | The successor in the circle runs and the queue stays as it is |
| `RunQueue.Scheduler.KillZombies` | lab6/OrangePiVer/Src/thread.c:225-242 | Exactly the zombies no live user parent waits for become free slots; a zombie whose parent slot holds a live user task keeps slot, pid, status and parent |
| `RunQueue.Scheduler.ThreadCreate` | lab6/OrangePiVer/Src/thread.c:139-164 | The lowest free slot after reaping joins the end of the queue with a pid no live slot has, as a kernel task without parent and with status 0; NULL iff no slot is free; a zombie whose parent is a live user task keeps its slot and status |
| `RunQueue.Scheduler.ThreadExit` | lab6/OrangePiVer/Src/thread.c:192-223 | The current slot leaves the queue as a zombie; its parent slot runs if that may run, otherwise its successor; what runs is the forking thread iff that is still there and alive |
| `RunQueue.Scheduler.Adopt` | lab6/OrangePiVer/Src/user.c:194-262 | The new slot becomes a user task whose parent is the current slot; the pid in it is recorded |
| `RunQueue.Scheduler.TaskReap` | lab6/OrangePiVer/Src/thread.c:266-296 | Only a zombie other than idle becomes a free slot |
| `RunQueue.Scheduler.FindByPid` | lab6/OrangePiVer/Src/thread.c:254-261 | A slot in use of this pid, NULL iff there is none |
| `RunQueue.Scheduler.TaskKill` | lab6/OrangePiVer/Src/thread.c:303-335 | -1 iff no live slot but idle has the pid; otherwise that slot ends with the status, and the current one runs on unless it is the one |
| `SignalBits.AndTests` | lab6/OrangePiVer/Src/signal.c:142-149 | n & (1 << k) tests bit k |
| `SignalBits.OrSets` | lab6/OrangePiVer/Src/signal.c:137 | n | (1 << k) sets bit k and no other |
| `SignalBits.AndClears` | lab6/OrangePiVer/Src/signal.c:187 | n & ~(1 << k) clears bit k and no other |
| `Signals.HandlerKeepsSaved` | lab6/OrangePiVer/Src/signal.c:155-252 | Whatever a handler does short of sigreturn, exec or its end, the frame saved at delivery stays as it was |
| `Signals.SigreturnRestores` | lab6/OrangePiVer/Src/signal.c:230-252 | sigreturn gives back the saved frame bit for bit: the process goes on with it or with the next waiting handler, which will go back to the same frame |
| `Signals.RoundTrip` | lab6/OrangePiVer/Src/signal.c:155-252 | From delivery through any steps of the handler to sigreturn, the interrupted context comes back |
| `Signals.StraySigreturn` | lab6/OrangePiVer/Src/trap.c:58-76 | A sigreturn outside a handler only steps past its ecall and leaves a0 alone |
| `Signals.WaitingAscends` | lab6/OrangePiVer/Src/signal.c:142-149 | The waiting signals are those whose bit is set, in ascending order |
| `Signals.PostWaits` | lab6/OrangePiVer/Src/signal.c:108-140 | A signal sent to a live process waits afterwards, beside those that did, if it has a handler, and ends the process if not; an invalid one changes nothing |
| `Signals.AllPosted` | lab6/OrangePiVer/Src/signal.c:108-140 | The same for any sequence of signals: the process lives iff each valid one has a handler, and those are then what is new among the waiting |
| `Signals.CallAnswers` | lab6/OrangePiVer/Src/trap.c:58-77 | A system call other than sigreturn and a successful exec leaves the frame as it was but for sepc, 4 further, and a0, the value of the call: the old handler or -1, 0 or -1 for a signal sent, else what the call gives. The process goes on with that frame, at once if no signal waits, else after the handler, as the frame saved |
| `Signals.LivesOn` | lab6/OrangePiVer/Src/trap.c:25-116 | A process that neither exits nor sends itself a signal without a handler survives its call, as long as the signals that wait have handlers |
| `Signals.InterruptReturns` | lab6/OrangePiVer/Src/trap.c:80-116 | A trap that is no system call gives back the very frame, at once or after a handler |
| `Signals.ExecStarts` | lab6/OrangePiVer/Src/trap.c:58-77 | A successful exec starts the new program with a0 == 0, no handlers, nothing waiting and no handler running |
| `Signals.AllWaitingHandled` | lab6/OrangePiVer/Src/signal.c:142-252 | With n handled signals waiting and no new ones, exactly n handlers run, each entered at its start with the saved frame, in that order, and then the original context resumes with none waiting |
| `Signals.UserTask.TaskInit` | lab6/OrangePiVer/Src/signal.c:32-44 | Clears handlers, pending set, handling state and saved frame |
| `Signals.UserTask.InheritFrom` | lab6/OrangePiVer/Src/signal.c:46-65 | A child keeps each of the parent's handlers; pending set, handling state and saved frame are cleared |
| `Signals.UserTask.SysSignal` | lab6/OrangePiVer/Src/signal.c:92-106 | Sets the handler of a signal from 1 to 31 and returns the old one, leaving the other handlers; -1 and no change otherwise |
| `Signals.UserTask.SysKill` | lab6/OrangePiVer/Src/signal.c:108-140 | An invalid signal or an ended process gives -1 and changes nothing; else a signal without a handler ends the process and one with a handler is waiting afterwards, beside those that were |
| `Signals.UserTask.FindPending` | lab6/OrangePiVer/Src/signal.c:142-149 | The lowest waiting signal, 0 for none |
| `Signals.UserTask.TryDeliver` | lab6/OrangePiVer/Src/signal.c:155-228 | Nothing while a handler runs; else the lowest waiting signal is entered or ends the process |
| `Signals.UserTask.SysSigreturn` | lab6/OrangePiVer/Src/signal.c:230-252 | The saved frame comes back and the handling state is cleared; -1 outside a handler |
| `Signals.UserTask.DoTrap` | lab6/OrangePiVer/Src/trap.c:25-116 | The whole trap: sepc + 4, the call, a0 written back except for sigreturn, then delivery on the way to user mode |
| `EventQueue.PlaceSorted` | lab6/OrangePiVer/Src/timer.c:181-203 | Insertion keeps the queue sorted |
| `EventQueue.PlaceStable` | lab6/OrangePiVer/Src/timer.c:181-203 | Among equal keys the new entry comes last and the others keep their order |
| `EventQueue.PlaceAllSorts` | lab6/OrangePiVer/Src/timer.c:181-203 | Entries inserted one after the other are sorted by key, and by arrival within a key |
| `EventQueue.InOrderTake` | lab6/OrangePiVer/Src/task.c:126-132 | Taking the head keeps, for each key, what has left followed by what waits equal to what came |
| `EventQueue.Queue.Insert` | lab6/OrangePiVer/Src/timer.c:159-206 | On the linked pool: the contents become the sorted insertion, failing iff no node is free |
| `EventQueue.Queue.PopFirst` | lab6/OrangePiVer/Src/timer.c:255-262 | The first entry leaves and its node goes back to the free list |
| `EventQueue.Queue.Conserved` | lab6/OrangePiVer/Src/timer.c:46-60 | Queued plus free nodes are the pool, each node on exactly one list |
| `Timer.DueIsLeast` | lab6/OrangePiVer/Src/timer.c:67-91 | Due is the minimum of the next tick and all expiry times |
| `Timer.DeadlineOverRuns` | lab6/OrangePiVer/Src/timer.c:67-310 | Over any run of add_timer, timer_trigger_now and handled interrupts from a right deadline, it is right at the end iff no trigger stands (one after which neither an interrupt nor a new first timer came) or its time is the one that is due |
| `Timer.TriggerStands` | lab6/OrangePiVer/Src/timer.c:159-306 | A run in which a trigger stands: a timer of 5 s, a trigger, a timer of 6 s |
| `Timer.SetDeadline` | lab6/OrangePiVer/Src/timer.c:181-195 | An accepted timer leaves the deadline right iff it came first or the deadline was right |
| `Timer.HandlerEnds` | lab6/OrangePiVer/Src/timer.c:211-279 | Room for tasks or not, the handler is done iff at some reading no more timers have expired than it has taken; one turn more than there are timers and add_timer calls suffices |
| `Timer.NeedNotEnd` | lab6/OrangePiVer/Src/timer.c:211-279 | With a full task queue a callback that adds itself for 0 s keeps the handler going for any number of turns, with the clock moving on |
| `Timer.InTurn` | lab6/OrangePiVer/Src/timer.c:255-275 | Expired callbacks stand behind the waiting ones of priority 1, in the order they were taken |
| `Timer.TimerUnit.ExpiryOrder` | lab6/OrangePiVer/Src/timer.c:159-279 | Over the whole run the timers taken, then those waiting, are sorted by expiry, and within one expiry time they are the registered ones in the order of registration |
| `Timer.TimerUnit.Program` | lab6/OrangePiVer/Src/timer.c:67-91 | The deadline becomes that minimum |
| `Timer.TimerUnit.AddTimer` | lab6/OrangePiVer/Src/timer.c:159-206 | Stable sorted insertion at the time now plus 24,000,000 ticks per second asked for; afterwards the deadline is right iff the timer came first or it was right before |
| `Timer.TimerUnit.TriggerNow` | lab6/OrangePiVer/Src/timer.c:286-306 | The deadline becomes the time just read; queue and tick stay |
| `Timer.TimerUnit.CatchUp` | lab6/OrangePiVer/Src/timer.c:224-229 | The tick stays on the boot-time grid and is the first value after now |
| `Timer.TimerUnit.HandleInterrupt` | lab6/OrangePiVer/Src/timer.c:211-279 | When done, the tick is after and within one interval of the last reading, no expired timer is left and the deadline is the minimum; while the other queue has room the timers taken are the first ones, in order, and one turn more than there are timers suffices; it is done iff it runs dry, whatever the room |
| `Timer.TimerUnit.TakeOne` | lab6/OrangePiVer/Src/timer.c:255-276 | The first timer becomes the last of priority 1 in the other queue, or, when that is full, its callback runs at once and its add_timer calls take effect |
| `TaskQueue.IdleLeaves` | lab6/OrangePiVer/Src/task.c:111-124 | With no callback running, what waits and may not begin is exactly the work of priority INT_MIN |
| `TaskQueue.FifoOverRuns` | lab6/OrangePiVer/Src/task.c:61-160 | Over every run the callbacks of one priority begin in the order they were accepted: those begun, then those waiting, are those accepted |
| `TaskQueue.LowestNeverBegins` | lab6/OrangePiVer/Src/task.c:111-124 | Accepted work of priority INT_MIN has not begun in any state that is reached, and still waits |
| `TaskQueue.BegunWhenIdle` | lab6/OrangePiVer/Src/task.c:111-160 | When a run from idle is complete, accepted work has begun iff its priority is not INT_MIN |
| `TaskQueue.TaskRunner.AddTask` | lab6/OrangePiVer/Src/task.c:61-105 | Insertion in descending priority, first in first out within one; fails iff there is no callback or no free node |
| `TaskQueue.TaskRunner.MayBegin` | lab6/OrangePiVer/Src/task.c:115-124 | The preemption test holds iff something waiting is not below the current priority |
| `TaskQueue.TaskRunner.Begin` | lab6/OrangePiVer/Src/task.c:126-138 | The first of the highest begins on top of a stack of non-decreasing priorities, whose top is the current priority |
| `TaskQueue.TaskRunner.Finish` | lab6/OrangePiVer/Src/task.c:154-157 | The current priority is that of the interrupted callback again |
| `TaskQueue.PendingRestores` | lab6/OrangePiVer/Src/task.c:111-160 | However traps nest inside callbacks, the current priority afterwards is the one before |
| `TaskQueue.TaskRunner.RunPending` | lab6/OrangePiVer/Src/task.c:111-160 | With any nesting of traps and additions inside callbacks: every callback begun has ended, the current priority is the one found on entry, nothing is lost or begun twice, the queue is what the nested steps make of it, and it is complete iff all that waits is below the current priority; from idle it has then begun all accepted work but that of priority INT_MIN |

## Left out

- Concurrency: interrupt masking is taken as making each method one step; `switch_to` is the assignment of the current slot.
- Assembly, CSR access, TLB flushes, fences, SBI calls, UART and log output: no-ops or inputs.
- Contents of allocated pages other than links in free chunks and page-table entries.
- `fork`, `exec` and the loaders copy memory; only their effect on the thread table, the signal fields and the trap frame is modelled.
- `dtb_get_memory_region` and `dtb_get_reg_base`: the same two scans as `dtb_get_u64_prop`; `mm_init` takes the region as an input.
- Malformed devicetree blobs: the scans have no bounds checks of their own, so nothing is claimed for them.
- The blob's address: pointers are offsets into the structure block, which is taken to be four-byte aligned, so alignment of offsets is alignment of addresses.
- Traps the kernel does not handle (it prints and stops) and traps from kernel mode, which deliver no signal.
- `RunQueue.Scheduler.ThreadExit`: does not model the idle slot ending, which in the source never returns from a loop of schedules.
- `RunQueue.Scheduler.ThreadCreate`: does not model `next_pid` passing 2^31 - 1, which the source leaves undefined.
- `Signals.UserTask.SysKill`: the lookup of the pid is an input; `RunQueue.Scheduler.FindByPid` models it.
- `Timer.TimerUnit.HandleInterrupt`: a callback run directly may add timers only; its other effects are outside the timer queue.
- `Timer.TimerUnit.AddTimer`: does not model the tick counter passing 2^64, some 24,000 years after boot.
- `ChunkHeap.KernelHeap.OwnerStore`: memory is modelled by aligned words, so a narrower store is the store of the word that holds it; stores across two words are two stores.
- `EventQueue.Queue.Insert`: one model of two copies of the same list code; for `task.c` the key is the negated priority, so its comparisons appear with both sides negated.
- `kill_zombies` inside the idle loop, `sys_waitpid` and the shell's use of the scheduler: callers of the modelled operations.
- UART, PLIC, video, shell, serial loader, initrd, `kstring.c`, and labs 0 to 5: device code, scans that are easier than the core, and earlier versions of the same files.

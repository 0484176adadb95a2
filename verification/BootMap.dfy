/**
 The kernel's own page tables: setup_vm, map_mmio_2m_window and drop_identity_map.
 */
module BootMap {
  import opened Bits
  import opened Sv39

  const EARLY_MAP_GIB: nat := 10
  const EARLY_PTE_TABLES: nat := 4
  const MAPPED_END: nat := EARLY_MAP_GIB * PGD_SIZE

  // The flag constants are ors of different bits, which add.
  const MMIO_PAGE_FLAGS: nat := PTE_V + PTE_R + PTE_W + PTE_G + PTE_A + PTE_D
  const KERNEL_PAGE_FLAGS: nat := MMIO_PAGE_FLAGS + PTE_X

  // VPN[2] of KERNEL_VA_OFFSET.
  const KERNEL_PGD_BASE: nat := HIGH_START / PGD_SIZE % 512

  // Physical addresses of the static tables, which do not overlap.
  datatype Layout = Layout(pgd: nat, pmd: seq<nat>, pte: seq<nat>)

  ghost predicate LayoutOk(l: Layout)
  {
    && |l.pmd| == EARLY_MAP_GIB && |l.pte| == EARLY_PTE_TABLES
    && l.pgd % PAGE == 0 && l.pgd < PA_END && l.pgd !in l.pmd && l.pgd !in l.pte
    && (forall i :: 0 <= i < |l.pmd| ==> l.pmd[i] % PAGE == 0 && l.pmd[i] < PA_END && l.pmd[i] !in l.pte)
    && (forall i :: 0 <= i < |l.pte| ==> l.pte[i] % PAGE == 0 && l.pte[i] < PA_END)
    && (forall i, j :: 0 <= i < j < |l.pmd| ==> l.pmd[i] != l.pmd[j])
    && (forall i, j :: 0 <= i < j < |l.pte| ==> l.pte[i] != l.pte[j])
  }

  // ---------- the mapping the tables stand for ----------

  // The 2 MiB windows that have been split, by number, with the address each leads to.
  type Windows = map<nat, nat>

  // The windows that setup_vm splits.
  const BOOT_WINDOWS: Windows :=
    map[0xd400_0000 / PMD_SIZE := 0xd400_0000, 0xd420_0000 / PMD_SIZE := 0xd420_0000, 0xe000_0000 / PMD_SIZE := 0xe000_0000]

  function Linear(windows: Windows, p: nat): Outcome
  {
    var w := p / PMD_SIZE;
    if w in windows then Mapped(windows[w] + p % PMD_SIZE, MMIO_PAGE_FLAGS) else Mapped(p, KERNEL_PAGE_FLAGS)
  }

  // The linear map of the first 10 GiB, in the upper half and, with identity, in the lower.
  function Expect(identity: bool, windows: Windows, va: nat): Outcome
  {
    if identity && va < MAPPED_END then Linear(windows, va)
    else if HIGH_START <= va < HIGH_START + MAPPED_END then Linear(windows, va - HIGH_START)
    else Fault
  }

  // ---------- the tables ----------

  function PgdEntry(l: Layout, identity: bool, i: nat): nat
    requires |l.pmd| == EARLY_MAP_GIB
  {
    if identity && i < EARLY_MAP_GIB then PointerTo(l.pmd[i])
    else if KERNEL_PGD_BASE <= i < KERNEL_PGD_BASE + EARLY_MAP_GIB then PointerTo(l.pmd[i - KERNEL_PGD_BASE])
    else 0
  }

  // The root table once the first gib GiB are entered in both halves.
  ghost predicate PgdUpTo(t: seq<nat>, l: Layout, gib: nat)
    requires |l.pmd| == EARLY_MAP_GIB && gib <= EARLY_MAP_GIB
  {
    && |t| == ENTRIES
    && (forall i :: 0 <= i < gib ==> t[i] == PointerTo(l.pmd[i]))
    && (forall i :: KERNEL_PGD_BASE <= i < KERNEL_PGD_BASE + gib ==> t[i] == PointerTo(l.pmd[i - KERNEL_PGD_BASE]))
    && (forall i :: gib <= i < KERNEL_PGD_BASE || KERNEL_PGD_BASE + gib <= i < ENTRIES ==> t[i] == 0)
  }

  lemma PgdNext(t: seq<nat>, t': seq<nat>, l: Layout, gib: nat)
    requires |l.pmd| == EARLY_MAP_GIB && gib < EARLY_MAP_GIB && PgdUpTo(t, l, gib)
    requires t' == t[gib := PointerTo(l.pmd[gib])][KERNEL_PGD_BASE + gib := PointerTo(l.pmd[gib])]
    ensures PgdUpTo(t', l, gib + 1)
  {
  }

  function BlockEntry(w: nat): nat
  {
    PaToPte(w * PMD_SIZE) + KERNEL_PAGE_FLAGS
  }

  function PageEntry(base: nat, k: nat): nat
  {
    PaToPte(base + k * PAGE) + MMIO_PAGE_FLAGS
  }

  // The PMD table of one GiB: blocks of 2 MiB, or the table of a split window.
  ghost predicate PmdOk(m: Tables, l: Layout, windows: Windows, ptes: map<nat, nat>, g: nat)
    requires |l.pmd| == EARLY_MAP_GIB && g < EARLY_MAP_GIB && ptes.Keys == windows.Keys
  {
    && l.pmd[g] in m && |m[l.pmd[g]]| == ENTRIES
    && forall i: nat :: i < ENTRIES ==>
         m[l.pmd[g]][i] == if g * 512 + i in windows then PointerTo(ptes[g * 512 + i]) else BlockEntry(g * 512 + i)
  }

  ghost predicate PteOk(m: Tables, t: nat, base: nat)
  {
    && t in m && |m[t]| == ENTRIES && t % PAGE == 0 && t < PA_END && base % PMD_SIZE == 0 && base < PA_END
    && forall k: nat :: k < ENTRIES ==> m[t][k] == PageEntry(base, k)
  }

  ghost predicate TablesOk(m: Tables, l: Layout, identity: bool, windows: Windows, ptes: map<nat, nat>)
  {
    && LayoutOk(l) && ptes.Keys == windows.Keys
    && l.pgd in m && |m[l.pgd]| == ENTRIES && (forall i: nat :: i < ENTRIES ==> m[l.pgd][i] == PgdEntry(l, identity, i))
    && (forall g: nat :: g < EARLY_MAP_GIB ==> PmdOk(m, l, windows, ptes, g))
    && (forall w :: w in windows ==> PteOk(m, ptes[w], windows[w]))
  }

  lemma PmdIndices(p: nat)
    ensures p / PMD_SIZE == p / PGD_SIZE * 512 + Vpn(p, 1)
  {
    assert p / PGD_SIZE == p / PMD_SIZE / 512;
  }

  // Adding a multiple of d * 512 changes no index taken modulo 512.
  lemma ShiftIndex(p: nat, d: nat, q: nat)
    requires d > 0
    ensures (q * 512 * d + p) / d % 512 == p / d % 512
    ensures (q * 512 * d + p) % d == p % d
  {
    DivModUnique(q * 512 * d + p, d, q * 512 + p / d, p % d);
    DivModUnique(q * 512 + p / d, 512, q + p / d / 512, p / d % 512);
  }

  lemma HighIndices(p: nat)
    requires p < MAPPED_END
    ensures Vpn(p, 2) == p / PGD_SIZE < EARLY_MAP_GIB && Vpn(HIGH_START + p, 2) == KERNEL_PGD_BASE + p / PGD_SIZE
    ensures Vpn(HIGH_START + p, 1) == Vpn(p, 1) && (HIGH_START + p) % PMD_SIZE == p % PMD_SIZE
  {
    var q := HIGH_START / PGD_SIZE;
    assert HIGH_START == q * PGD_SIZE == q * 512 * PMD_SIZE;
    DivModUnique(HIGH_START + p, PGD_SIZE, q + p / PGD_SIZE, p % PGD_SIZE);
    ShiftIndex(p, PMD_SIZE, q);
  }

  lemma BlockWalk(m: Tables, t: nat, va: nat, w: nat)
    requires t in m && |m[t]| == ENTRIES && m[t][Vpn(va, 1)] == BlockEntry(w) && w < EARLY_MAP_GIB * 512
    ensures Walk(m, t, 1, va) == Mapped(w * PMD_SIZE + va % PMD_SIZE, KERNEL_PAGE_FLAGS)
  {
    LeafWalk(m, t, 1, va, w * PMD_SIZE, KERNEL_PAGE_FLAGS);
  }

  lemma WindowOffset(va: nat)
    ensures Vpn(va, 0) * PAGE + va % PAGE == va % PMD_SIZE
  {
  }

  ghost predicate NoPointers(row: seq<nat>)
  {
    |row| == ENTRIES && forall k :: 0 <= k < |row| ==> !IsPointer(row[k])
  }

  lemma PteHasNoPointers(m: Tables, pte: nat, base: nat)
    requires PteOk(m, pte, base)
    ensures NoPointers(m[pte])
  {
    forall k | 0 <= k < ENTRIES
      ensures !IsPointer(m[pte][k])
    {
      assert m[pte][k] == PageEntry(base, k);
      FlagBits(base + k * PAGE, MMIO_PAGE_FLAGS);
    }
  }

  lemma PageInWindow(base: nat, k: nat)
    requires base % PMD_SIZE == 0 && base < PA_END && k < ENTRIES
    ensures (base + k * PAGE) % PAGE == 0 && base + k * PAGE < PA_END
  {
  }

  lemma PageWalk(m: Tables, pte: nat, va: nat, base: nat)
    requires PteOk(m, pte, base)
    ensures Walk(m, pte, 0, va) == Mapped(base + va % PMD_SIZE, MMIO_PAGE_FLAGS)
  {
    var pa := base + Vpn(va, 0) * PAGE;
    PageInWindow(base, Vpn(va, 0));
    LeafWalk(m, pte, 0, va, pa, MMIO_PAGE_FLAGS);
    WindowOffset(va);
  }

  lemma SplitWalk(m: Tables, t: nat, va: nat, pte: nat, base: nat)
    requires t in m && |m[t]| == ENTRIES && m[t][Vpn(va, 1)] == PointerTo(pte) && PteOk(m, pte, base)
    ensures Walk(m, t, 1, va) == Mapped(base + va % PMD_SIZE, MMIO_PAGE_FLAGS)
  {
    PointerShape(pte);
    PageWalk(m, pte, va, base);
  }

  // A PMD table maps its GiB whichever half it is reached from.
  lemma PmdWalk(m: Tables, l: Layout, identity: bool, windows: Windows, ptes: map<nat, nat>, g: nat, va: nat, p: nat)
    requires TablesOk(m, l, identity, windows, ptes) && p / PGD_SIZE == g < EARLY_MAP_GIB
    requires Vpn(va, 1) == Vpn(p, 1) && va % PMD_SIZE == p % PMD_SIZE
    ensures Walk(m, l.pmd[g], 1, va) == Linear(windows, p)
  {
    PmdIndices(p);
    var i := Vpn(p, 1);
    assert PmdOk(m, l, windows, ptes, g);
    if g * 512 + i in windows {
      SplitWalk(m, l.pmd[g], va, ptes[g * 512 + i], windows[g * 512 + i]);
    } else {
      BlockWalk(m, l.pmd[g], va, g * 512 + i);
    }
  }

  // The root index of an address in the lower half, and of one in the upper half.
  lemma LowerIndex(va: nat)
    requires va < LOW_END
    ensures Vpn(va, 2) == va / PGD_SIZE < 256
  {
    DivModUnique(va / PGD_SIZE, 512, 0, va / PGD_SIZE);
  }

  lemma UpperIndex(va: nat)
    requires HIGH_START <= va < VA_END
    ensures Vpn(va, 2) == 256 + (va - HIGH_START) / PGD_SIZE < 512
  {
    var h, q := (va - HIGH_START) / PGD_SIZE, HIGH_START / PGD_SIZE;
    DivModUnique(va, PGD_SIZE, q + h, (va - HIGH_START) % PGD_SIZE);
    DivModUnique(q + h, 512, q / 512, 256 + h);
  }

  // Outside the linear map the root entry is empty.
  lemma UnmappedIndex(identity: bool, va: nat)
    requires Canonical(va) && !(va < MAPPED_END && identity) && !(HIGH_START <= va < HIGH_START + MAPPED_END)
    ensures !(identity && Vpn(va, 2) < EARLY_MAP_GIB)
    ensures !(KERNEL_PGD_BASE <= Vpn(va, 2) < KERNEL_PGD_BASE + EARLY_MAP_GIB)
  {
    if va >= HIGH_START {
      UpperIndex(va);
    } else {
      LowerIndex(va);
    }
  }

  lemma PgdEntryHigh(l: Layout, identity: bool, g: nat)
    requires |l.pmd| == EARLY_MAP_GIB && g < EARLY_MAP_GIB
    ensures KERNEL_PGD_BASE + g < ENTRIES && PgdEntry(l, identity, KERNEL_PGD_BASE + g) == PointerTo(l.pmd[g])
  {
  }

  lemma UnmappedTranslate(m: Tables, l: Layout, identity: bool, windows: Windows, ptes: map<nat, nat>, va: nat)
    requires TablesOk(m, l, identity, windows, ptes)
    requires Canonical(va) && !(va < MAPPED_END && identity) && !(HIGH_START <= va < HIGH_START + MAPPED_END)
    ensures Translate(m, l.pgd, va) == Fault
  {
    UnmappedIndex(identity, va);
    assert m[l.pgd][Vpn(va, 2)] == PgdEntry(l, identity, Vpn(va, 2));
  }

  // The tables translate as the mapping says, at every address.
  lemma TablesTranslate(m: Tables, l: Layout, identity: bool, windows: Windows, ptes: map<nat, nat>, va: nat)
    requires TablesOk(m, l, identity, windows, ptes)
    ensures Translate(m, l.pgd, va) == Expect(identity, windows, va)
  {
    if va < MAPPED_END && identity {
      LowerTranslate(m, l, identity, windows, ptes, va);
    } else if HIGH_START <= va < HIGH_START + MAPPED_END {
      UpperTranslate(m, l, identity, windows, ptes, va);
    } else if Canonical(va) {
      UnmappedTranslate(m, l, identity, windows, ptes, va);
    }
  }

  lemma LowerTranslate(m: Tables, l: Layout, identity: bool, windows: Windows, ptes: map<nat, nat>, va: nat)
    requires TablesOk(m, l, identity, windows, ptes) && identity && va < MAPPED_END
    ensures Translate(m, l.pgd, va) == Linear(windows, va)
  {
    HighIndices(va);
    assert m[l.pgd][Vpn(va, 2)] == PgdEntry(l, identity, Vpn(va, 2));
    PgdWalk(m, l, identity, windows, ptes, Vpn(va, 2), va, va);
  }

  lemma UpperTranslate(m: Tables, l: Layout, identity: bool, windows: Windows, ptes: map<nat, nat>, va: nat)
    requires TablesOk(m, l, identity, windows, ptes) && HIGH_START <= va < HIGH_START + MAPPED_END
    ensures Translate(m, l.pgd, va) == Linear(windows, va - HIGH_START)
  {
    var p := va - HIGH_START;
    HighIndices(p);
    PgdEntryHigh(l, identity, p / PGD_SIZE);
    PgdWalk(m, l, identity, windows, ptes, p / PGD_SIZE, va, p);
  }

  lemma PgdWalk(m: Tables, l: Layout, identity: bool, windows: Windows, ptes: map<nat, nat>, g: nat, va: nat, p: nat)
    requires TablesOk(m, l, identity, windows, ptes) && p / PGD_SIZE == g < EARLY_MAP_GIB
    requires m[l.pgd][Vpn(va, 2)] == PointerTo(l.pmd[g])
    requires Vpn(va, 1) == Vpn(p, 1) && va % PMD_SIZE == p % PMD_SIZE
    ensures Walk(m, l.pgd, 2, va) == Linear(windows, p)
  {
    PointerShape(l.pmd[g]);
    PmdWalk(m, l, identity, windows, ptes, g, va, p);
  }

  // Pointing one PMD entry at a filled page table splits that window and no other.
  lemma SplitOne(m: Tables, m': Tables, l: Layout, identity: bool, windows: Windows, ptes: map<nat, nat>, g: nat, i: nat, pte: nat, base: nat)
    requires TablesOk(m, l, identity, windows, ptes) && g < EARLY_MAP_GIB && i < ENTRIES
    requires PmdOk(m, l, windows, ptes, g)
    requires pte in l.pte && (forall w :: w in windows ==> ptes[w] != pte && ptes[w] in l.pte)
    requires PteOk(m', pte, base)
    requires l.pmd[g] in m' && m'[l.pmd[g]] == m[l.pmd[g]][i := PointerTo(pte)]
    requires forall t :: t in m && t != pte && t != l.pmd[g] ==> t in m' && m'[t] == m[t]
    ensures TablesOk(m', l, identity, windows[g * 512 + i := base], ptes[g * 512 + i := pte])
  {
    var windows', ptes' := windows[g * 512 + i := base], ptes[g * 512 + i := pte];
    forall h: nat | h < EARLY_MAP_GIB
      ensures PmdOk(m', l, windows', ptes', h)
    {
      assert PmdOk(m, l, windows, ptes, h);
      assert h != g ==> m'[l.pmd[h]] == m[l.pmd[h]];
    }
    forall w | w in windows'
      ensures PteOk(m', ptes'[w], windows'[w])
    {
      if w != g * 512 + i {
        assert PteOk(m, ptes[w], windows[w]);
      }
    }
  }

  // ---------- the early boot code ----------

  class EarlyTables {
    const l: Layout
    var mem: Tables
    var pteUsed: nat                 // early_pte_used
    ghost var identity: bool
    ghost var windows: Windows
    ghost var ptes: map<nat, nat>    // the table of each split window

    ghost predicate Ready()
      reads this
    {
      && TablesOk(mem, l, identity, windows, ptes) && pteUsed <= EARLY_PTE_TABLES
      && (forall i :: pteUsed <= i < EARLY_PTE_TABLES ==> l.pte[i] in mem && mem[l.pte[i]] == ZeroTable())
      && (forall w :: w in windows ==> ptes[w] in l.pte[..pteUsed])
      && (forall i :: 0 <= i < pteUsed ==> l.pte[i] in mem && NoPointers(mem[l.pte[i]]))
    }

    ghost predicate HasTables()
      reads this
    {
      && l.pgd in mem && |mem[l.pgd]| == ENTRIES
      && (forall t :: t in l.pmd ==> t in mem && |mem[t]| == ENTRIES)
      && (forall t :: t in l.pte ==> t in mem && |mem[t]| == ENTRIES)
    }

    // The image starts with cleared tables.
    constructor (l: Layout)
      requires LayoutOk(l)
      ensures this.l == l && HasTables() && mem.Keys == TableSet(l) && forall t :: t in mem ==> mem[t] == ZeroTable()
    {
      this.l := l;
      mem := map t | t in TableSet(l) :: ZeroTable();
      pteUsed, identity, windows, ptes := 0, false, map[], map[];
    }

    static function TableSet(l: Layout): set<nat>
    {
      {l.pgd} + (set t | t in l.pmd) + (set t | t in l.pte)
    }

    // Splits the 2 MiB window around pa into 4 KiB pages without execute permission.
    method MapMmioWindow(pa: nat)
      requires Ready() && pa < PA_END
      modifies this`mem, this`pteUsed, this`windows, this`ptes
      ensures Ready() && mem.Keys == old(mem).Keys
      ensures var base := AlignDown(pa, PMD_SIZE);
              var w := Vpn(base, 2) * 512 + Vpn(base, 1);
              if Vpn(base, 2) < EARLY_MAP_GIB && old(pteUsed) < EARLY_PTE_TABLES
              then windows == old(windows)[w := base] && pteUsed == old(pteUsed) + 1
              else windows == old(windows) && pteUsed == old(pteUsed) && mem == old(mem)
    {
      var base := AlignDown(pa, PMD_SIZE);
      AlignDownGreatest(pa, PMD_SIZE);
      var pgdIndex := Vpn(base, 2);
      var pmdIndex := Vpn(base, 1);
      if pgdIndex >= EARLY_MAP_GIB {
        return;
      }
      if pteUsed >= EARLY_PTE_TABLES {
        return;
      }
      SplitWindow(base, pgdIndex, pmdIndex);
    }

    // The second half of map_mmio_2m_window.
    method SplitWindow(base: nat, pgdIndex: nat, pmdIndex: nat)
      requires Ready() && base % PMD_SIZE == 0 && base < PA_END
      requires pgdIndex < EARLY_MAP_GIB && pmdIndex < ENTRIES && pteUsed < EARLY_PTE_TABLES
      modifies this`mem, this`pteUsed, this`windows, this`ptes
      ensures Ready() && mem.Keys == old(mem).Keys
      ensures windows == old(windows)[pgdIndex * 512 + pmdIndex := base] && pteUsed == old(pteUsed) + 1
    {
      ghost var m := mem;
      var pte := NextPte(base);
      PteHasNoPointers(mem, pte, base);
      var entry := MakeEntry(pte, PTE_V);
      assert PmdOk(m, l, windows, ptes, pgdIndex);
      mem := SetEntry(mem, l.pmd[pgdIndex], pmdIndex, entry);
      SplitOne(m, mem, l, identity, windows, ptes, pgdIndex, pmdIndex, pte, base);
      windows := windows[pgdIndex * 512 + pmdIndex := base];
      ptes := ptes[pgdIndex * 512 + pmdIndex := pte];
    }

    // The next unused table, filled with the pages of the window.
    method NextPte(base: nat) returns (pte: nat)
      requires Ready() && pteUsed < EARLY_PTE_TABLES && base % PMD_SIZE == 0 && base < PA_END
      modifies this`mem, this`pteUsed
      ensures pteUsed == old(pteUsed) + 1 && pte == l.pte[old(pteUsed)]
      ensures mem.Keys == old(mem).Keys && pte in mem && PteOk(mem, pte, base)
      ensures forall t :: t in mem && t != pte ==> mem[t] == old(mem)[t]
    {
      pte := l.pte[pteUsed];
      pteUsed := pteUsed + 1;
      mem := mem[pte := ZeroTable()];
      FillPte(pte, base);
    }

    method FillPte(pte: nat, base: nat)
      requires pte in mem && |mem[pte]| == ENTRIES && pte % PAGE == 0 && pte < PA_END
      requires base % PMD_SIZE == 0 && base < PA_END
      modifies this`mem
      ensures mem.Keys == old(mem).Keys && PteOk(mem, pte, base)
      ensures forall t :: t in mem && t != pte ==> mem[t] == old(mem)[t]
    {
      for i := 0 to ENTRIES
        invariant mem.Keys == old(mem).Keys && |mem[pte]| == ENTRIES
        invariant forall t :: t in mem && t != pte ==> mem[t] == old(mem)[t]
        invariant forall k: nat :: k < i ==> mem[pte][k] == PageEntry(base, k)
      {
        var entry := MakeEntry(base + i * PAGE, MMIO_PAGE_FLAGS);
        mem := SetEntry(mem, pte, i, entry);
      }
    }

    method ClearTable(t: nat)
      requires t in mem && |mem[t]| == ENTRIES
      modifies this`mem
      ensures mem == old(mem)[t := ZeroTable()]
    {
      ghost var row := mem[t];
      for i := 0 to ENTRIES
        invariant t in mem && |mem[t]| == ENTRIES && mem == old(mem)[t := mem[t]]
        invariant forall j :: 0 <= j < i ==> mem[t][j] == 0
      {
        mem := SetEntry(mem, t, i, 0);
      }
      assert mem[t] == ZeroTable();
    }

    // One turn of the outer loop of setup_vm.
    method MapGib(gib: nat)
      requires LayoutOk(l) && gib < EARLY_MAP_GIB
      requires HasTables()
      modifies this`mem
      ensures mem.Keys == old(mem).Keys && (forall t :: t in mem && t != l.pgd && t != l.pmd[gib] ==> mem[t] == old(mem)[t])
      ensures l.pgd in mem && |mem[l.pgd]| == ENTRIES
      ensures mem[l.pgd] == old(mem)[l.pgd][gib := PointerTo(l.pmd[gib])][KERNEL_PGD_BASE + gib := PointerTo(l.pmd[gib])]
      ensures PmdOk(mem, l, map[], map[], gib)
    {
      var nonLeaf := MakeEntry(l.pmd[gib], PTE_V);
      mem := SetEntry(mem, l.pgd, gib, nonLeaf);
      mem := SetEntry(mem, l.pgd, KERNEL_PGD_BASE + gib, nonLeaf);
      ghost var m := mem;
      for i := 0 to ENTRIES
        invariant mem.Keys == m.Keys && (forall t :: t in mem && t != l.pmd[gib] ==> mem[t] == m[t])
        invariant |mem[l.pmd[gib]]| == ENTRIES
        invariant forall j: nat :: j < i ==> mem[l.pmd[gib]][j] == BlockEntry(gib * 512 + j)
      {
        var entry := MakeEntry(gib * PGD_SIZE + i * PMD_SIZE, KERNEL_PAGE_FLAGS);
        assert gib * PGD_SIZE + i * PMD_SIZE == (gib * 512 + i) * PMD_SIZE;
        mem := SetEntry(mem, l.pmd[gib], i, entry);
      }
    }

    // The clearing at the start of setup_vm.
    method ClearTables()
      requires LayoutOk(l) && HasTables()
      modifies this`mem
      ensures mem.Keys == old(mem).Keys && HasTables()
      ensures mem[l.pgd] == ZeroTable() && forall t :: t in l.pte ==> mem[t] == old(mem)[t]
    {
      ClearTable(l.pgd);
      for gib := 0 to EARLY_MAP_GIB
        invariant mem.Keys == old(mem).Keys && HasTables()
        invariant mem[l.pgd] == ZeroTable() && forall t :: t in l.pte ==> mem[t] == old(mem)[t]
      {
        ClearTable(l.pmd[gib]);
      }
    }

    // The loops of setup_vm: 10 GiB of blocks, reached from both halves.
    method MapBlocks()
      requires LayoutOk(l) && HasTables()
      modifies this`mem
      ensures TablesOk(mem, l, true, map[], map[])
      ensures mem.Keys == old(mem).Keys && HasTables() && forall t :: t in l.pte ==> mem[t] == old(mem)[t]
    {
      ClearTables();
      for gib := 0 to EARLY_MAP_GIB
        invariant mem.Keys == old(mem).Keys && HasTables()
        invariant PgdUpTo(mem[l.pgd], l, gib) && forall t :: t in l.pte ==> mem[t] == old(mem)[t]
        invariant forall g: nat :: g < gib ==> PmdOk(mem, l, map[], map[], g)
      {
        ghost var m := mem;
        MapGib(gib);
        PgdNext(m[l.pgd], mem[l.pgd], l, gib);
        forall g: nat | g < gib
          ensures PmdOk(mem, l, map[], map[], g)
        {
          assert PmdOk(m, l, map[], map[], g) && mem[l.pmd[g]] == m[l.pmd[g]];
        }
      }
      assert forall i: nat :: i < ENTRIES ==> mem[l.pgd][i] == PgdEntry(l, true, i);
    }

    method SetupVm()
      requires LayoutOk(l) && HasTables() && forall t :: t in l.pte ==> mem[t] == ZeroTable()
      modifies this
      ensures Ready() && identity && mem.Keys == old(mem).Keys
      ensures windows == map[0xd400_0000 / PMD_SIZE := 0xd400_0000, 0xd420_0000 / PMD_SIZE := 0xd420_0000, 0xe000_0000 / PMD_SIZE := 0xe000_0000]
      ensures forall va: nat ::
                var o := Translate(mem, l.pgd, va);
                if va < 0x2_8000_0000 then KernelAccess(o, va)
                else if 0xffff_ffc0_0000_0000 <= va < 0xffff_ffc2_8000_0000 then KernelAccess(o, va - 0xffff_ffc0_0000_0000)
                else o == Fault
    {
      BuildTables();
      ExpectAccess();
      forall va: nat
        ensures Translate(mem, l.pgd, va) == Expect(true, windows, va)
      {
        Translations(va);
      }
    }

    // The tables of setup_vm.
    method BuildTables()
      requires LayoutOk(l) && HasTables() && forall t :: t in l.pte ==> mem[t] == ZeroTable()
      modifies this
      ensures Ready() && identity && mem.Keys == old(mem).Keys
      ensures windows == BOOT_WINDOWS
    {
      MapBlocks();
      identity, windows, ptes := true, map[], map[];
      pteUsed := 0;
      MapDevice(0xd400_0000);
      MapDevice(0xd420_0000);
      MapDevice(0xe000_0000);
      BootWindowsBuilt();
    }

    // map_mmio_2m_window for a base inside the linear map.
    method MapDevice(base: nat)
      requires Ready() && base % PMD_SIZE == 0 && base < MAPPED_END && pteUsed < EARLY_PTE_TABLES
      modifies this`mem, this`pteUsed, this`windows, this`ptes
      ensures Ready() && mem.Keys == old(mem).Keys
      ensures windows == old(windows)[base / PMD_SIZE := base] && pteUsed == old(pteUsed) + 1
    {
      OwnWindow(base);
      MapMmioWindow(base);
    }

    // The temporary lower half goes; the upper half stays as it is.
    method DropIdentityMap()
      requires Ready()
      modifies this`mem, this`identity
      ensures Ready() && !identity && mem.Keys == old(mem).Keys
      ensures forall va: nat :: Translate(mem, l.pgd, va) == if va < 0x40_0000_0000 then Fault else Translate(old(mem), l.pgd, va)
    {
      ghost var m, i0 := mem, identity;
      forall va: nat
        ensures Translate(m, l.pgd, va) == Expect(i0, windows, va)
      {
        Translations(va);
      }
      ClearLower();
      forall va: nat
        ensures Translate(mem, l.pgd, va) == Expect(false, windows, va)
      {
        Translations(va);
      }
    }

    method ClearLower()
      requires Ready()
      modifies this`mem, this`identity
      ensures Ready() && !identity && mem.Keys == old(mem).Keys
    {
      ghost var m := mem;
      for i := 0 to EARLY_MAP_GIB
        invariant mem.Keys == m.Keys && (forall t :: t in mem && t != l.pgd ==> mem[t] == m[t])
        invariant |mem[l.pgd]| == ENTRIES
        invariant forall j: nat :: j < i ==> mem[l.pgd][j] == 0
        invariant forall j: nat :: i <= j < ENTRIES ==> mem[l.pgd][j] == m[l.pgd][j]
      {
        mem := SetEntry(mem, l.pgd, i, 0);
      }
      identity := false;
      forall g: nat | g < EARLY_MAP_GIB
        ensures PmdOk(mem, l, windows, ptes, g)
      {
        assert PmdOk(m, l, windows, ptes, g);
      }
      forall w | w in windows
        ensures PteOk(mem, ptes[w], windows[w])
      {
        assert PteOk(m, ptes[w], windows[w]);
      }
    }

    // After setup_vm every physical address below 10 GiB is reached at itself and in the
    // upper half, after drop_identity_map only there, and no other address is mapped.
    lemma Translations(va: nat)
      requires Ready()
      ensures Translate(mem, l.pgd, va) == Expect(identity, windows, va)
    {
      TablesTranslate(mem, l, identity, windows, ptes, va);
    }

    // The kernel's tables point only to each other.
    lemma Closed(t: nat, i: nat)
      requires Ready() && mem.Keys == TableSet(l) && t in mem
      ensures |mem[t]| == ENTRIES && t % PAGE == 0 && t < PA_END
      ensures i < ENTRIES && IsPointer(mem[t][i]) ==> PteToPa(mem[t][i]) in mem
    {
      if t == l.pgd {
        if i < ENTRIES && IsPointer(mem[t][i]) {
          PgdClosed(i);
        }
      } else if t in l.pmd {
        var g: nat :| g < EARLY_MAP_GIB && l.pmd[g] == t;
        assert PmdOk(mem, l, windows, ptes, g);
        if i < ENTRIES && IsPointer(mem[t][i]) {
          PmdClosed(g, i);
        }
      }
    }

    lemma PgdClosed(i: nat)
      requires Ready() && mem.Keys == TableSet(l) && i < ENTRIES && IsPointer(mem[l.pgd][i])
      ensures PteToPa(mem[l.pgd][i]) in mem
    {
      assert mem[l.pgd][i] == PgdEntry(l, identity, i);
      PointerShape(l.pmd[if i < EARLY_MAP_GIB then i else i - KERNEL_PGD_BASE]);
    }

    lemma PmdClosed(g: nat, i: nat)
      requires Ready() && mem.Keys == TableSet(l) && g < EARLY_MAP_GIB && i < ENTRIES
      requires l.pmd[g] in mem && |mem[l.pmd[g]]| == ENTRIES && IsPointer(mem[l.pmd[g]][i])
      ensures PteToPa(mem[l.pmd[g]][i]) in mem
    {
      assert PmdOk(mem, l, windows, ptes, g);
      FlagBits((g * 512 + i) * PMD_SIZE, KERNEL_PAGE_FLAGS);
      assert g * 512 + i in windows;
      PointerShape(ptes[g * 512 + i]);
    }
  }

  // ---------- properties of the mapping ----------

  // The kernel, and it alone, may read and write the byte at pa without a fault; it may run
  // code from it unless it belongs to a device.
  predicate KernelAccess(o: Outcome, pa: nat)
  {
    && o.Mapped? && o.pa == pa
    && Readable(o.flags) && Writable(o.flags) && !UserMode(o.flags) && Accessed(o.flags) && Dirty(o.flags)
    && (Executable(o.flags) <==> !(0xd400_0000 <= pa < 0xd440_0000) && !(0xe000_0000 <= pa < 0xe020_0000))
  }

  lemma OwnWindow(base: nat)
    requires base % PMD_SIZE == 0 && base < MAPPED_END
    ensures AlignDown(base, PMD_SIZE) == base
    ensures Vpn(base, 2) < EARLY_MAP_GIB && Vpn(base, 2) * 512 + Vpn(base, 1) == base / PMD_SIZE
  {
    AlignDownGreatest(base, PMD_SIZE);
    HighIndices(base);
    PmdIndices(base);
  }

  lemma BootWindowsBuilt()
    ensures map[][0xd400_0000 / PMD_SIZE := 0xd400_0000][0xd420_0000 / PMD_SIZE := 0xd420_0000][0xe000_0000 / PMD_SIZE := 0xe000_0000]
            == BOOT_WINDOWS
  {
  }

  lemma BootWindow(pa: nat)
    ensures pa / PMD_SIZE in BOOT_WINDOWS <==> 0xd400_0000 <= pa < 0xd440_0000 || 0xe000_0000 <= pa < 0xe020_0000
    ensures pa / PMD_SIZE in BOOT_WINDOWS ==> BOOT_WINDOWS[pa / PMD_SIZE] == pa / PMD_SIZE * PMD_SIZE
  {
  }

  lemma LinearAccess(pa: nat)
    ensures KernelAccess(Linear(BOOT_WINDOWS, pa), pa)
  {
    BootWindow(pa);
  }

  lemma ExpectAccess()
    ensures forall va: nat ::
              var o := Expect(true, BOOT_WINDOWS, va);
              if va < 0x2_8000_0000 then KernelAccess(o, va)
              else if 0xffff_ffc0_0000_0000 <= va < 0xffff_ffc2_8000_0000 then KernelAccess(o, va - 0xffff_ffc0_0000_0000)
              else o == Fault
  {
    forall va: nat
      ensures var o := Expect(true, BOOT_WINDOWS, va);
              if va < 0x2_8000_0000 then KernelAccess(o, va)
              else if 0xffff_ffc0_0000_0000 <= va < 0xffff_ffc2_8000_0000 then KernelAccess(o, va - 0xffff_ffc0_0000_0000)
              else o == Fault
    {
      LinearAccess(va);
      if va >= HIGH_START {
        LinearAccess(va - HIGH_START);
      }
    }
  }

  // Every split window still leads to itself.
  ghost predicate SelfMapped(windows: Windows)
  {
    forall w :: w in windows ==> windows[w] == w * PMD_SIZE
  }

  lemma LinearReaches(windows: Windows, pa: nat)
    requires SelfMapped(windows) && pa < MAPPED_END
    ensures var there := Mapped(pa, if pa / PMD_SIZE in windows then MMIO_PAGE_FLAGS else KERNEL_PAGE_FLAGS);
            && Expect(true, windows, pa) == there && Expect(true, windows, pa + HIGH_START) == there
            && Expect(false, windows, pa) == Fault && Expect(false, windows, pa + HIGH_START) == there
            && Readable(there.flags) && Writable(there.flags) && !UserMode(there.flags)
            && Accessed(there.flags) && Dirty(there.flags) && (Executable(there.flags) <==> pa / PMD_SIZE !in windows)
  {
    assert pa / PMD_SIZE * PMD_SIZE + pa % PMD_SIZE == pa;
  }

  // a and b lead to the same byte, and b differs at most in lacking execute permission.
  predicate OnlyLosesExecute(a: Outcome, b: Outcome)
  {
    || a == b
    || (a.Mapped? && b.Mapped? && a.pa == b.pa && Executable(a.flags) && b.flags == a.flags - PTE_X)
  }

  // Splitting window w towards base keeps every translation, less execute permission in
  // that window, exactly when base is where w was: map_mmio_2m_window computes w from
  // address bits 21 to 38 of base, so for base below 2^39 and not above.
  lemma SplitKeepsTranslations(identity: bool, windows: Windows, w: nat, base: nat)
    requires SelfMapped(windows) && w * PMD_SIZE < MAPPED_END
    ensures (forall va: nat :: OnlyLosesExecute(Expect(identity, windows, va), Expect(identity, windows[w := base], va)))
            <==> base == w * PMD_SIZE
  {
    var va := HIGH_START + w * PMD_SIZE;
    assert (va - HIGH_START) / PMD_SIZE == w && (va - HIGH_START) % PMD_SIZE == 0;
    assert Expect(identity, windows[w := base], va) == Mapped(base, MMIO_PAGE_FLAGS);
    if base == w * PMD_SIZE {
      forall va: nat
        ensures OnlyLosesExecute(Expect(identity, windows, va), Expect(identity, windows[w := base], va))
      {
        assert Executable(KERNEL_PAGE_FLAGS);
      }
    } else {
      assert !OnlyLosesExecute(Expect(identity, windows, va), Expect(identity, windows[w := base], va));
    }
  }

  lemma WindowOfBase(base: nat)
    requires base % PMD_SIZE == 0
    ensures (Vpn(base, 2) * 512 + Vpn(base, 1)) * PMD_SIZE == base <==> base < 2 * LOW_END
  {
    assert base / PGD_SIZE == base / PMD_SIZE / 512;
  }
}

/**
 User address spaces: vm_create_user_pgd, walk_create and map_pages_to, editing page tables
 that come from the page allocator.
 */
module UserMap {
  import opened Bits
  import opened Sv39
  import FL = FreeLists
  import BuddyOps
  import FA = FrameAllocator
  import BootMap

  // What each table is for: the kernel's own tables, a user root, and the tables below a
  // user root by the path of entries that leads to them.
  datatype Kind = Kernel | Root | Mid(root: nat, i2: nat) | Leaf(root: nat, i2: nat, i1: nat)

  type Kinds = map<nat, Kind>

  // The table a valid pointer in entry i of table t must lead to.
  predicate ChildOk(kind: Kinds, t: nat, i: nat, c: nat)
    requires t in kind
  {
    match kind[t]
    case Kernel => c in kind && kind[c] == Kernel
    case Root => c in kind && kind[c] == if i < 256 then Mid(t, i) else Kernel
    case Mid(r, i2) => c in kind && kind[c] == Leaf(r, i2, i)
    case Leaf(_, _, _) => true
  }

  // The tables form an unshared tree below the lower half of every user root, beside the
  // kernel's tables, which point only to each other.
  ghost predicate Shape(m: Tables, kind: Kinds)
  {
    true == (&& m.Keys == kind.Keys
             && (forall t :: t in m ==> |m[t]| == ENTRIES && t % PAGE == 0 && t < PA_END)
             && forall t: nat, i: nat :: t in m && i < |m[t]| && IsPointer(m[t][i]) ==> ChildOk(kind, t, i, PteToPa(m[t][i])))
  }

  predicate HasChildKind(k: Kind, i: nat)
  {
    k.Mid? || (k == Root && i < 256)
  }

  function ChildKind(k: Kind, t: nat, i: nat): Kind
  {
    if k.Mid? then Leaf(k.root, k.i2, i) else Mid(t, i)
  }

  // The same outcome for every address, whatever table one takes for a root.
  ghost predicate SameTranslations(m: Tables, m': Tables)
  {
    true == forall r: nat, x: nat :: Translate(m', r, x) == Translate(m, r, x)
  }

  // Tables keep their place, and the ones added are no roots.
  ghost predicate KindsGrow(k: Kinds, k': Kinds)
  {
    true == (&& (forall u :: u in k ==> u in k' && k'[u] == k[u])
             && (forall u :: u in k' && u !in k ==> !IsRoot(k'[u])))
  }

  // All tables but t are as they were.
  predicate OthersKept(m: Tables, m': Tables, t: nat)
  {
    true == (forall u :: u in m && u != t ==> u in m' && m'[u] == m[u])
  }

  // The tables after entry i of t was made to point to a new empty table.
  function Attached(m: Tables, t: nat, i: nat, new': nat): Tables
    requires t in m && i < |m[t]| && new' !in m
  {
    SetEntry(m[new' := ZeroTable()], t, i, PointerTo(new'))
  }

  lemma AttachTable(m: Tables, kind: Kinds, t: nat, i: nat, new': nat)
    requires Shape(m, kind) && t in m && i < ENTRIES && HasChildKind(kind[t], i) && !Valid(m[t][i])
    requires new' !in m && new' % PAGE == 0 && new' < PA_END
    ensures var m' := Attached(m, t, i, new');
            && Shape(m', kind[new' := ChildKind(kind[t], t, i)]) && SameTranslations(m, m')
            && KindsGrow(kind, kind[new' := ChildKind(kind[t], t, i)])
            && IsPointer(m'[t][i]) && PteToPa(m'[t][i]) == new'
            && OthersKept(m, m', t)
  {
    var k := ChildKind(kind[t], t, i);
    PointerShape(new');
    ShapeAddEmpty(m, kind, new', k);
    ShapeSetEntry(m[new' := ZeroTable()], kind[new' := k], t, i, PointerTo(new'));
    forall r: nat, x: nat
      ensures Translate(Attached(m, t, i, new'), r, x) == Translate(m, r, x)
    {
      AttachEmpty(m, t, i, new', r, 2, x);
    }
  }

  predicate IsRoot(k: Kind)
  {
    k == Kernel || k == Root
  }

  // The entry of va in the last-level table that root's tree has for it is m[t][i].
  predicate LeafSlot(m: Tables, kind: Kinds, root: nat, va: nat, t: nat, i: nat)
  {
    && root in m && |m[root]| == ENTRIES && IsPointer(m[root][Vpn(va, 2)])
    && var mid := PteToPa(m[root][Vpn(va, 2)]);
       && mid in m && |m[mid]| == ENTRIES && IsPointer(m[mid][Vpn(va, 1)])
       && t == PteToPa(m[mid][Vpn(va, 1)]) && i == Vpn(va, 0)
       && t in m && |m[t]| == ENTRIES && t in kind && kind[t] == Leaf(root, Vpn(va, 2), Vpn(va, 1))
  }

  // Translation through a last-level entry.
  function LastLevel(pte: nat, va: nat): Outcome
  {
    if IsLeaf(pte) && !Reserved(pte) then Mapped(PteToPa(pte) + va % PAGE, Flags(pte)) else Fault
  }

  predicate SamePath(a: nat, b: nat)
  {
    Vpn(a, 2) == Vpn(b, 2) && Vpn(a, 1) == Vpn(b, 1) && Vpn(a, 0) == Vpn(b, 0)
  }

  // An address is its three indices and the offset in its page, below 2^39.
  lemma PageOfPath(a: nat)
    ensures a / PAGE % 0x800_0000 == Vpn(a, 2) * 0x4_0000 + Vpn(a, 1) * 0x200 + Vpn(a, 0)
  {
    assert a / 0x20_0000 == a / 0x1000 / 512;
    assert a / 0x4000_0000 == a / 0x20_0000 / 512;
  }

  lemma HalfOfIndex(a: nat)
    requires Canonical(a)
    ensures a < LOW_END ==> Vpn(a, 2) < 256 && a / PAGE % 0x800_0000 == a / PAGE
    ensures a >= HIGH_START ==> Vpn(a, 2) >= 256
  {
    assert a >= HIGH_START ==> a / 0x4000_0000 >= 0x3_ffff_ff00;
  }

  lemma SamePathSamePage(a: nat, b: nat)
    requires a < LOW_END && Canonical(b)
    ensures SamePath(a, b) <==> a / PAGE == b / PAGE
  {
    PageOfPath(a);
    PageOfPath(b);
    HalfOfIndex(a);
    HalfOfIndex(b);
    assert b >= HIGH_START ==> b / PAGE >= HIGH_START / PAGE;
  }

  lemma {:induction false} KernelWalkKept(m: Tables, m': Tables, kind: Kinds, t0: nat, level: nat, va: nat)
    requires Shape(m, kind) && level <= 2 && t0 in kind && kind[t0] == Kernel
    requires forall t :: t in kind && kind[t] == Kernel ==> t in m' && m'[t] == m[t]
    ensures Walk(m', t0, level, va) == Walk(m, t0, level, va)
    decreases level
  {
    var pte := m[t0][Vpn(va, level)];
    if level > 0 && IsPointer(pte) {
      KernelWalkKept(m, m', kind, PteToPa(pte), level - 1, va);
    }
  }

  lemma SetLeafBelowMid(m: Tables, kind: Kinds, t: nat, i: nat, pte: nat, c: nat, x: nat)
    requires Shape(m, kind) && t in m && i < ENTRIES && kind[t].Leaf?
    requires c in kind && kind[c].Mid?
    ensures Walk(SetEntry(m, t, i, pte), c, 1, x) ==
              if IsPointer(m[c][Vpn(x, 1)]) && PteToPa(m[c][Vpn(x, 1)]) == t && Vpn(x, 0) == i
              then LastLevel(pte, x) else Walk(m, c, 1, x)
  {
    var m' := SetEntry(m, t, i, pte);
    var e := m[c][Vpn(x, 1)];
    assert m'[c] == m[c];
    if IsPointer(e) {
      var d := PteToPa(e);
      AddressBits(e);
      assert ChildOk(kind, c, Vpn(x, 1), d);
      LastWalk(m, d, x);
      LastWalk(m', d, x);
      assert m'[d][Vpn(x, 0)] == if d == t && Vpn(x, 0) == i then pte else m[d][Vpn(x, 0)];
    }
  }

  lemma LastWalk(m: Tables, t: nat, x: nat)
    requires t in m && |m[t]| == ENTRIES
    ensures Walk(m, t, 0, x) == LastLevel(m[t][Vpn(x, 0)], x)
  {
    hide Flags, Vpn;
  }

  // Writing one last-level entry changes the translation of one page of one address space.
  lemma SetLeafEffect(m: Tables, kind: Kinds, root: nat, va: nat, t: nat, i: nat, pte: nat, r: nat, x: nat)
    requires Shape(m, kind) && LeafSlot(m, kind, root, va, t, i) && va < LOW_END
    requires r in kind && IsRoot(kind[r]) && Canonical(x)
    ensures Translate(SetEntry(m, t, i, pte), r, x) ==
              if r == root && x / PAGE == va / PAGE then LastLevel(pte, x) else Translate(m, r, x)
  {
    var m' := SetEntry(m, t, i, pte);
    SamePathSamePage(va, x);
    if kind[r] == Kernel {
      KernelWalkKept(m, m', kind, r, 2, x);
    } else {
      var e := m[r][Vpn(x, 2)];
      assert m'[r] == m[r];
      if IsPointer(e) {
        var c := PteToPa(e);
        AddressBits(e);
        assert ChildOk(kind, r, Vpn(x, 2), c);
        if kind[c] == Kernel {
          KernelWalkKept(m, m', kind, c, 1, x);
        } else {
          SetLeafBelowMid(m, kind, t, i, pte, c, x);
          assert IsPointer(m[c][Vpn(x, 1)]) ==> ChildOk(kind, c, Vpn(x, 1), PteToPa(m[c][Vpn(x, 1)]));
        }
      }
    }
  }

  lemma ShapeAddEmpty(m: Tables, kind: Kinds, t: nat, k: Kind)
    requires Shape(m, kind) && t !in m && t % PAGE == 0 && t < PA_END
    ensures Shape(m[t := ZeroTable()], kind[t := k])
  {
    var m', kind' := m[t := ZeroTable()], kind[t := k];
    forall u: nat, i: nat | u in m' && i < |m'[u]| && IsPointer(m'[u][i])
      ensures ChildOk(kind', u, i, PteToPa(m'[u][i]))
    {
      assert u in m && ChildOk(kind, u, i, PteToPa(m[u][i]));
    }
  }

  lemma ShapeSetEntry(m: Tables, kind: Kinds, t: nat, i: nat, pte: nat)
    requires Shape(m, kind) && t in m && i < ENTRIES
    requires IsPointer(pte) ==> ChildOk(kind, t, i, PteToPa(pte))
    ensures Shape(SetEntry(m, t, i, pte), kind)
  {
    var m' := SetEntry(m, t, i, pte);
    forall u: nat, j: nat | u in m' && j < |m'[u]| && IsPointer(m'[u][j])
      ensures ChildOk(kind, u, j, PteToPa(m'[u][j]))
    {
      if u != t || j != i {
        assert m'[u][j] == m[u][j];
      }
    }
  }

  // The walk for va meets a valid entry where map_pages_to needs an invalid one: a leaf at
  // an upper level, or any valid entry at the last one.
  predicate Taken(m: Tables, t: nat, level: nat, va: nat)
    requires level <= 2
    decreases level
  {
    t in m && |m[t]| == ENTRIES
    && var pte := m[t][Vpn(va, level)];
       Valid(pte) && (level == 0 || !IsPointer(pte) || Taken(m, PteToPa(pte), level - 1, va))
  }

  // The walk for va meets a valid entry with permissions above the last level.
  predicate LeafAbove(m: Tables, t: nat, level: nat, va: nat)
    requires level <= 2
    decreases level
  {
    t in m && |m[t]| == ENTRIES && level > 0
    && var pte := m[t][Vpn(va, level)];
       Valid(pte) && (!IsPointer(pte) || LeafAbove(m, PteToPa(pte), level - 1, va))
  }

  // The walk in its three steps: a valid entry that no table can be put behind, or a page.
  lemma TakenMeans(m: Tables, root: nat, va: nat)
    requires forall t :: t in m ==> |m[t]| == 512
    requires root in m && forall t, i: nat :: t in m && i < 512 && IsPointer(m[t][i]) ==> PteToPa(m[t][i]) in m
    ensures var e2 := m[root][va / 0x4000_0000 % 512];
            if !IsPointer(e2) then (Taken(m, root, 2, va) <==> Valid(e2)) && (LeafAbove(m, root, 2, va) <==> Valid(e2)) else
            var e1 := m[PteToPa(e2)][va / 0x20_0000 % 512];
            if !IsPointer(e1) then (Taken(m, root, 2, va) <==> Valid(e1)) && (LeafAbove(m, root, 2, va) <==> Valid(e1)) else
            !LeafAbove(m, root, 2, va) && (Taken(m, root, 2, va) <==> Valid(m[PteToPa(e1)][va / 0x1000 % 512]))
  {
    assert Vpn(va, 2) == va / 0x4000_0000 % 512 && Vpn(va, 1) == va / 0x20_0000 % 512 && Vpn(va, 0) == va / 0x1000 % 512;
  }

  lemma {:induction false} LeafIsTaken(m: Tables, t: nat, level: nat, va: nat)
    requires level <= 2 && LeafAbove(m, t, level, va)
    ensures Taken(m, t, level, va)
    decreases level
  {
    var pte := m[t][Vpn(va, level)];
    if IsPointer(pte) {
      LeafIsTaken(m, PteToPa(pte), level - 1, va);
    }
  }

  // m' translates as m does in every address space, except that the first k pages from va
  // of root, which m left unmapped, now lead to the pages from pa with the flags of prot.
  ghost predicate MapsPrefix(m: Tables, m': Tables, kind: Kinds, root: nat, va: nat, k: nat, pa: nat, prot: nat)
  {
    true == (&& (forall r: nat, x: nat :: r in kind && IsRoot(kind[r]) ==>
                   Translate(m', r, x) ==
                     if r == root && va <= x < va + k * PAGE then MappedByte(pa + (x - va), prot) else Translate(m, r, x))
             && (forall x: nat :: va <= x < va + k * PAGE ==> Translate(m, root, x) == Fault))
  }

  // The pages of a range that ends in the lower half end there as well.
  lemma WholePages(va: nat, size: nat, pages: nat)
    requires va % PAGE == 0 && va + size <= LOW_END && pages * PAGE < size + PAGE
    ensures va + pages * PAGE <= LOW_END
  {
    assert (va + pages * PAGE) % PAGE == 0 && LOW_END % PAGE == 0;
  }

  // What mapping k pages means for the bytes of a range that they begin.
  lemma PrefixBytes(m: Tables, m': Tables, kind: Kinds, root: nat, va: nat, size: nat, k: nat, pa: nat, prot: nat)
    requires MapsPrefix(m, m', kind, root, va, k, pa, prot) && root in kind && IsRoot(kind[root])
    requires va % PAGE == 0 && k * PAGE < size + PAGE
    ensures size <= k * PAGE ==> forall x: nat :: va <= x < va + size ==> Translate(m', root, x) == MappedByte(pa + (x - va), prot)
    ensures forall r: nat, x: nat :: r in kind && IsRoot(kind[r]) ==>
              r != root || x < va || va + size <= x / PAGE * PAGE ==> Translate(m', r, x) == Translate(m, r, x)
  {
    forall r: nat, x: nat | r in kind && IsRoot(kind[r]) && (r != root || x < va || va + size <= x / PAGE * PAGE)
      ensures Translate(m', r, x) == Translate(m, r, x)
    {
      if r == root && va <= x {
        BehindPages(va, size, k, x);
      }
    }
  }

  lemma BehindPages(va: nat, size: nat, k: nat, x: nat)
    requires va % PAGE == 0 && k * PAGE < size + PAGE && va + size <= x / PAGE * PAGE
    ensures va + k * PAGE <= x
  {
    assert va == va / PAGE * PAGE;
    assert x / PAGE * PAGE <= x;
  }

  // Existing mappings survive: nothing that translated before is lost or changed.
  lemma MappingsSurvive(m: Tables, m': Tables, kind: Kinds, root: nat, va: nat, k: nat, pa: nat, prot: nat, r: nat, x: nat)
    requires MapsPrefix(m, m', kind, root, va, k, pa, prot) && r in kind && IsRoot(kind[r])
    requires Translate(m, r, x).Mapped?
    ensures Translate(m', r, x) == Translate(m, r, x)
  {
    if r == root && va <= x < va + k * PAGE {
      assert Translate(m, root, x) == Fault;
    }
  }

  lemma InvalidSlotFaults(m: Tables, kind: Kinds, root: nat, va: nat, t: nat, i: nat, x: nat)
    requires LeafSlot(m, kind, root, va, t, i) && !Valid(m[t][i]) && SamePath(va, x)
    ensures Translate(m, root, x) == Fault
  {
  }

  // A root that copies the upper half of the kernel's and is empty below.
  lemma NewRootTranslations(m: Tables, kind: Kinds, m': Tables, root: nat, early: nat)
    requires Shape(m, kind) && early in kind && kind[early] == Kernel && root !in m
    requires root in m' && |m'[root]| == ENTRIES && forall t :: t in m ==> t in m' && m'[t] == m[t]
    requires forall j :: 0 <= j < 256 ==> m'[root][j] == 0
    requires forall j :: 256 <= j < ENTRIES ==> m'[root][j] == m[early][j]
    ensures forall x: nat :: Translate(m', root, x) == if x < LOW_END then Fault else Translate(m, early, x)
    ensures forall r: nat, x: nat :: r in kind && IsRoot(kind[r]) ==> Translate(m', r, x) == Translate(m, r, x)
  {
    forall x: nat
      ensures Translate(m', root, x) == if x < LOW_END then Fault else Translate(m, early, x)
    {
      if Canonical(x) {
        HalfOfIndex(x);
        var pte := m[early][Vpn(x, 2)];
        if x >= HIGH_START && IsPointer(pte) {
          assert ChildOk(kind, early, Vpn(x, 2), PteToPa(pte));
          KernelWalkKept(m, m', kind, PteToPa(pte), 1, x);
        }
      }
    }
    forall r: nat, x: nat | r in kind && IsRoot(kind[r])
      ensures Translate(m', r, x) == Translate(m, r, x)
    {
      ClosedWalkKept(m, m', kind, r, 2, x);
    }
  }

  predicate AtLevel(k: Kind, level: nat)
  {
    k == Kernel || (level == 2 && k == Root) || (level == 1 && k.Mid?) || (level == 0 && k.Leaf?)
  }

  // Walks from a known root stay inside the known tables.
  lemma {:induction false} ClosedWalkKept(m: Tables, m': Tables, kind: Kinds, t: nat, level: nat, va: nat)
    requires Shape(m, kind) && level <= 2 && t in m && AtLevel(kind[t], level)
    requires forall u :: u in m ==> u in m' && m'[u] == m[u]
    ensures Walk(m', t, level, va) == Walk(m, t, level, va)
    decreases level
  {
    var pte := m[t][Vpn(va, level)];
    if level > 0 && IsPointer(pte) {
      assert ChildOk(kind, t, Vpn(va, level), PteToPa(pte));
      ClosedWalkKept(m, m', kind, PteToPa(pte), level - 1, va);
    }
  }

  // Mapping k pages and then the next j maps k + j pages.
  lemma MapMore(m0: Tables, kind0: Kinds, m: Tables, kind: Kinds, m': Tables, root: nat, va: nat, k: nat, pa: nat, prot: nat, j: nat)
    requires MapsPrefix(m0, m, kind0, root, va, k, pa, prot)
    requires MapsPrefix(m, m', kind, root, va + k * PAGE, j, pa + k * PAGE, prot)
    requires forall r :: r in kind0 ==> r in kind && kind[r] == kind0[r]
    requires root in kind0 && IsRoot(kind0[root])
    ensures MapsPrefix(m0, m', kind0, root, va, k + j, pa, prot)
  {
    forall x: nat | va <= x < va + (k + j) * PAGE
      ensures Translate(m0, root, x) == Fault
    {
      if va + k * PAGE <= x {
        assert Translate(m, root, x) == Fault;
        assert Translate(m, root, x) == Translate(m0, root, x);
      }
    }
  }

  // Writing an invalid last-level entry maps one page.
  lemma MapOne(m: Tables, kind: Kinds, root: nat, va: nat, pa: nat, prot: nat, t: nat, i: nat)
    requires Shape(m, kind) && LeafSlot(m, kind, root, va, t, i) && !Valid(m[t][i])
    requires va % PAGE == 0 && pa % PAGE == 0 && va + PAGE <= LOW_END && prot < FLAG_LIMIT
    ensures MapsPrefix(m, SetEntry(m, t, i, EntryFor(pa, prot)), kind, root, va, 1, pa, prot)
  {
    forall r: nat, x: nat | r in kind && IsRoot(kind[r])
      ensures Translate(SetEntry(m, t, i, EntryFor(pa, prot)), r, x) ==
                if r == root && va <= x < va + PAGE then MappedByte(pa + (x - va), prot) else Translate(m, r, x)
    {
      MapByte(m, kind, root, va, pa, prot, t, i, r, x);
    }
    forall x: nat | va <= x < va + PAGE
      ensures Translate(m, root, x) == Fault
    {
      assert x / PAGE == va / PAGE;
      SamePathSamePage(va, x);
      InvalidSlotFaults(m, kind, root, va, t, i, x);
    }
  }

  // Tables that translate alike may be exchanged below a mapping.
  lemma MapFromSame(m0: Tables, k0: Kinds, m: Tables, kind: Kinds, m': Tables, root: nat, va: nat, k: nat, pa: nat, prot: nat)
    requires SameTranslations(m0, m) && KindsGrow(k0, kind) && MapsPrefix(m, m', kind, root, va, k, pa, prot)
    ensures MapsPrefix(m0, m', k0, root, va, k, pa, prot)
  {
  }

  lemma MapNone(m: Tables, m': Tables, kind: Kinds, root: nat, va: nat, pa: nat, prot: nat)
    requires SameTranslations(m, m')
    ensures MapsPrefix(m, m', kind, root, va, 0, pa, prot)
  {
  }

  lemma MapByte(m: Tables, kind: Kinds, root: nat, va: nat, pa: nat, prot: nat, t: nat, i: nat, r: nat, x: nat)
    requires Shape(m, kind) && LeafSlot(m, kind, root, va, t, i)
    requires va % PAGE == 0 && pa % PAGE == 0 && va + PAGE <= LOW_END && prot < FLAG_LIMIT
    requires r in kind && IsRoot(kind[r])
    ensures Translate(SetEntry(m, t, i, EntryFor(pa, prot)), r, x) ==
              if r == root && va <= x < va + PAGE then MappedByte(pa + (x - va), prot) else Translate(m, r, x)
  {
    if Canonical(x) {
      SetLeafEffect(m, kind, root, va, t, i, EntryFor(pa, prot), r, x);
      assert x / PAGE == va / PAGE <==> va <= x < va + PAGE;
      if x / PAGE == va / PAGE {
        LastLevelOfNew(pa, prot, va, x);
      }
    }
  }

  // Addresses are 64-bit words, so the sum of an address and an offset may wrap.
  function Wrap(pa: nat): (w: nat)
    ensures w < VA_END
  {
    pa % VA_END
  }

  lemma WrapByte(pa: nat, off: nat)
    requires pa % PAGE == 0 && off < PAGE
    ensures Wrap(pa) % PAGE == 0 && Wrap(pa + off) == Wrap(pa) + off
    ensures Wrap(pa + off) < PA_END <==> Wrap(pa) < PA_END
  {
    assert VA_END == 0x10_0000_0000_0000 * PAGE && PA_END == 0x1000_0000_0000 * PAGE;
    WrapPage(pa / PAGE, off);
  }

  lemma WrapPage(q: nat, off: nat)
    requires off < PAGE
    ensures (q * PAGE + off) % VA_END == q % 0x10_0000_0000_0000 * PAGE + off
  {
    DivModUnique(q * PAGE + off, VA_END, q / 0x10_0000_0000_0000, q % 0x10_0000_0000_0000 * PAGE + off);
  }

  // The translation a last-level entry with these flags gives to the byte at pa: R = 0 with
  // W = 1 is reserved, without R and X the entry is no leaf, and an address of more than 56
  // bits sets reserved bits of the entry.
  function MappedByte(pa: nat, prot: nat): Outcome
  {
    if Wrap(pa) < PA_END && (Readable(prot) || (Executable(prot) && !Writable(prot)))
    then Mapped(Wrap(pa), WithValid(prot)) else Fault
  }

  function WithValid(prot: nat): nat
  {
    if Valid(prot) then prot else prot + 1
  }

  // Which mapped bytes are reached, where, and with which rights: all bits of prot but V are
  // the bits of the mapping, that of user mode among them.
  lemma MappedByteMeans(pa: nat, prot: nat)
    requires prot < FLAG_LIMIT
    ensures MappedByte(pa, prot).Mapped? <==>
              pa % 0x1_0000_0000_0000_0000 < 0x100_0000_0000_0000 && (Readable(prot) || (Executable(prot) && !Writable(prot)))
    ensures MappedByte(pa, prot).Mapped? ==>
              var Mapped(at, flags) := MappedByte(pa, prot);
              && at == pa % 0x1_0000_0000_0000_0000
              && Valid(flags) && flags / 2 == prot / 2 && flags < FLAG_LIMIT
              && (Readable(flags) <==> Readable(prot)) && (Writable(flags) <==> Writable(prot))
              && (Executable(flags) <==> Executable(prot)) && (UserMode(flags) <==> UserMode(prot))
  {
    WithValidBits(prot);
    SameHalves(prot, WithValid(prot));
  }

  lemma SameHalves(a: nat, b: nat)
    requires a / 2 == b / 2
    ensures UserMode(a) <==> UserMode(b)
  {
    assert a / 16 == a / 2 / 8 && b / 16 == b / 2 / 8;
  }

  function EntryFor(pa: nat, prot: nat): nat
  {
    PaToPte(Wrap(pa)) + WithValid(prot)
  }

  // The entry map_pages_to stores.
  method NewEntry(pa: nat, prot: nat) returns (pte: nat)
    requires prot < FLAG_LIMIT
    ensures pte == PaToPte(pa) + WithValid(prot)
  {
    OrIsSum(pa, prot);
    OrValid(PaToPte(pa) + prot);
    FlagBits(pa, prot);
    pte := Or(Or(PaToPte(pa), prot), PTE_V);
  }

  lemma WithValidBits(prot: nat)
    ensures var flags := WithValid(prot);
            && (Readable(flags) <==> Readable(prot)) && (Writable(flags) <==> Writable(prot))
            && (Executable(flags) <==> Executable(prot)) && Valid(flags)
  {
    var flags := WithValid(prot);
    var half := prot / 2;
    assert flags == 2 * half + 1;
    assert flags / 2 == half;
    Quarters(flags);
    Quarters(prot);
  }

  lemma Quarters(x: nat)
    ensures x / 4 == x / 2 / 2 && x / 8 == x / 2 / 2 / 2
  {
  }

  lemma LastLevelOfNew(pa: nat, prot: nat, va: nat, x: nat)
    requires pa % PAGE == 0 && va % PAGE == 0 && va / PAGE == x / PAGE && prot < FLAG_LIMIT
    ensures LastLevel(EntryFor(pa, prot), x) == MappedByte(pa + (x - va), prot)
  {
    var w := Wrap(pa);
    assert x - va == x % PAGE;
    WrapByte(pa, x - va);
    EncodeDecode(w, WithValid(prot));
    FlagBits(w, WithValid(prot));
    WithValidBits(prot);
    AddressBits(EntryFor(pa, prot));
  }

  function Pages(size: nat): (n: nat)
    ensures size <= n * PAGE < size + PAGE
  {
    (size + PAGE - 1) / PAGE
  }

  // The address that alloc_pages returns for frame i leads, in the kernel's tables, to that
  // frame, byte for byte, as long as it lies in the 10 GiB they map.
  lemma PointerReaches(e: BootMap.EarlyTables, fa: FA.Allocator, i: nat, off: nat)
    requires e.Ready() && BootMap.SelfMapped(e.windows) && off < PAGE && fa.FrameAddr(i) + off < 0x2_8000_0000
    ensures var o := Translate(e.mem, e.l.pgd, fa.FrameAddr(i) + FA.KERNEL_VA_OFFSET + off);
            o.Mapped? && o.pa == fa.FrameAddr(i) + off && Readable(o.flags) && Writable(o.flags)
  {
    var pa := fa.FrameAddr(i) + off;
    e.Translations(pa + HIGH_START);
    BootMap.LinearReaches(e.windows, pa);
  }

  datatype Slot = NoSlot | Entry(table: nat, index: nat)

  class AddressSpaces {
    const fa: FA.Allocator
    const earlyPgd: nat    // physical address of the kernel's root table
    var mem: Tables
    ghost var kind: Kinds

    // No page that holds a table is a free frame.
    ghost predicate TablesInUse()
      reads this, fa
    {
      forall t: nat :: t in kind && fa.InManagedRange(t) ==> !FL.Covered(fa.lists, (t - fa.base) / PAGE)
    }

    ghost predicate Valid()
      reads this, fa, fa.pages
    {
      fa.Valid() && Shape(mem, kind) && TablesInUse() && earlyPgd in kind && kind[earlyPgd] == Kernel
    }

    // The kernel's tables lie in the kernel image, which mm_init has reserved.
    constructor (fa: FA.Allocator, e: BootMap.EarlyTables)
      requires fa.Valid() && e.Ready() && e.mem.Keys == BootMap.EarlyTables.TableSet(e.l)
      requires forall t: nat :: t in e.mem && fa.InManagedRange(t) ==> !FL.Covered(fa.lists, (t - fa.base) / PAGE)
      ensures Valid() && this.fa == fa && earlyPgd == e.l.pgd && mem == e.mem && kind == map t | t in mem :: Kernel
    {
      this.fa, this.earlyPgd, this.mem := fa, e.l.pgd, e.mem;
      kind := map t | t in e.mem :: Kernel;
      new;
      forall t | t in mem
        ensures |mem[t]| == ENTRIES && t % PAGE == 0
      {
        e.Closed(t, 0);
      }
      forall t: nat, i: nat | t in mem && i < |mem[t]| && IsPointer(mem[t][i])
        ensures ChildOk(kind, t, i, PteToPa(mem[t][i]))
      {
        e.Closed(t, i);
      }
    }

    ghost predicate NoFreeFrame()
      reads this, fa
    {
      BuddyOps.Alloc(fa.lists, 0).OutOfMemory?
    }

    // Why page i from va on cannot be mapped: a valid entry is in the way, or memory is out.
    ghost predicate MustStop(root: nat, va: nat, i: nat)
      reads this, fa
    {
      true == (Taken(mem, root, 2, va + i * PAGE) || NoFreeFrame())
    }

    // alloc_pages(0): a frame that was free and is no longer.
    method TakeFrame() returns (va: nat)
      requires fa.Valid()
      modifies fa.pages, fa`lists, fa`live
      ensures fa.Valid()
      ensures forall f: nat :: FL.Covered(fa.lists, f) ==> FL.Covered(old(fa.lists), f)
      ensures va == 0 ==> NoFreeFrame()
      ensures va != 0 ==>
                && va >= FA.KERNEL_VA_OFFSET
                && var t := va - FA.KERNEL_VA_OFFSET;
                   && t % PAGE == 0 && t < PA_END && fa.InManagedRange(t)
                   && FL.Covered(old(fa.lists), (t - fa.base) / PAGE) && !FL.Covered(fa.lists, (t - fa.base) / PAGE)
    {
      ghost var L := fa.lists;
      BuddyOps.AllocCorrect(L, fa.n, 0);
      va := fa.AllocPages(0);
      if va != 0 {
        ghost var i := BuddyOps.Alloc(L, 0).head;
        assert (va - FA.KERNEL_VA_OFFSET - fa.base) / PAGE == i;
        assert FL.Inside(i, i, 0);
      }
    }

    // A frame taken from the allocator and cleared becomes a table; NULL when memory is out.
    method NewTable(ghost k: Kind) returns (va: nat)
      requires Valid()
      modifies this`mem, this`kind, fa.pages, fa`lists, fa`live
      ensures Valid()
      ensures va == 0 ==> mem == old(mem) && kind == old(kind) && NoFreeFrame()
      ensures va != 0 ==>
                && va >= FA.KERNEL_VA_OFFSET
                && var t := va - FA.KERNEL_VA_OFFSET;
                   t % PAGE == 0 && t < PA_END && t !in old(mem) && mem == old(mem)[t := ZeroTable()] && kind == old(kind)[t := k]
    {
      va := TakeFrame();
      if va == 0 {
        return;
      }
      var t := va - FA.KERNEL_VA_OFFSET;
      ShapeAddEmpty(mem, kind, t, k);
      mem := mem[t := ZeroTable()];
      kind := kind[t := k];
    }

    // One level of walk_create: the table that entry i of t leads to, made when the entry
    // is invalid; none when the entry is a leaf or memory is out.
    method Descend(t: nat, i: nat) returns (child: nat, found: bool)
      requires Valid() && t in kind && i < ENTRIES && HasChildKind(kind[t], i)
      modifies this`mem, this`kind, fa.pages, fa`lists, fa`live
      ensures Valid()
      ensures KindsGrow(old(kind), kind)
      ensures OthersKept(old(mem), mem, t)
      ensures SameTranslations(old(mem), mem)
      ensures found ==>
                && IsPointer(mem[t][i]) && child == PteToPa(mem[t][i])
                && child in kind && kind[child] == ChildKind(kind[t], t, i)
      ensures !found ==> mem == old(mem) && kind == old(kind)
      ensures !found ==> (Sv39.Valid(mem[t][i]) && !IsPointer(mem[t][i])) || NoFreeFrame()
    {
      var valid := HasValidBit(mem[t][i]);
      if !valid {
        child, found := MakeChild(t, i);
        return;
      }
      var leaf := HasPermissionBit(mem[t][i]);
      if leaf {
        return 0, false;
      }
      child := PteToPa(mem[t][i]);
      assert ChildOk(kind, t, i, child);
      found := true;
    }

    // A new empty table below entry i of t.
    method MakeChild(t: nat, i: nat) returns (child: nat, found: bool)
      requires Valid() && t in kind && i < ENTRIES && HasChildKind(kind[t], i) && !Sv39.Valid(mem[t][i])
      modifies this`mem, this`kind, fa.pages, fa`lists, fa`live
      ensures Valid()
      ensures KindsGrow(old(kind), kind)
      ensures OthersKept(old(mem), mem, t)
      ensures SameTranslations(old(mem), mem)
      ensures found ==>
                && IsPointer(mem[t][i]) && child == PteToPa(mem[t][i])
                && child in kind && kind[child] == ChildKind(kind[t], t, i)
      ensures !found ==> mem == old(mem) && kind == old(kind) && NoFreeFrame()
    {
      ghost var m, k := mem, kind;
      var va := NewTable(ChildKind(kind[t], t, i));
      if va == 0 {
        return 0, false;
      }
      child := va - FA.KERNEL_VA_OFFSET;
      AttachTable(m, k, t, i, child);
      LinkChild(t, i, child);
      assert mem == Attached(m, t, i, child);
      found := true;
    }

    // The store of walk_create.
    method LinkChild(t: nat, i: nat, child: nat)
      requires t in mem && i < |mem[t]|
      requires Shape(SetEntry(mem, t, i, PointerTo(child)), kind)
      modifies this`mem
      ensures mem == SetEntry(old(mem), t, i, PointerTo(child)) && Shape(mem, kind)
    {
      var pte := MakeEntry(child, PTE_V);
      mem := SetEntry(mem, t, i, pte);
    }

    method WalkCreate(pgd: nat, va: nat) returns (slot: Slot)
      requires Valid() && pgd in kind && kind[pgd] == Root && va < LOW_END
      modifies this`mem, this`kind, fa.pages, fa`lists, fa`live
      ensures Valid()
      ensures KindsGrow(old(kind), kind)
      ensures SameTranslations(old(mem), mem)
      ensures slot.Entry? ==> LeafSlot(mem, kind, pgd, va, slot.table, slot.index)
      ensures slot.NoSlot? ==> LeafAbove(mem, pgd, 2, va) || NoFreeFrame()
    {
      HalfOfIndex(va);
      var mid, found := Descend(pgd, Vpn(va, 2));
      if !found {
        return NoSlot;
      }
      var leaf;
      leaf, found := Descend(mid, Vpn(va, 1));
      if !found {
        return NoSlot;
      }
      return Entry(leaf, Vpn(va, 0));
    }

    // The body of the loop of map_pages_to; how many pages it mapped, one or none.
    method MapPage(root: nat, va: nat, pa: nat, prot: nat) returns (mapped: nat)
      requires Valid() && root in kind && kind[root] == Root
      requires va % PAGE == 0 && pa % PAGE == 0 && va + PAGE <= LOW_END && prot < FLAG_LIMIT
      modifies this`mem, this`kind, fa.pages, fa`lists, fa`live
      ensures Valid()
      ensures KindsGrow(old(kind), kind)
      ensures mapped <= 1 && MapsPrefix(old(mem), mem, old(kind), root, va, mapped, pa, prot)
      ensures mapped == 0 ==> Taken(mem, root, 2, va) || NoFreeFrame()
    {
      ghost var m, k := mem, kind;
      var slot := WalkCreate(root, va);
      MapNone(m, mem, k, root, va, pa, prot);
      if slot.NoSlot? {
        if LeafAbove(mem, root, 2, va) {
          LeafIsTaken(mem, root, 2, va);
        }
        return 0;
      }
      var Entry(t, i) := slot;
      var valid := HasValidBit(mem[t][i]);
      if valid {
        assert Taken(mem, root, 2, va);
        return 0;
      }
      ghost var n := mem;
      StorePage(root, va, pa, prot, t, i);
      MapFromSame(m, k, n, kind, mem, root, va, 1, pa, prot);
      return 1;
    }

    // The store of map_pages_to.
    method StorePage(root: nat, va: nat, pa: nat, prot: nat, t: nat, i: nat)
      requires Valid() && LeafSlot(mem, kind, root, va, t, i) && !Sv39.Valid(mem[t][i])
      requires va % PAGE == 0 && pa % PAGE == 0 && va + PAGE <= LOW_END && prot < FLAG_LIMIT
      modifies this`mem
      ensures Valid() && MapsPrefix(old(mem), mem, kind, root, va, 1, pa, prot)
    {
      ghost var m := mem;
      MapOne(m, kind, root, va, pa, prot, t, i);
      var pte := NewEntry(Wrap(pa), prot);
      assert pte == EntryFor(pa, prot);
      ShapeSetEntry(m, kind, t, i, pte);
      mem := SetEntry(mem, t, i, pte);
      assert mem == SetEntry(m, t, i, EntryFor(pa, prot));
    }

    // Of the pages from va on, the first i are mapped, and nothing else has changed since m0.
    ghost predicate MappedSoFar(m0: Tables, k0: Kinds, root: nat, va: nat, i: nat, pa: nat, prot: nat)
      reads this, fa, fa.pages
    {
      true == (Valid() && KindsGrow(k0, kind) && MapsPrefix(m0, mem, k0, root, va, i, pa, prot))
    }

    // The loop of map_pages_to: how many pages it maps before it must stop.
    method MapLoop(root: nat, va: nat, pages: nat, pa: nat, prot: nat, ghost m0: Tables, ghost k0: Kinds) returns (i: nat)
      requires MappedSoFar(m0, k0, root, va, 0, pa, prot) && root in k0 && k0[root] == Root
      requires va % PAGE == 0 && pa % PAGE == 0 && va + pages * PAGE <= LOW_END && prot < FLAG_LIMIT
      modifies this`mem, this`kind, fa.pages, fa`lists, fa`live
      ensures i <= pages && MappedSoFar(m0, k0, root, va, i, pa, prot)
      ensures i < pages ==> MustStop(root, va, i)
    {
      hide MappedSoFar, MustStop;
      i := 0;
      while i < pages
        invariant i <= pages && MappedSoFar(m0, k0, root, va, i, pa, prot)
      {
        var mapped := MapNext(root, va, i, pa, prot, m0, k0);
        if mapped == 0 {
          return;
        }
        i := i + 1;
      }
    }

    // One turn of the loop, after i pages: 1 if one more page is mapped, 0 if it must stop.
    method MapNext(root: nat, va: nat, i: nat, pa: nat, prot: nat, ghost m0: Tables, ghost k0: Kinds) returns (mapped: nat)
      requires MappedSoFar(m0, k0, root, va, i, pa, prot) && root in k0 && k0[root] == Root
      requires va % PAGE == 0 && pa % PAGE == 0 && va + (i + 1) * PAGE <= LOW_END && prot < FLAG_LIMIT
      modifies this`mem, this`kind, fa.pages, fa`lists, fa`live
      ensures MappedSoFar(m0, k0, root, va, i + mapped, pa, prot) && mapped <= 1
      ensures mapped == 0 ==> MustStop(root, va, i)
    {
      assert root in kind && kind[root] == Root;
      var curVa := va + i * PAGE;
      var curPa := pa + i * PAGE;
      ghost var m, k := mem, kind;
      mapped := MapPage(root, curVa, curPa, prot);
      MapMore(m0, k0, m, k, mem, root, va, i, pa, prot, mapped);
    }

    // map_pages_to returns 0 exactly when the pages it mapped hold all of the range; then each
    // byte of the range leads where it should. In every case the pages mapped are the first
    // done ones, and no address behind the last page of the range, or before it, changes.
    method MapPagesTo(pgd: nat, va: nat, size: nat, pa: nat, prot: nat) returns (ret: int, done: nat)
      requires Valid()
      requires pgd != 0 ==> pgd >= FA.KERNEL_VA_OFFSET && var r := pgd - FA.KERNEL_VA_OFFSET; r in kind && kind[r] == Root
      requires va % PAGE == 0 && pa % PAGE == 0 && va + size <= LOW_END && prot < FLAG_LIMIT
      modifies this`mem, this`kind, fa.pages, fa`lists, fa`live
      ensures Valid() && KindsGrow(old(kind), kind)
      ensures ret == if pgd != 0 && size != 0 && size <= done * PAGE then 0 else -1
      ensures pgd == 0 || size == 0 ==> mem == old(mem) && kind == old(kind)
      ensures pgd != 0 && size != 0 ==>
                && done * PAGE < size + PAGE
                && MapsPrefix(old(mem), mem, old(kind), pgd - FA.KERNEL_VA_OFFSET, va, done, pa, prot)
                && (done * PAGE < size ==> Taken(mem, pgd - FA.KERNEL_VA_OFFSET, 2, va + done * PAGE) || NoFreeFrame())
      ensures ret == 0 ==> forall r: nat, x: nat :: r + FA.KERNEL_VA_OFFSET == pgd && va <= x < va + size ==>
                Translate(mem, r, x) == MappedByte(pa + (x - va), prot)
      ensures forall r: nat, x: nat :: r in old(kind) && IsRoot(old(kind)[r]) ==>
                pgd == 0 || r != pgd - FA.KERNEL_VA_OFFSET || x < va || va + size <= x / PAGE * PAGE ==>
                Translate(mem, r, x) == Translate(old(mem), r, x)
    {
      if pgd == 0 || size == 0 {
        return -1, 0;
      }
      var pages := Pages(size);
      WholePages(va, size, pages);
      MapNone(mem, mem, kind, pgd - FA.KERNEL_VA_OFFSET, va, pa, prot);
      done := MapLoop(pgd - FA.KERNEL_VA_OFFSET, va, pages, pa, prot, mem, kind);
      PrefixBytes(old(mem), mem, old(kind), pgd - FA.KERNEL_VA_OFFSET, va, size, done, pa, prot);
      ret := if done == pages then 0 else -1;
    }

    // vm_create_user_pgd: the new address space shares the kernel half and maps nothing else.
    method CreateUserPgd() returns (pgd: nat)
      requires Valid()
      modifies this`mem, this`kind, fa.pages, fa`lists, fa`live
      ensures Valid()
      ensures forall u :: u in old(kind) ==> u in kind && kind[u] == old(kind)[u]
      ensures forall r: nat, x: nat :: r in old(kind) && IsRoot(old(kind)[r]) ==> Translate(mem, r, x) == Translate(old(mem), r, x)
      ensures pgd == 0 ==> kind == old(kind) && NoFreeFrame()
      ensures pgd != 0 ==>
                && pgd >= FA.KERNEL_VA_OFFSET
                && var r := pgd - FA.KERNEL_VA_OFFSET;
                   && r !in old(kind) && kind == old(kind)[r := Root]
                   && forall x: nat :: Translate(mem, r, x) == if x < LOW_END then Fault else Translate(old(mem), earlyPgd, x)
    {
      pgd := NewTable(Root);
      if pgd == 0 {
        return;
      }
      var r := pgd - FA.KERNEL_VA_OFFSET;
      ShareKernelHalf(r);
      NewRootTranslations(old(mem), old(kind), mem, r, earlyPgd);
    }

    // The loop of vm_create_user_pgd.
    method ShareKernelHalf(r: nat)
      requires Valid() && r in kind && kind[r] == Root && mem[r] == ZeroTable()
      modifies this`mem
      ensures Valid()
      ensures forall t :: t in kind && t != r ==> mem[t] == old(mem)[t]
      ensures forall j :: 0 <= j < 256 ==> mem[r][j] == 0
      ensures forall j :: 256 <= j < ENTRIES ==> mem[r][j] == old(mem)[earlyPgd][j]
    {
      for i := 256 to ENTRIES
        invariant Shape(mem, kind)
        invariant forall t :: t in kind && t != r ==> mem[t] == old(mem)[t]
        invariant forall j :: 0 <= j < 256 ==> mem[r][j] == 0
        invariant forall j :: 256 <= j < i ==> mem[r][j] == old(mem)[earlyPgd][j]
      {
        assert earlyPgd in mem && r in mem && |mem[earlyPgd]| == |mem[r]| == ENTRIES;
        var e := mem[earlyPgd][i];
        assert IsPointer(e) ==> ChildOk(kind, earlyPgd, i, PteToPa(e));
        ShapeSetEntry(mem, kind, r, i, e);
        mem := SetEntry(mem, r, i, e);
      }
    }
  }
}

/**
 Page table entries as vm.h encodes them, and Sv39 address translation as the RISC-V
 Privileged Architecture (version 20211203) defines it in sections 4.3.2 and 4.4.
 */
module Sv39 {
  import opened Bits

  const PTE_V: nat := 1
  const PTE_R: nat := 2
  const PTE_W: nat := 4
  const PTE_X: nat := 8
  const PTE_U: nat := 16
  const PTE_G: nat := 32
  const PTE_A: nat := 64
  const PTE_D: nat := 128

  // The flag bits of an entry are its low ten bits.
  const FLAG_LIMIT: nat := 1024

  const ENTRIES: nat := 512
  const PAGE: nat := 0x1000
  const PMD_SIZE: nat := 0x20_0000
  const PGD_SIZE: nat := 0x4000_0000

  // One past the lower half of the address space, and the start of the upper half.
  const LOW_END: nat := 0x40_0000_0000
  const HIGH_START: nat := 0xffff_ffc0_0000_0000
  const VA_END: nat := 0x1_0000_0000_0000_0000

  // Physical addresses have 56 bits, so the bits of an entry from 54 on are not part of one.
  const PA_END: nat := 0x100_0000_0000_0000
  const RESERVED_START: nat := 0x40_0000_0000_0000

  function PaToPte(pa: nat): nat
  {
    pa / 0x1000 * 0x400
  }

  function PteToPa(pte: nat): nat
  {
    pte / 0x400 * 0x1000
  }

  predicate Valid(pte: nat) { pte % 2 == 1 }
  predicate Readable(pte: nat) { pte / 2 % 2 == 1 }
  predicate Writable(pte: nat) { pte / 4 % 2 == 1 }
  predicate Executable(pte: nat) { pte / 8 % 2 == 1 }
  predicate UserMode(pte: nat) { pte / 16 % 2 == 1 }
  predicate Accessed(pte: nat) { pte / 64 % 2 == 1 }
  predicate Dirty(pte: nat) { pte / 128 % 2 == 1 }

  function Flags(pte: nat): nat
  {
    pte % FLAG_LIMIT
  }

  // The two masks the kernel tests entries with.
  lemma MaskTests(pte: nat)
    ensures And(pte, PTE_V) != 0 <==> Valid(pte)
    ensures And(pte, PTE_R + PTE_W + PTE_X) != 0 <==> Readable(pte) || Writable(pte) || Executable(pte)
  {
    assert And(pte / 2, 0) == 0 && And(pte / 16, 0) == 0;
    assert And(pte / 8, 1) == pte / 8 % 2 + 2 * And(pte / 16, 0);
    assert And(pte / 4, 3) == pte / 4 % 2 + 2 * And(pte / 8, 1);
    assert And(pte / 2, 7) == pte / 2 % 2 + 2 * And(pte / 4, 3);
  }

  // Encoding and decoding are inverse on page-aligned addresses.
  lemma EncodeDecode(pa: nat, flags: nat)
    requires pa % PAGE == 0 && flags < FLAG_LIMIT
    ensures PteToPa(PaToPte(pa) + flags) == pa && Flags(PaToPte(pa) + flags) == flags
  {
  }

  // An entry has none of the bits from 54 on exactly if its address is a physical one.
  lemma AddressBits(pte: nat)
    ensures pte < RESERVED_START <==> PteToPa(pte) < PA_END
  {
  }

  // The macros combine address and flags by or, which adds.
  lemma OrIsSum(pa: nat, flags: nat)
    requires flags < FLAG_LIMIT
    ensures Or(PaToPte(pa), flags) == PaToPte(pa) + flags
  {
    assert Pow2(10) == 0x400 by {
      assert Pow2(5) == 32;
      assert Pow2(8) == 256;
    }
    OrLow(pa / 0x1000, flags, 10);
  }

  lemma BitOfSum(q: nat, even: nat, f: nat)
    requires even % 2 == 0
    ensures (q * even + f) % 2 == f % 2
  {
    assert q * even == 2 * (q * (even / 2));
  }

  // The permission bits of an entry are those of its flags.
  lemma FlagBits(pa: nat, flags: nat)
    requires flags < FLAG_LIMIT
    ensures var pte := PaToPte(pa) + flags;
            && (Valid(pte) <==> Valid(flags)) && (Readable(pte) <==> Readable(flags))
            && (Writable(pte) <==> Writable(flags)) && (Executable(pte) <==> Executable(flags))
  {
    var q := pa / 0x1000;
    var pte := q * 1024 + flags;
    BitOfSum(q, 1024, flags);
    BitOfSum(q, 512, flags / 2);
    BitOfSum(q, 256, flags / 4);
    BitOfSum(q, 128, flags / 8);
    assert pte / 2 == q * 512 + flags / 2 && pte / 4 == q * 256 + flags / 4 && pte / 8 == q * 128 + flags / 8;
  }

  // prot | PTE_V only adds the valid bit.
  lemma OrValid(prot: nat)
    ensures Or(prot, PTE_V) == if Valid(prot) then prot else prot + 1
  {
    OrZero(prot / 2);
  }

  // ---------- the translation algorithm ----------

  // Page tables in physical memory, by the address of the page each one fills.
  type Tables = map<nat, seq<nat>>

  datatype Outcome = Fault | Mapped(pa: nat, flags: nat)

  function LevelSize(level: nat): (s: nat)
    requires level <= 2
    ensures s > 0
  {
    if level == 0 then PAGE else if level == 1 then PMD_SIZE else PGD_SIZE
  }

  function Vpn(va: nat, level: nat): (i: nat)
    requires level <= 2
    ensures i < ENTRIES
  {
    va / LevelSize(level) % 512
  }

  predicate Canonical(va: nat)
  {
    va < LOW_END || HIGH_START <= va < VA_END
  }

  // Bits 54 to 63 are reserved, or belong to extensions the kernel does not turn on, and so
  // is W without R.
  predicate Reserved(pte: nat)
  {
    pte >= RESERVED_START || (!Readable(pte) && Writable(pte))
  }

  predicate IsLeaf(pte: nat) { Valid(pte) && (Readable(pte) || Executable(pte)) }

  // Steps 2 to 8 from the table at t: an invalid or reserved entry, a misaligned superpage
  // and a pointer at the last level fault.
  function Walk(m: Tables, t: nat, level: nat, va: nat): Outcome
    requires level <= 2
    decreases level
  {
    if t !in m || |m[t]| != ENTRIES then Fault else
    var pte := m[t][Vpn(va, level)];
    if !Valid(pte) || Reserved(pte) then Fault
    else if IsLeaf(pte) then
      if PteToPa(pte) % LevelSize(level) != 0 then Fault
      else Mapped(PteToPa(pte) + va % LevelSize(level), Flags(pte))
    else if level == 0 then Fault
    else Walk(m, PteToPa(pte), level - 1, va)
  }

  // An entry made from the address of a page or block and readable flags maps it.
  lemma LeafWalk(m: Tables, t: nat, level: nat, va: nat, pa: nat, flags: nat)
    requires level <= 2 && t in m && |m[t]| == ENTRIES && m[t][Vpn(va, level)] == PaToPte(pa) + flags
    requires pa % PAGE == 0 && pa % LevelSize(level) == 0 && pa < PA_END
    requires flags < FLAG_LIMIT && Valid(flags) && Readable(flags)
    ensures Walk(m, t, level, va) == Mapped(pa + va % LevelSize(level), flags)
  {
    hide PaToPte, PteToPa, Vpn;
    EncodeDecode(pa, flags);
    FlagBits(pa, flags);
    AddressBits(PaToPte(pa) + flags);
  }

  function Translate(m: Tables, root: nat, va: nat): Outcome
  {
    if Canonical(va) then Walk(m, root, 2, va) else Fault
  }

  // ---------- table edits ----------

  function ZeroTable(): (t: seq<nat>)
    ensures |t| == ENTRIES && forall i :: 0 <= i < ENTRIES ==> t[i] == 0
  {
    seq(ENTRIES, _ => 0)
  }

  function SetEntry(m: Tables, t: nat, i: nat, pte: nat): Tables
    requires t in m && i < |m[t]|
  {
    var row: seq<nat> := m[t][i := pte];
    m[t := row]
  }

  // A pointer to the next level: the address of the table and the valid bit alone.
  function PointerTo(table: nat): nat
  {
    PaToPte(table) + PTE_V
  }

  predicate IsPointer(pte: nat)
  {
    Valid(pte) && !Readable(pte) && !Writable(pte) && !Executable(pte)
  }

  lemma PointerShape(table: nat)
    requires table % PAGE == 0
    ensures IsPointer(PointerTo(table)) && PteToPa(PointerTo(table)) == table
    ensures table < PA_END ==> !Reserved(PointerTo(table))
  {
    AddressBits(PointerTo(table));
    EncodeDecode(table, PTE_V);
    FlagBits(table, PTE_V);
  }

  lemma EmptyTableFaults(m: Tables, t: nat, level: nat, va: nat)
    requires level <= 2 && t in m && m[t] == ZeroTable()
    ensures Walk(m, t, level, va) == Fault
  {
  }

  // An entry that was invalid now points to a new, empty table: no translation changes.
  lemma {:induction false} AttachEmpty(m: Tables, t: nat, i: nat, new': nat, t0: nat, level: nat, va: nat)
    requires t in m && |m[t]| == ENTRIES && i < ENTRIES && !Valid(m[t][i])
    requires new' !in m && new' % PAGE == 0 && level <= 2
    ensures Walk(SetEntry(m[new' := ZeroTable()], t, i, PointerTo(new')), t0, level, va) == Walk(m, t0, level, va)
    decreases level
  {
    var m' := SetEntry(m[new' := ZeroTable()], t, i, PointerTo(new'));
    EmptyTableFaults(m', new', level, va);
    if t0 in m && |m[t0]| == ENTRIES {
      var v := Vpn(va, level);
      if t0 == t && v == i {
        PointerShape(new');
        if level > 0 {
          EmptyTableFaults(m', new', level - 1, va);
        }
      } else {
        assert m'[t0][v] == m[t0][v];
        if level > 0 {
          AttachEmpty(m, t, i, new', PteToPa(m[t0][v]), level - 1, va);
        }
      }
    }
  }

  // ---------- the bit expressions of vm.c ----------

  method HasValidBit(pte: nat) returns (b: bool)
    ensures b <==> Valid(pte)
  {
    MaskTests(pte);
    b := And(pte, PTE_V) != 0;
  }

  method HasPermissionBit(pte: nat) returns (b: bool)
    ensures b <==> Readable(pte) || Writable(pte) || Executable(pte)
  {
    MaskTests(pte);
    b := And(pte, PTE_R + PTE_W + PTE_X) != 0;
  }

  method MakeEntry(pa: nat, flags: nat) returns (pte: nat)
    requires flags < FLAG_LIMIT
    ensures pte == PaToPte(pa) + flags
  {
    OrIsSum(pa, flags);
    pte := Or(PaToPte(pa), flags);
  }
}

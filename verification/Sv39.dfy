/** The address arithmetic of kernel/riscv_defs.h and kernel/memlayout.h.

    The macros are written with the bitwise operators of the header; the lemmas give them the
    arithmetic meaning that the page-table code is modelled with. */
module Sv39 {
  import opened Bits

  const KERNEL_START: nat := 0x80000000
  const PGSIZE: nat := 4096
  const ENTRIES: nat := 512
  const MAXVA: nat := 0x40_0000_0000          // 1 << 38
  const TRAMPOLINE: nat := MAXVA - PGSIZE
  const TRAPFRAME: nat := TRAMPOLINE - PGSIZE
  const SHARED_MEMORY: nat := TRAMPOLINE - 2 * PGSIZE
  const MIN_STACK_ADDR: nat := SHARED_MEMORY - 1024 * PGSIZE

  const PTE_V: nat := 1
  const PTE_R: nat := 2
  const PTE_W: nat := 4
  const PTE_X: nat := 8
  const PTE_U: nat := 16

  // ----- The macros -----

  /** `a & ~(PGSIZE-1)` on words of `w` bits. */
  ghost function PGROUNDDOWN(a: nat, w: nat): nat
    requires 12 <= w
  {
    Pow2Monotone(12, w);
    BitAnd(a, Pow2(w) - Pow2(12))
  }

  ghost function PGROUNDUP(sz: nat, w: nat): nat
    requires 12 <= w
  {
    PGROUNDDOWN(sz + PGSIZE - 1, w)
  }

  ghost function PGOFFSET(va: nat): nat { BitAnd(va, Pow2(12) - 1) }

  ghost function PA2PTE(pa: nat): nat { Shr(pa, 12) * Pow2(10) }

  ghost function PTE2PA(pte: nat): nat { Shr(pte, 10) * Pow2(12) }

  ghost function PTE_FLAGS(pte: nat): nat { BitAnd(pte, Pow2(10) - 1) }

  ghost function PX(level: nat, va: nat): nat { BitAnd(Shr(va, 12 + 9 * level), Pow2(9) - 1) }

  // ----- Their meaning -----

  function RoundDown(a: nat): nat { a / PGSIZE * PGSIZE }

  function RoundUp(sz: nat): nat { (sz + PGSIZE - 1) / PGSIZE * PGSIZE }

  /** The entry for a page: `PA2PTE(pa) | permission | PTE_V`. */
  function Pte(pa: nat, permission: nat): nat { pa / PGSIZE * 1024 + WithValid(permission) }

  function WithValid(permission: nat): nat { if permission % 2 == 0 then permission + 1 else permission }

  function Target(pte: nat): nat { pte / 1024 * PGSIZE }

  function Flags(pte: nat): nat { pte % 1024 }

  predicate IsValid(pte: nat) { pte % 2 == 1 }

  /** The entry is valid, and allows exactly this: the bits 1 to 4 of section 4.4.1 of the RISC-V Privileged
      Architecture. */
  predicate Grants(flags: nat, readable: bool, writable: bool, executable: bool, user: bool) {
    && flags % 2 == 1
    && ((flags / 2) % 2 == 1 <==> readable)
    && ((flags / 4) % 2 == 1 <==> writable)
    && ((flags / 8) % 2 == 1 <==> executable)
    && ((flags / 16) % 2 == 1 <==> user)
  }

  /** The index of a virtual address in the table of each level. */
  function Px(level: nat, va: nat): (i: nat)
    ensures i < ENTRIES
  {
    if level == 0 then va / 4096 % 512 else if level == 1 then va / 0x20_0000 % 512 else va / 0x4000_0000 % 512
  }

  /** kernel/memlayout.h and kernel/riscv_defs.h, in numbers. */
  lemma MemoryMap()
    ensures KERNEL_START == 0x8000_0000 && PGSIZE == 4096 && ENTRIES == 512 && MAXVA == 0x40_0000_0000
    ensures TRAMPOLINE == 0x3F_FFFF_F000 && TRAPFRAME == 0x3F_FFFF_E000 && SHARED_MEMORY == 0x3F_FFFF_D000
    ensures MIN_STACK_ADDR == 0x3F_FFBF_D000
    ensures PTE_V == 1 && PTE_R == 2 && PTE_W == 4 && PTE_X == 8 && PTE_U == 16
  {}

  lemma Constants()
    ensures Pow2(9) == 512 && Pow2(10) == 1024 && Pow2(12) == 4096
    ensures Pow2(21) == 0x20_0000 && Pow2(30) == 0x4000_0000 && Pow2(38) == MAXVA
    ensures MAXVA < Pow2(64)
  {
    assert Pow2(4) == 16 && Pow2(5) == 32;
    Pow2Add(4, 5);
    Pow2Add(9, 3);
    assert Pow2(3) == 8;
    Pow2Add(12, 9);
    Pow2Add(21, 9);
    Pow2Add(30, 8);
    assert Pow2(9) == 2 * Pow2(8);
    Pow2Monotone(38, 64);
  }

  lemma RoundingMacros(a: nat, w: nat)
    requires 12 <= w && a + PGSIZE < Pow2(w)
    ensures PGROUNDDOWN(a, w) == RoundDown(a) && PGROUNDUP(a, w) == RoundUp(a) && PGOFFSET(a) == a % PGSIZE
  {
    RoundingMacro(a, w);
    RoundingMacro(a + PGSIZE - 1, w);
    Constants();
    AndLowMask(a, 12);
    LowIsMod(a, 12);
  }

  lemma RoundingMacro(a: nat, w: nat)
    requires 12 <= w && a < Pow2(w)
    ensures PGROUNDDOWN(a, w) == RoundDown(a)
  {
    Constants();
    AndHighMask(a, 12, w);
    LowIsMod(a, 12);
  }

  lemma IndexMacro(level: nat, va: nat)
    requires level <= 2
    ensures PX(level, va) == Px(level, va)
  {
    Constants();
    var shifted := Shr(va, 12 + 9 * level);
    ShrIsDiv(va, 12 + 9 * level);
    AndLowMask(shifted, 9);
    LowIsMod(shifted, 9);
  }

  /** `PA2PTE(pa) | permission`: the fields do not overlap. */
  lemma EntryJoin(pa: nat, permission: nat)
    requires permission < 1024
    ensures BitOr(PA2PTE(pa), permission) == pa / PGSIZE * 1024 + permission
  {
    Constants();
    ShrIsDiv(pa, 12);
    OrDisjoint(Shr(pa, 12), permission, 10);
  }

  /** `... | PTE_V` completes the entry. */
  lemma EntryValid(pa: nat, permission: nat)
    ensures BitOr(pa / PGSIZE * 1024 + permission, PTE_V) == Pte(pa, permission)
  {}

  /** Reading an entry with the shifts and masks is `Target`, `Flags` and `IsValid`. */
  lemma FieldMacros(pte: nat)
    ensures PTE2PA(pte) == Target(pte)
    ensures PTE_FLAGS(pte) == Flags(pte)
    ensures BitAnd(pte, PTE_V) != 0 <==> IsValid(pte)
  {
    Constants();
    ShrIsDiv(pte, 10);
    AndLowMask(pte, 10);
    LowIsMod(pte, 10);
    AndSingleBit(pte, 0);
  }

  /** The frame, the flags and the valid bit survive in an entry. */
  lemma EntryRoundTrip(pa: nat, permission: nat)
    requires pa % PGSIZE == 0 && permission < 1024
    ensures Target(Pte(pa, permission)) == pa
    ensures Flags(Pte(pa, permission)) == WithValid(permission)
    ensures IsValid(Pte(pa, permission))
  {}

  /** The three indices tell virtual pages below MAXVA apart. */
  lemma IndicesInjective(va: nat, vb: nat)
    requires va < MAXVA && vb < MAXVA
    requires forall level :: 0 <= level <= 2 ==> Px(level, va) == Px(level, vb)
    ensures va / PGSIZE == vb / PGSIZE
  {
    assert Px(0, va) == Px(0, vb) && Px(1, va) == Px(1, vb) && Px(2, va) == Px(2, vb);
    PageFromIndices(va);
    PageFromIndices(vb);
  }

  lemma PageFromIndices(va: nat)
    requires va < MAXVA
    ensures va / PGSIZE == Px(2, va) * 0x4_0000 + Px(1, va) * 512 + Px(0, va)
  {}
}

/** What the buddy allocator keeps over whole runs, and what does not depend on the run. */
module BuddyRuns {
  import opened Bits
  import opened BuddyBlocks
  import opened BuddyThreads
  import opened BuddyPool
  import Sv39

  datatype Request = Take(power: nat) | Give(addr: int, power: nat)

  /** What a client can rely on about the lists, in terms of blocks and pages only. */
  ghost predicate WellKept(lists: seq<seq<int>>, free: set<int>, kernelEnd: int) {
    && |lists| == MAX_ORDER + 1
    && (forall k :: 0 <= k <= MAX_ORDER ==> StrictlySorted(lists[k]))
    && (forall k, p :: 0 <= k <= MAX_ORDER && p in lists[k] ==>
         Aligned(p, k) && kernelEnd <= p && p + Pow2(k) <= PAGES)
    && (forall j, p, k, q ::
          0 <= j <= MAX_ORDER && 0 <= k <= MAX_ORDER && p in lists[j] && q in lists[k] && !(p == q && j == k) ==>
          Range(p, j) !! Range(q, k))
    && (forall k, p :: 0 <= k <= MAX_ORDER && p in lists[k] ==> BuddyOf(p, k) !in lists[k])
    && (forall x :: x in free <==> exists k, p :: 0 <= k <= MAX_ORDER && p in lists[k] && x in Range(p, k))
    && forall p :: p !in lists[MAX_ORDER]
  }

  /** Sorted, aligned, inside the pool, disjoint, never two free buddies, covering exactly
      the free pages, and nothing of order 15. */
  lemma CanonicalIsWellKept(lists: seq<seq<int>>, free: set<int>, kernelEnd: int)
    requires Canonical(lists, free) && InPool(free, kernelEnd)
    ensures WellKept(lists, free, kernelEnd)
  {
    forall k, p | 0 <= k <= MAX_ORDER && p in lists[k]
      ensures Aligned(p, k) && kernelEnd <= p && p + Pow2(k) <= PAGES && BuddyOf(p, k) !in lists[k] && k < MAX_ORDER
    {
      assert CanonicalList(lists[k], free, k);
      OrderBounded(free, kernelEnd, p, k);
      assert p in Range(p, k);
      BuddyNotMaximal(free, p, k);
    }
    forall j, p, k, q |
      0 <= j <= MAX_ORDER && 0 <= k <= MAX_ORDER && p in lists[j] && q in lists[k] && !(p == q && j == k)
      ensures Range(p, j) !! Range(q, k)
    {
      assert CanonicalList(lists[j], free, j) && CanonicalList(lists[k], free, k);
      MaximalDisjoint(free, p, j, q, k);
    }
    forall x
      ensures x in free <==> exists k, p :: 0 <= k <= MAX_ORDER && p in lists[k] && x in Range(p, k)
    {
      FreePageIsListed(lists, free, kernelEnd, x);
    }
  }

  lemma BuddyNotMaximal(free: set<int>, p: int, k: nat)
    requires Maximal(free, p, k)
    ensures !Maximal(free, BuddyOf(p, k), k)
  {}

  lemma FreePageIsListed(lists: seq<seq<int>>, free: set<int>, kernelEnd: int, x: int)
    requires Canonical(lists, free) && InPool(free, kernelEnd)
    ensures x in free <==> exists k, p :: 0 <= k <= MAX_ORDER && p in lists[k] && x in Range(p, k)
  {
    if x in free {
      assert Aligned(x, 0) && WhollyFree(free, x, 0);
      var p, k := Climb(free, kernelEnd, x, 0);
      assert CanonicalList(lists[k], free, k);
      assert p in lists[k] && x in Range(p, k);
    }
    if k, p :| 0 <= k <= MAX_ORDER && p in lists[k] && x in Range(p, k) {
      assert CanonicalList(lists[k], free, k);
    }
  }

  /** Any run: `init_mem_manage`, then any requests. A release is legal when the client
      holds every page of the run, whether or not it got them as one block. Pages are never
      lost, never handed out twice, and the lists stay the canonical ones. */
  method Serve(kernelPages: nat, requests: seq<Request>) returns (pool: BuddyPool, held: set<int>)
    requires 1 <= kernelPages <= PAGES
    ensures pool.Valid() && pool.kernelEnd == kernelPages
    ensures held !! pool.free && held + pool.free == Span(kernelPages, PAGES - kernelPages)
    ensures pool.lists == ListsOf(pool.free)
    ensures WellKept(pool.lists, pool.free, kernelPages)
  {
    pool := new BuddyPool(kernelPages);
    held := {};
    for n := 0 to |requests|
      invariant fresh(pool) && fresh(pool.link)
      invariant pool.Valid() && pool.kernelEnd == kernelPages
      invariant held !! pool.free && held + pool.free == Span(kernelPages, PAGES - kernelPages)
    {
      match requests[n]
      case Take(power) =>
        var addr := pool.Allocate(power);
        if addr != NIL {
          held := held + Range(addr, power);
        }
      case Give(addr, power) =>
        if Aligned(addr, power) && Range(addr, power) <= held {
          HeldIsReleasable(held, pool.free, kernelPages, addr, power);
          pool.Deallocate(addr, power);
          held := held - Range(addr, power);
        }
    }
    CanonicalForm(pool.lists, pool.free, kernelPages);
    CanonicalIsWellKept(pool.lists, pool.free, kernelPages);
  }

  lemma HeldIsReleasable(held: set<int>, free: set<int>, kernelEnd: nat, addr: int, power: nat)
    requires held !! free && 1 <= kernelEnd <= PAGES && held + free == Span(kernelEnd, PAGES - kernelEnd)
    requires Aligned(addr, power) && Range(addr, power) <= held
    ensures Releasable(free, kernelEnd, addr, power) && addr != NIL
  {
    assert addr in Range(addr, power) && addr + Pow2(power) - 1 in Range(addr, power);
    assert addr in held + free && addr + Pow2(power) - 1 in held + free;
  }

  /** `allocate` then `deallocate` of the same block restores all sixteen lists. */
  method Borrow(pool: BuddyPool, power: nat) returns (addr: int)
    requires pool.Valid()
    modifies pool, pool.link
    ensures pool.Valid() && pool.free == old(pool.free) && pool.lists == old(pool.lists)
  {
    CanonicalForm(pool.lists, pool.free, pool.kernelEnd);
    addr := pool.Allocate(power);
    if addr != NIL {
      assert addr in Range(addr, power) && addr + Pow2(power) - 1 in Range(addr, power);
      pool.Deallocate(addr, power);
      assert pool.free == old(pool.free);
    }
    CanonicalForm(pool.lists, pool.free, pool.kernelEnd);
  }

  // ----- Release in any order, whole or in parts -----

  datatype Block = Block(addr: int, power: nat)

  function PagesOf(blocks: seq<Block>): set<int> {
    if blocks == [] then {} else PagesOf(blocks[..|blocks| - 1]) + Range(Last(blocks).addr, Last(blocks).power)
  }

  function Last(blocks: seq<Block>): Block
    requires blocks != []
  {
    blocks[|blocks| - 1]
  }

  ghost predicate AllReleasable(free: set<int>, kernelEnd: int, blocks: seq<Block>) {
    && (forall i :: 0 <= i < |blocks| ==> Releasable(free, kernelEnd, blocks[i].addr, blocks[i].power))
    && forall i, j :: 0 <= i < j < |blocks| ==>
         Range(blocks[i].addr, blocks[i].power) !! Range(blocks[j].addr, blocks[j].power)
  }

  /** The lists after releasing blocks depend on the pages released, not on the blocks. */
  method ReleaseAll(pool: BuddyPool, blocks: seq<Block>)
    requires pool.Valid() && AllReleasable(pool.free, pool.kernelEnd, blocks)
    modifies pool, pool.link
    ensures pool.Valid()
    ensures pool.free == old(pool.free) + PagesOf(blocks)
    ensures pool.lists == ListsOf(old(pool.free) + PagesOf(blocks))
  {
    assert blocks[..0] == [];
    for n := 0 to |blocks|
      invariant pool.Valid() && pool.free == old(pool.free) + PagesOf(blocks[..n])
    {
      assert blocks[..n + 1][..n] == blocks[..n];
      LaterDisjoint(old(pool.free), pool.kernelEnd, blocks, n, n);
      assert blocks[n].addr != NIL;
      pool.Deallocate(blocks[n].addr, blocks[n].power);
    }
    assert blocks[..|blocks|] == blocks;
    CanonicalForm(pool.lists, pool.free, pool.kernelEnd);
  }

  lemma {:induction false} LaterDisjoint(free: set<int>, kernelEnd: int, blocks: seq<Block>, n: nat, m: nat)
    requires AllReleasable(free, kernelEnd, blocks) && n < |blocks| && m <= n
    ensures PagesOf(blocks[..m]) !! Range(blocks[n].addr, blocks[n].power)
  {
    if m > 0 {
      assert blocks[..m][..m - 1] == blocks[..m - 1];
      LaterDisjoint(free, kernelEnd, blocks, n, m - 1);
    }
  }

  /** Membership in `PagesOf` does not mention the order of the blocks. */
  lemma {:induction false} PagesOfMember(blocks: seq<Block>, x: int)
    ensures x in PagesOf(blocks) <==> exists b :: b in blocks && x in Range(b.addr, b.power)
  {
    if blocks != [] {
      var rest := blocks[..|blocks| - 1];
      PagesOfMember(rest, x);
      assert blocks == rest + [Last(blocks)];
      if x in Range(Last(blocks).addr, Last(blocks).power) {
        assert Last(blocks) in blocks;
      }
    }
  }

  /** Any permutation of the releases ends in identical lists. */
  lemma OrderIndependent(free: set<int>, blocks: seq<Block>, others: seq<Block>)
    requires multiset(blocks) == multiset(others)
    ensures ListsOf(free + PagesOf(blocks)) == ListsOf(free + PagesOf(others))
  {
    forall x
      ensures x in PagesOf(blocks) <==> x in PagesOf(others)
    {
      PagesOfMember(blocks, x);
      PagesOfMember(others, x);
      forall b
        ensures b in blocks <==> b in others
      {
        assert b in multiset(blocks) <==> b in multiset(others);
      }
    }
    assert PagesOf(blocks) == PagesOf(others);
  }

  /** Releasing a block as two halves ends in the same lists as releasing it whole. */
  lemma HalvesIndependent(free: set<int>, addr: int, power: nat)
    ensures ListsOf(free + PagesOf([Block(addr, power), Block(addr + Pow2(power), power)]))
         == ListsOf(free + PagesOf([Block(addr, power + 1)]))
  {
    var halves := [Block(addr, power), Block(addr + Pow2(power), power)];
    var whole := [Block(addr, power + 1)];
    var half := [Block(addr, power)];
    assert halves[..1] == half && half[..0] == [] && whole[..0] == [];
    assert PagesOf(half) == PagesOf([]) + Range(addr, power);
    assert PagesOf(whole) == PagesOf([]) + Range(addr, power + 1);
    assert PagesOf(halves) == Range(addr, power) + Range(addr + Pow2(power), power);
    assert PagesOf(whole) == Range(addr, power + 1);
    assert PagesOf(halves) == PagesOf(whole);
  }

  // ----- Byte addresses -----

  function AddressOf(page: nat): nat {
    Sv39.KERNEL_START + Sv39.PGSIZE * page
  }

  /** The bit tests of the code on 64-bit addresses are the tag tests on page numbers:
      `addr & (PAGE_SIZE << power)` and `addr & ~(PAGE_SIZE << power)`. */
  lemma TagOfAddress(page: nat, power: nat)
    requires page < PAGES && power < MAX_ORDER
    ensures Sv39.PGSIZE * Pow2(power) == Pow2(12 + power) && Pow2(12 + power) < Pow2(64)
    ensures BitAnd(AddressOf(page), Sv39.PGSIZE * Pow2(power)) != 0 <==> Tagged(page, power)
    ensures Aligned(page, power) ==> RemoveTag(page, power) >= 0
    ensures Aligned(page, power) ==>
      BitAnd(AddressOf(page), Pow2(64) - 1 - Sv39.PGSIZE * Pow2(power)) == AddressOf(RemoveTag(page, power))
  {
    var a := AddressOf(page);
    var bit := 12 + power;
    WordFacts(power);
    Pow2Monotone(bit + 1, 64);
    AndSingleBit(a, bit);
    AndClearBit(a, bit, 64);
    BitSetIsDiv(a, bit);
    TagShift(page, power);
    if Aligned(page, power) { ParentAligned(page, power); NonNegativeParent(page, power); }
  }

  lemma WordFacts(power: nat)
    ensures Pow2(12) == 4096 && Pow2(19) == 524288
    ensures Pow2(12 + power) == 4096 * Pow2(power)
    ensures Pow2(64) > 0x1_0000_0000
  {
    assert Pow2(12) == 4096 by { assert Pow2(6) == 64; Pow2Add(6, 6); }
    assert Pow2(19) == 524288 by { assert Pow2(7) == 128; Pow2Add(12, 7); }
    Pow2Add(12, power);
    assert Pow2(38) == 524288 * 524288 by { Pow2Add(19, 19); }
    Pow2Monotone(38, 64);
  }

  lemma NonNegativeParent(page: nat, power: nat)
    requires Aligned(page, power)
    ensures RemoveTag(page, power) >= 0
  {}

  /** Bit `12 + power` of an address is bit `power` of its page number. */
  lemma TagShift(page: nat, power: nat)
    requires power < MAX_ORDER
    ensures (AddressOf(page) / Pow2(12 + power)) % 2 == (page / Pow2(power)) % 2
  {
    var half := KernelStartBits(power);
    TagShiftBy(page, Pow2(power), half, AddressOf(page), Pow2(12 + power));
  }

  lemma TagShiftBy(page: nat, m: int, half: nat, address: nat, tag: int)
    requires m > 0 && (2 * half) * m == 524288
    requires tag == 4096 * m && address == 4096 * (524288 + page)
    ensures (address / tag) % 2 == (page / m) % 2
  {
    var x := (2 * half) * m + page;
    ScaledDiv(x, m);
    ShiftedDiv(2 * half, page, m);
    assert address / tag == 2 * half + page / m;
  }

  /** `KERNEL_START` has no bit at or below the tag of order 14. */
  lemma KernelStartBits(power: nat) returns (half: nat)
    requires power < MAX_ORDER
    ensures (2 * half) * Pow2(power) == 524288
    ensures Pow2(12 + power) == 4096 * Pow2(power)
  {
    WordFacts(power);
    half := Pow2(18 - power);
    assert Pow2(19 - power) == 2 * half;
    Pow2Add(19 - power, power);
  }

  lemma ScaledDiv(x: nat, m: int)
    requires m > 0
    ensures (4096 * x) / (4096 * m) == x / m
  {
    var q, r := x / m, x % m;
    assert x == q * m + r;
    assert 4096 * x == q * (4096 * m) + 4096 * r;
    DivModUnique(4096 * x, 4096 * m, q, 4096 * r);
  }

  lemma ShiftedDiv(c: nat, x: nat, m: int)
    requires m > 0
    ensures (c * m + x) / m == c + x / m
  {
    var q, r := x / m, x % m;
    assert c * m + x == (c + q) * m + r;
    DivModUnique(c * m + x, m, c + q, r);
  }
}

/** User memory by ranges of pages: map_section_for_user and free_memory of
    kernel/virtual_memory.c. */
module AddressSpace {
  import opened Sv39
  import opened PageTables
  import opened Ranges
  import opened Supply
  import opened Memory

  ghost function ViewOf(mem: Memory, pt: PageTable): View
    reads mem, mem.pool
  {
    View(mem.tables, mem.pages, mem.pool.free, pt)
  }

  /** A memory in order, with this page table in it. */
  ghost predicate Holds(mem: Memory, pt: PageTable)
    reads mem, mem.pool, mem.pool.link
  {
    mem.Valid() && Represents(mem.tables, pt)
  }

  // ----- free_memory -----

  /** Gives the data page back, if there is one, then unmaps the virtual page. */
  method FreeOne(mem: Memory, root: nat, w: nat, ghost pt: PageTable) returns (status: Status, ghost pt': PageTable)
    requires Holds(mem, pt) && root == pt.root && HasData(ViewOf(mem, pt), w)
    modifies mem, mem.pool, mem.pool.link
    ensures status.Ok? || status.Panic?
    ensures status.Panic? <==> Stuck(pt, w)
    ensures status.Ok? ==> Holds(mem, pt') && FreedOne(old(ViewOf(mem, pt)), ViewOf(mem, pt'), w)
    ensures status.Ok? ==> mem.Elsewhere() == old(mem.Elsewhere())
  {
    pt' := pt;
    var va: nat := w * PGSIZE;
    PageStart(w, va);
    if va >= MAXVA {
      return Panic, pt';
    }
    var pa := mem.PhysicalAddress(root, va, pt);
    ReleaseIfAny(mem, pa, pt, w);
    status, pt' := mem.UnmapPage(root, va, pt);
    if status.NotMapped? {
      assert pt.trans - {w} == pt.trans;
      status := Ok;
    }
  }

  lemma PageStart(w: nat, va: nat)
    requires va == w * PGSIZE
    ensures va / PGSIZE == w && va % PGSIZE == 0 && (va >= MAXVA <==> w >= VPNS)
  {}

  /** `deallocate(pa, 0)`, which does nothing for NULL. */
  method ReleaseIfAny(mem: Memory, pa: nat, ghost pt: PageTable, ghost w: nat)
    requires Holds(mem, pt) && HasData(ViewOf(mem, pt), w) && pa == if w in pt.trans then pt.trans[w].pa else NULL
    modifies mem`pages, mem.pool, mem.pool.link
    ensures Holds(mem, pt) && mem.Elsewhere() == old(mem.Elsewhere())
    ensures mem.pages == old(mem.pages) - (if w in pt.trans then {pa} else {})
    ensures mem.pool.free == old(mem.pool.free) + (if w in pt.trans then {PageNo(pa)} else {})
  {
    assert NULL !in mem.pages;
    if pa != NULL {
      mem.ReleasePage(pa);
    }
  }

  function PagesIn(size: nat): nat {
    (size + PGSIZE - 1) / PGSIZE
  }

  /** `for (i = 0; i < size; i += PGSIZE)` runs this often. */
  lemma Iterations(size: nat, k: nat)
    ensures k * PGSIZE < size <==> k < PagesIn(size)
  {}

  /** Some page of the range makes `unmap_page` panic. */
  ghost predicate StuckIn(pt: PageTable, v: nat, n: nat) {
    exists w :: w in Stretch(v, n) && Stuck(pt, w)
  }

  lemma StuckNext(pt: PageTable, v: nat, k: nat, n: nat, w: nat)
    requires k < n && w == v + k
    ensures StuckIn(pt, v, k) || Stuck(pt, w) <==> StuckIn(pt, v, k + 1)
    ensures StuckIn(pt, v, k + 1) ==> StuckIn(pt, v, n)
  {
    assert w in Stretch(v, k + 1);
    forall x | x in Stretch(v, k + 1)
      ensures x in Stretch(v, n) && (x in Stretch(v, k) || x == w)
    {}
  }

  /** Hands back every data page of the range once; panics exactly where `unmap_page` does. */
  method FreeMemory(mem: Memory, root: nat, start: nat, size: nat, ghost pt: PageTable)
      returns (status: Status, ghost pt': PageTable)
    requires Holds(mem, pt) && root == pt.root && Owned(ViewOf(mem, pt), start / PGSIZE, PagesIn(size))
    modifies mem, mem.pool, mem.pool.link
    ensures status.Ok? || status.Panic?
    ensures status.Panic? <==> StuckIn(pt, start / PGSIZE, PagesIn(size))
    ensures status.Ok? ==> Holds(mem, pt') && mem.Elsewhere() == old(mem.Elsewhere())
    ensures status.Ok? ==> Freed(old(ViewOf(mem, pt)), ViewOf(mem, pt'), start / PGSIZE, PagesIn(size))
  {
    var v: nat := start / PGSIZE;
    ghost var b, n := ViewOf(mem, pt), PagesIn(size);
    status, pt' := Ok, pt;
    FreedNothing(b, v);
    var k: nat := 0;
    Iterations(size, k);
    while k * PGSIZE < size
      invariant k <= n && (k * PGSIZE < size <==> k < n)
      invariant status.Ok? && Holds(mem, pt') && pt'.root == root && !StuckIn(pt, v, k)
      invariant Freed(b, ViewOf(mem, pt'), v, k) && mem.Elsewhere() == old(mem.Elsewhere())
      decreases n - k
    {
      status, pt' := FreeStep(mem, root, v + k, v, k, pt', b, n);
      if status.Panic? {
        return;
      }
      k := k + 1;
      Iterations(size, k);
    }
  }

  method FreeStep(mem: Memory, root: nat, w: nat, ghost v: nat, ghost k: nat, ghost pt: PageTable, ghost b: View,
                  ghost n: nat)
      returns (status: Status, ghost pt': PageTable)
    requires Holds(mem, pt) && root == pt.root && k < n && Owned(b, v, n) && Freed(b, ViewOf(mem, pt), v, k)
    requires w == v + k && !StuckIn(b.pt, v, k)
    modifies mem, mem.pool, mem.pool.link
    ensures status.Ok? || status.Panic?
    ensures status.Panic? ==> StuckIn(b.pt, v, n)
    ensures status.Ok? ==> !StuckIn(b.pt, v, k + 1)
    ensures status.Ok? ==> Holds(mem, pt') && pt'.root == root && Freed(b, ViewOf(mem, pt'), v, k + 1)
    ensures status.Ok? ==> mem.Elsewhere() == old(mem.Elsewhere())
  {
    ghost var c := ViewOf(mem, pt);
    StillOwned(b, c, v, n, k, w);
    StuckNext(b.pt, v, k, n, w);
    status, pt' := FreeOne(mem, root, w, pt);
    if status.Ok? {
      FreedNext(b, c, ViewOf(mem, pt'), v, k, w);
    }
  }

  // ----- map_section_for_user -----

  function Max(a: int, b: int): int { if a > b then a else b }

  function Min(a: int, b: int): int { if a < b then a else b }

  /** How many bytes of the source go to the page at `page`. */
  function CopySize(start: nat, srcSize: nat, page: nat): (n: nat)
    ensures n <= PGSIZE && n <= srcSize
    ensures n > 0 ==> Max(start, page) - start + n <= srcSize
  {
    var from, to := Max(start, page), Min(start + srcSize, page + PGSIZE);
    if to > from then to - from else 0
  }

  /** The part of the source that `map_section_for_user` copies to the page at `page`. */
  function Piece(src: seq<nat>, start: nat, srcSize: nat, page: nat): (r: seq<nat>)
    requires srcSize <= |src|
    ensures |r| == CopySize(start, srcSize, page)
  {
    var n := CopySize(start, srcSize, page);
    if n == 0 then [] else src[Max(start, page) - start..][..n]
  }

  function PageBytes(src: seq<nat>, start: nat, srcSize: nat, page: nat): (r: seq<nat>)
    requires srcSize <= |src|
    ensures |r| == PGSIZE
  {
    var piece := Piece(src, start, srcSize, page);
    piece + ZeroPage()[|piece|..]
  }

  /** What the first `n` pages of a section hold. */
  ghost function SectionBytes(src: seq<nat>, start: nat, srcSize: nat, n: nat): (r: seq<seq<nat>>)
    requires srcSize <= |src|
    ensures |r| == n
  {
    seq(n, i requires 0 <= i => PageBytes(src, start, srcSize, RoundDown(start) + i * PGSIZE))
  }

  lemma SectionBytesAt(src: seq<nat>, start: nat, srcSize: nat, n: nat, i: nat, page: nat)
    requires srcSize <= |src| && i < n && page == RoundDown(start) + i * PGSIZE
    ensures SectionBytes(src, start, srcSize, n)[i] == PageBytes(src, start, srcSize, page)
  {}

  /** One iteration: a fresh page with its part of the source, mapped behind the others. */
  method MapNext(mem: Memory, root: nat, va: nat, bytes: seq<nat>, permission: nat, ghost pt: PageTable,
                 ghost a: View, ghost v: nat, ghost frames: seq<nat>, ghost contents: seq<seq<nat>>, ghost w: nat)
      returns (status: Status, ghost pt': PageTable, ghost frame: nat)
    requires Holds(mem, pt) && root == pt.root && permission < 1024 && |bytes| <= PGSIZE
    requires
      && Mapped(a, ViewOf(mem, pt), v, frames, contents, Uniform(WithValid(permission)))
      && va / PGSIZE == w
      && w == v + |frames|
    modifies mem, mem.pool, mem.pool.link
    ensures mem.Valid() && !status.NotMapped?
    ensures status.Panic? ==> va >= MAXVA || w in pt.trans
    ensures !status.Panic? ==> Holds(mem, pt') && pt'.root == root
    ensures status.Ok? ==> va < MAXVA && w !in pt.trans
    ensures status.Ok? ==>
      Mapped(a, ViewOf(mem, pt'), v, frames + [frame], contents + [bytes + ZeroPage()[|bytes|..]],
             Uniform(WithValid(permission)))
    ensures status.NoMemory? ==> Mapped(a, ViewOf(mem, pt'), v, frames, contents, Uniform(WithValid(permission)))
    ensures status.Ok? ==> CanMap(MeansOf(old(ViewOf(mem, pt))), w * PGSIZE)
    ensures status.Ok? ==> MeansOf(ViewOf(mem, pt')) == WithPage(MeansOf(old(ViewOf(mem, pt))), w * PGSIZE)
    ensures status.NoMemory? ==> !CanMap(MeansOf(old(ViewOf(mem, pt))), w * PGSIZE)
    ensures mem.Elsewhere() == old(mem.Elsewhere())
  {
    hide CanMap, WithPage, StockOf;
    ghost var b := ViewOf(mem, pt);
    status, pt', frame := mem.MapPageForUser(root, va, bytes, |bytes|, permission, pt);
    assert bytes[..|bytes|] == bytes;
    if status.Ok? {
      MappedNext(a, b, ViewOf(mem, pt'), v, frames, contents, Uniform(WithValid(permission)), frame,
                 bytes + ZeroPage()[|bytes|..], w);
    } else if status.NoMemory? {
      MappedWidened(a, b, ViewOf(mem, pt'), v, frames, contents, Uniform(WithValid(permission)));
    }
  }

  /** A page and the tables on the way to it. */
  lemma PagePaid(a: View, b: View, w: nat)
    requires Represents(a.tables, a.pt)
    ensures CanMap(MeansOf(a), w * PGSIZE) <==> CanPay(a, 1, 0, Stretch(w, 1))
    ensures CanMap(MeansOf(a), w * PGSIZE) && MeansOf(b) == WithPage(MeansOf(a), w * PGSIZE) ==>
      Paid(a, b, 1, 0, Stretch(w, 1))
  {
    hide CanMap, WithPage, Affords, After, StockOf;
    RootedTables(a.tables, a.pt);
    CanMapIff(MeansOf(a), w, w * PGSIZE);
    assert Stretch(w, 1) == {w};
  }

  /** Tables alone. */
  lemma TablesPaid(a: View, b: View, w: nat)
    requires Represents(a.tables, a.pt)
    ensures Reached(MeansOf(a), w * PGSIZE) <==> CanPay(a, 0, 0, Stretch(w, 1))
    ensures Reached(MeansOf(a), w * PGSIZE) && MeansOf(b) == Built(MeansOf(a), w * PGSIZE) ==>
      Paid(a, b, 0, 0, Stretch(w, 1))
  {
    hide Reached, Built, Affords, After, StockOf;
    RootedTables(a.tables, a.pt);
    BuiltIff(MeansOf(a), w, w * PGSIZE);
    assert Stretch(w, 1) == {w};
  }

  lemma WholePages(v: nat, n: nat)
    ensures v * PGSIZE / PGSIZE == v && PagesIn(n * PGSIZE) == n
  {}

  /** `free_memory` of the pages mapped so far puts everything back, unless they are bare. */
  method RollBack(mem: Memory, root: nat, start: nat, size: nat, ghost pt: PageTable,
                  ghost a: View, ghost v: nat, ghost frames: seq<nat>, ghost contents: seq<seq<nat>>,
                  ghost flags: Permissions)
      returns (status: Status, ghost pt': PageTable)
    requires Holds(mem, pt) && root == pt.root
    requires Mapped(a, ViewOf(mem, pt), v, frames, contents, flags) && Stretch(v, |frames|) !! a.pt.trans.Keys
    requires start == v * PGSIZE && size == |frames| * PGSIZE
    modifies mem, mem.pool, mem.pool.link
    ensures status.Ok? || status.Panic?
    ensures status.Ok? <==> NotBare(flags, v, |frames|)
    ensures status.Ok? ==> Holds(mem, pt') && mem.Elsewhere() == old(mem.Elsewhere())
    ensures status.Ok? ==> mem.pages == a.pages && Widened(a.tables, a.free, a.pt, mem.tables, mem.pool.free, pt')
  {
    ghost var b := ViewOf(mem, pt);
    MappedIsOwned(a, b, v, frames, contents, flags);
    WholePages(v, |frames|);
    assert Owned(b, start / PGSIZE, PagesIn(size));
    StuckIfBare(mem.tables, b, v, |frames|, flags);
    status, pt' := FreeMemory(mem, root, start, size, pt);
    if status.Ok? {
      MappedThenFreed(a, b, ViewOf(mem, pt'), v, frames, contents, flags);
    }
  }

  /** Pages that are mapped make `unmap_page` panic if and only if they are bare. */
  lemma StuckIfBare(tables: Tables, b: View, v: nat, n: nat, flags: Permissions)
    requires Represents(tables, b.pt)
    requires forall w: nat :: v <= w < v + n ==> w in b.pt.trans && b.pt.trans[w].flags == FlagsAt(flags, w)
    ensures StuckIn(b.pt, v, n) <==> !NotBare(flags, v, n)
  {
    forall w | w in Stretch(v, n)
      ensures Stuck(b.pt, w) <==> FlagsAt(flags, w) == PTE_V
    {
      assert w in b.pt.trans && At(tables, b.pt, w) == Look(b.pt.trans, w);
    }
    if w: nat :| v <= w < v + n && FlagsAt(flags, w) == PTE_V {
      assert w in Stretch(v, n);
    }
  }

  /** Where the source pointer stands when the loop is at `page`, as long as there is source
      left to copy. */
  predicate SourceAt(start: nat, srcSize: nat, page: nat, offset: int) {
    start + srcSize > page ==> offset == Max(start, page) - start
  }

  lemma SourceMoves(start: nat, srcSize: nat, page: nat, offset: int)
    requires SourceAt(start, srcSize, page, offset) && start < page + PGSIZE
    ensures SourceAt(start, srcSize, page + PGSIZE, offset + Min(start + srcSize, page + PGSIZE) - Max(start, page))
  {}

  /** `memcpy` from the source pointer. */
  method CopyPiece(src: seq<nat>, start: nat, srcSize: nat, page: nat, offset: int) returns (bytes: seq<nat>)
    requires srcSize <= |src| && SourceAt(start, srcSize, page, offset)
    ensures Wanted(bytes, PageBytes(src, start, srcSize, page))
  {
    var destStart, destEnd := Max(start, page), Min(start + srcSize, page + PGSIZE);
    var copySize := if destEnd > destStart then destEnd - destStart else 0;
    return if copySize == 0 then [] else src[offset..][..copySize];
  }

  /** Pages of the section: from the page of `start` to the page of the last byte. */
  function SectionPages(start: nat, size: nat): nat {
    PagesIn(start % PGSIZE + size)
  }

  ghost function SectionSpan(start: nat, size: nat): set<nat> {
    Stretch(start / PGSIZE, SectionPages(start, size))
  }

  lemma DestinationPage(start: nat, k: nat)
    ensures start < RoundDown(start) + k * PGSIZE + PGSIZE
    ensures Max(start, RoundDown(start) + k * PGSIZE) / PGSIZE == start / PGSIZE + k
    ensures RoundDown(start) == start / PGSIZE * PGSIZE
  {}

  /** The first pages of the section are there, at places that were not mapped before. */
  ghost predicate Loaded(a: View, b: View, v: nat, frames: seq<nat>, want: seq<seq<nat>>, flags: Permissions) {
    && |frames| <= |want| && Mapped(a, b, v, frames, want[..|frames|], flags)
    && (forall w :: w in Stretch(v, |frames|) ==> w < VPNS && w !in a.pt.trans)
  }

  lemma LoadedNext(a: View, b: View, c: View, v: nat, frames: seq<nat>, frame: nat, want: seq<seq<nat>>,
                   flags: Permissions, w: nat)
    requires Loaded(a, b, v, frames, want, flags) && |frames| < |want| && w == v + |frames|
    requires w < VPNS && w !in b.pt.trans
    requires Mapped(a, c, v, frames + [frame], want[..|frames|] + [want[|frames|]], flags)
    ensures Loaded(a, c, v, frames + [frame], want, flags)
  {
    AddRangeAt(a.pt.trans, v, frames, flags);
    assert want[..|frames| + 1] == want[..|frames|] + [want[|frames|]];
  }

  /** A page that is in the way was there before. */
  lemma InTheWay(a: View, b: View, v: nat, frames: seq<nat>, want: seq<seq<nat>>, flags: Permissions, w: nat)
    requires Loaded(a, b, v, frames, want, flags) && w == v + |frames|
    ensures w in b.pt.trans ==> w in a.pt.trans
  {
    AddRangeAt(a.pt.trans, v, frames, flags);
  }

  /** The bytes, with zeros behind them, make the page. */
  ghost predicate Wanted(bytes: seq<nat>, page: seq<nat>) {
    |bytes| <= PGSIZE && page == bytes + ZeroPage()[|bytes|..]
  }

  /** One iteration of `map_section_for_user`. */
  method LoadPage(mem: Memory, root: nat, va: nat, bytes: seq<nat>, permission: nat, ghost pt: PageTable,
                  ghost a: View, ghost v: nat, ghost frames: seq<nat>, ghost want: seq<seq<nat>>, ghost w: nat)
      returns (status: Status, ghost pt': PageTable, ghost frames': seq<nat>)
    requires Holds(mem, pt) && root == pt.root && permission < 1024
    requires Loaded(a, ViewOf(mem, pt), v, frames, want, Uniform(WithValid(permission))) && |frames| < |want|
    requires va / PGSIZE == w && w == v + |frames| && Wanted(bytes, want[|frames|])
    requires SpentOn(a, ViewOf(mem, pt), v, |frames|)
    modifies mem, mem.pool, mem.pool.link
    ensures mem.Valid() && !status.NotMapped? && mem.Elsewhere() == old(mem.Elsewhere())
    ensures !status.Panic? ==> Holds(mem, pt') && pt'.root == root
    ensures status.Ok? ==>
      |frames'| == |frames| + 1 && Loaded(a, ViewOf(mem, pt'), v, frames', want, Uniform(WithValid(permission)))
    ensures status.NoMemory? ==> Loaded(a, ViewOf(mem, pt'), v, frames, want, Uniform(WithValid(permission)))
    ensures status.Panic? ==> w >= VPNS || w in a.pt.trans
    ensures status.Ok? ==> SpentOn(a, ViewOf(mem, pt'), v, |frames'|)
    ensures status.NoMemory? ==> !CanMapRange(MeansOf(a), v, |frames| + 1)
  {
    hide CanMap, WithPage, StockOf, SpentOn, CanMapRange, Mapped, Represents;
    ghost var frame;
    ghost var b := ViewOf(mem, pt);
    InTheWay(a, b, v, frames, want, Uniform(WithValid(permission)), w);
    status, pt', frame := MapNext(mem, root, va, bytes, permission, pt, a, v, frames, want[..|frames|], w);
    frames' := frames + [frame];
    if status.Ok? {
      LoadedNext(a, b, ViewOf(mem, pt'), v, frames, frame, want, Uniform(WithValid(permission)), w);
    }
    SpentNext(a, b, ViewOf(mem, pt'), v, |frames|, w);
  }

  lemma SpentNext(a: View, b: View, c: View, v: nat, n: nat, w: nat)
    requires SpentOn(a, b, v, n) && w == v + n
    ensures CanMap(MeansOf(b), w * PGSIZE) && MeansOf(c) == WithPage(MeansOf(b), w * PGSIZE) ==> SpentOn(a, c, v, n + 1)
    ensures !CanMap(MeansOf(b), w * PGSIZE) ==> !CanMapRange(MeansOf(a), v, n + 1)
  {
    hide CanMap, WithPage, StockOf;
    assert w == v + (n + 1) - 1;
  }

  /** The pages from `v` on were paid for one by one. */
  ghost predicate SpentOn(a: View, b: View, v: nat, n: nat) {
    CanMapRange(MeansOf(a), v, n) && MeansOf(b) == RangeMeans(MeansOf(a), v, n)
  }

  /** Some page of the range is mapped already or out of bounds. */
  ghost predicate Blocked(trans: Translation, v: nat, n: nat) {
    exists w :: w in Stretch(v, n) && (w >= VPNS || w in trans)
  }

  /** As before the call: the same data pages and the same translation, though perhaps more tables. */
  ghost predicate Undone(a: View, b: View) {
    b.pages == a.pages && Widened(a.tables, a.free, a.pt, b.tables, b.free, b.pt)
  }

  /** The loop of `map_section_for_user` is at its page `k`. */
  predicate LoopAt(start: nat, srcSize: nat, size: nat, page: nat, offset: int, k: nat) {
    page == RoundDown(start) + k * PGSIZE && SourceAt(start, srcSize, page, offset) && k <= SectionPages(start, size)
  }

  lemma LoopStart(start: nat, srcSize: nat, size: nat)
    ensures LoopAt(start, srcSize, size, RoundDown(start), 0, 0)
  {}

  lemma LoopEnd(start: nat, srcSize: nat, size: nat, page: nat, offset: int, k: nat)
    requires LoopAt(start, srcSize, size, page, offset, k)
    ensures page < start + size <==> k < SectionPages(start, size)
  {}

  /** One iteration with `memcpy` and the update of the source pointer. */
  method SectionStep(mem: Memory, root: nat, start: nat, src: seq<nat>, srcSize: nat, size: nat, permission: nat,
                     page: nat, offset: int, ghost pt: PageTable, ghost a: View, ghost frames: seq<nat>,
                     ghost want: seq<seq<nat>>)
      returns (status: Status, offset': int, ghost pt': PageTable, ghost frames': seq<nat>)
    requires Holds(mem, pt) && root == pt.root && permission < 1024 && srcSize <= |src|
    requires want == SectionBytes(src, start, srcSize, SectionPages(start, size)) && |frames| < |want|
    requires Loaded(a, ViewOf(mem, pt), start / PGSIZE, frames, want, Uniform(WithValid(permission)))
    requires LoopAt(start, srcSize, size, page, offset, |frames|)
    requires SpentOn(a, ViewOf(mem, pt), start / PGSIZE, |frames|)
    modifies mem, mem.pool, mem.pool.link
    ensures mem.Valid() && !status.NotMapped? && mem.Elsewhere() == old(mem.Elsewhere())
    ensures !status.Panic? ==> Holds(mem, pt') && pt'.root == root
    ensures status.Ok? ==>
      && |frames'| == |frames| + 1
      && Loaded(a, ViewOf(mem, pt'), start / PGSIZE, frames', want, Uniform(WithValid(permission)))
    ensures status.Ok? ==> LoopAt(start, srcSize, size, page + PGSIZE, offset', |frames'|)
    ensures status.NoMemory? ==>
      Loaded(a, ViewOf(mem, pt'), start / PGSIZE, frames, want, Uniform(WithValid(permission)))
    ensures status.Panic? ==> Blocked(a.pt.trans, start / PGSIZE, |want|)
    ensures status.Ok? ==> SpentOn(a, ViewOf(mem, pt'), start / PGSIZE, |frames'|)
    ensures status.NoMemory? ==> !CanMapRange(MeansOf(a), start / PGSIZE, |want|)
  {
    hide StockOf, SpentOn, CanMapRange, RangeMeans, Loaded, Represents, SectionBytes;
    if CanMapRange(MeansOf(a), start / PGSIZE, |want|) {
      CanMapLess(MeansOf(a), start / PGSIZE, |frames| + 1, |want|);
    }
    DestinationPage(start, |frames|);
    var destStart := Max(start, page);
    var bytes := CopyPiece(src, start, srcSize, page, offset);
    SectionBytesAt(src, start, srcSize, |want|, |frames|, page);
    SourceMoves(start, srcSize, page, offset);
    offset' := offset + Min(start + srcSize, page + PGSIZE) - destStart;
    ghost var w := start / PGSIZE + |frames|;
    assert w in Stretch(start / PGSIZE, |want|);
    status, pt', frames' := LoadPage(mem, root, destStart, bytes, permission, pt, a, start / PGSIZE, frames, want, w);
  }

  /** `free_memory(pagetable, page_start, page_addr - page_start)` undoes what was loaded. */
  method Undo(mem: Memory, root: nat, start: nat, page: nat, ghost pt: PageTable,
              ghost a: View, ghost frames: seq<nat>, ghost want: seq<seq<nat>>, ghost flags: Permissions)
      returns (status: Status, ghost pt': PageTable)
    requires Holds(mem, pt) && root == pt.root
    requires Loaded(a, ViewOf(mem, pt), start / PGSIZE, frames, want, flags)
    requires page == RoundDown(start) + |frames| * PGSIZE
    modifies mem, mem.pool, mem.pool.link
    ensures status.NoMemory? || status.Panic?
    ensures status.Panic? <==> !NotBare(flags, start / PGSIZE, |frames|)
    ensures status.NoMemory? ==> Holds(mem, pt') && pt'.root == root && Undone(a, ViewOf(mem, pt'))
    ensures status.NoMemory? ==> mem.Elsewhere() == old(mem.Elsewhere())
  {
    DestinationPage(start, 0);
    var freed;
    freed, pt' := RollBack(mem, root, RoundDown(start), page - RoundDown(start), pt, a, start / PGSIZE, frames,
                           want[..|frames|], flags);
    status := if freed.Panic? then Panic else NoMemory;
  }

  /** One iteration with the way back. */
  method SectionAdvance(mem: Memory, root: nat, start: nat, src: seq<nat>, srcSize: nat, size: nat, permission: nat,
                        page: nat, offset: int, ghost pt: PageTable, ghost a: View, ghost frames: seq<nat>,
                        ghost want: seq<seq<nat>>)
      returns (status: Status, page': nat, offset': int, ghost pt': PageTable, ghost frames': seq<nat>)
    requires Holds(mem, pt) && root == pt.root && permission < 1024 && srcSize <= |src|
    requires want == SectionBytes(src, start, srcSize, SectionPages(start, size)) && page < start + size
    requires Loaded(a, ViewOf(mem, pt), start / PGSIZE, frames, want, Uniform(WithValid(permission)))
    requires LoopAt(start, srcSize, size, page, offset, |frames|)
    requires SpentOn(a, ViewOf(mem, pt), start / PGSIZE, |frames|)
    modifies mem, mem.pool, mem.pool.link
    ensures !status.NotMapped?
    ensures !status.Panic? ==> Holds(mem, pt') && pt'.root == root && mem.Elsewhere() == old(mem.Elsewhere())
    ensures status.Ok? ==> |frames| < |frames'| <= |want|
    ensures status.Ok? ==> Loaded(a, ViewOf(mem, pt'), start / PGSIZE, frames', want, Uniform(WithValid(permission)))
    ensures status.Ok? ==> LoopAt(start, srcSize, size, page', offset', |frames'|)
    ensures status.NoMemory? ==> Undone(a, ViewOf(mem, pt'))
    ensures status.Ok? ==> SpentOn(a, ViewOf(mem, pt'), start / PGSIZE, |frames'|)
    ensures !status.Ok? ==>
      !CanMapRange(MeansOf(a), start / PGSIZE, |want|) || Blocked(a.pt.trans, start / PGSIZE, |want|)
    ensures status.NoMemory? ==> !CanMapRange(MeansOf(a), start / PGSIZE, |want|)
    ensures status.Panic? ==> Blocked(a.pt.trans, start / PGSIZE, |want|) || WithValid(permission) == PTE_V
  {
    hide StockOf, SpentOn, CanMapRange, Loaded, Represents, Blocked, Undone;
    LoopEnd(start, srcSize, size, page, offset, |frames|);
    page' := page + PGSIZE;
    status, offset', pt', frames' :=
      SectionStep(mem, root, start, src, srcSize, size, permission, page, offset, pt, a, frames, want);
    if status.NoMemory? {
      status, pt' := Undo(mem, root, start, page, pt', a, frames, want, Uniform(WithValid(permission)));
    }
  }

  /** On failure the translation is what it was, and every page taken for data is free again. It panics
      when a page is taken already, or when the way back meets a page without permission bits. */
  method MapSection(mem: Memory, root: nat, start: nat, src: seq<nat>, srcSize: nat, size: nat, permission: nat,
                    ghost pt: PageTable)
      returns (status: Status, ghost pt': PageTable, ghost frames: seq<nat>)
    requires Holds(mem, pt) && root == pt.root && permission < 1024 && srcSize <= |src|
    modifies mem, mem.pool, mem.pool.link
    ensures !status.NotMapped?
    ensures !status.Panic? ==> Holds(mem, pt') && pt'.root == root && mem.Elsewhere() == old(mem.Elsewhere())
    ensures status.Ok? ==> |frames| == SectionPages(start, size)
    ensures status.Ok? ==>
      Paid(old(ViewOf(mem, pt)), ViewOf(mem, pt'), |frames|, 0, Stretch(start / PGSIZE, |frames|))
    ensures !status.Ok? ==>
      || Blocked(pt.trans, start / PGSIZE, SectionPages(start, size))
      || !CanPay(old(ViewOf(mem, pt)), SectionPages(start, size), 0, SectionSpan(start, size))
    ensures status.NoMemory? ==>
      !CanPay(old(ViewOf(mem, pt)), SectionPages(start, size), 0, SectionSpan(start, size))
    ensures status.Ok? ==> Loaded(old(ViewOf(mem, pt)), ViewOf(mem, pt'), start / PGSIZE, frames,
                                  SectionBytes(src, start, srcSize, SectionPages(start, size)),
                                  Uniform(WithValid(permission)))
    ensures status.NoMemory? ==> Undone(old(ViewOf(mem, pt)), ViewOf(mem, pt'))
    ensures status.Panic? ==>
      Blocked(pt.trans, start / PGSIZE, SectionPages(start, size)) || WithValid(permission) == PTE_V
  {
    hide StockOf, Affords, After, CanMapRange, RangeMeans, Loaded, Represents, Blocked, Undone;
    ghost var want := SectionBytes(src, start, srcSize, SectionPages(start, size));
    RootedTables(mem.tables, pt);
    RangeIff(MeansOf(ViewOf(mem, pt)), start / PGSIZE, SectionPages(start, size));
    status, pt', frames := MapPages(mem, root, start, src, srcSize, size, permission, pt, want);
  }

  /** The loop. */
  method MapPages(mem: Memory, root: nat, start: nat, src: seq<nat>, srcSize: nat, size: nat, permission: nat,
                  ghost pt: PageTable, ghost want: seq<seq<nat>>)
      returns (status: Status, ghost pt': PageTable, ghost frames: seq<nat>)
    requires Holds(mem, pt) && root == pt.root && permission < 1024 && srcSize <= |src|
    requires want == SectionBytes(src, start, srcSize, SectionPages(start, size))
    modifies mem, mem.pool, mem.pool.link
    ensures !status.NotMapped?
    ensures !status.Panic? ==> Holds(mem, pt') && pt'.root == root && mem.Elsewhere() == old(mem.Elsewhere())
    ensures status.Ok? ==> |frames| == |want|
    ensures status.Ok? ==>
      Loaded(old(ViewOf(mem, pt)), ViewOf(mem, pt'), start / PGSIZE, frames, want, Uniform(WithValid(permission)))
    ensures status.NoMemory? ==> Undone(old(ViewOf(mem, pt)), ViewOf(mem, pt'))
    ensures status.Ok? ==> SpentOn(old(ViewOf(mem, pt)), ViewOf(mem, pt'), start / PGSIZE, |frames|)
    ensures !status.Ok? ==>
      !CanMapRange(MeansOf(old(ViewOf(mem, pt))), start / PGSIZE, |want|) || Blocked(pt.trans, start / PGSIZE, |want|)
    ensures status.NoMemory? ==> !CanMapRange(MeansOf(old(ViewOf(mem, pt))), start / PGSIZE, |want|)
    ensures status.Panic? ==> Blocked(pt.trans, start / PGSIZE, |want|) || WithValid(permission) == PTE_V
  {
    hide StockOf, CanMap, WithPage, Represents, Blocked, Undone;
    ghost var a, flags := ViewOf(mem, pt), Uniform(WithValid(permission));
    var page: nat, offset: int := RoundDown(start), 0;
    status, frames, pt' := Ok, [], pt;
    MappedNothing(a, start / PGSIZE, flags);
    LoopStart(start, srcSize, size);
    while page < start + size
      invariant Holds(mem, pt') && pt'.root == root && mem.Elsewhere() == old(mem.Elsewhere()) && status.Ok?
      invariant LoopAt(start, srcSize, size, page, offset, |frames|)
      invariant Loaded(a, ViewOf(mem, pt'), start / PGSIZE, frames, want, flags)
      invariant SpentOn(a, ViewOf(mem, pt'), start / PGSIZE, |frames|)
      decreases |want| - |frames|
    {
      status, page, offset, pt', frames :=
        SectionAdvance(mem, root, start, src, srcSize, size, permission, page, offset, pt', a, frames, want);
      if !status.Ok? {
        return;
      }
    }
    LoopEnd(start, srcSize, size, page, offset, |frames|);
  }

  /** The pages of the section hold their bytes. */
  lemma SectionPage(a: View, b: View, frames: seq<nat>, src: seq<nat>, start: nat, srcSize: nat, flags: Permissions,
                    w: nat)
    requires
      && srcSize <= |src|
      && Loaded(a, b, start / PGSIZE, frames, SectionBytes(src, start, srcSize, |frames|), flags)
    requires w in Stretch(start / PGSIZE, |frames|)
    ensures PageIs(b, w, PageBytes(src, start, srcSize, w * PGSIZE), FlagsAt(flags, w))
  {
    var v, want := start / PGSIZE, SectionBytes(src, start, srcSize, |frames|);
    assert want[..|frames|] == want;
    var i: nat := w - v;
    MappedPage(a, b, v, frames, want, flags, w);
    SectionBytesAt(src, start, srcSize, |frames|, i, w * PGSIZE);
  }

  /** The other pages hold what they held. */
  lemma OtherPage(a: View, b: View, v: nat, frames: seq<nat>, want: seq<seq<nat>>, flags: Permissions, w: nat)
    requires Loaded(a, b, v, frames, want, flags) && w !in Stretch(v, |frames|) && PageBehind(a, w).Some?
    ensures PageBehind(b, w) == PageBehind(a, w)
  {
    MappedPage(a, b, v, frames, want[..|frames|], flags, w);
  }
}

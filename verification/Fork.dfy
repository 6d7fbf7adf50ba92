/** fork's copy of an address space: copy_memory_with_pagetable and
    copy_all_memory_with_pagetable of kernel/virtual_memory.c, also when memory runs short. */
module Fork {
  import opened Wrappers
  import opened Sv39
  import opened PageTables
  import opened Ranges
  import opened Supply
  import opened Memory
  import opened AddressSpace
  import opened Ledger
  import opened Isolation
  import opened TaskMemory
  import opened Teardown
  import opened Shortage

  // ----- Twins -----

  /** The same bytes with the same flags on all these pages. */
  ghost predicate Twin(o: View, c: View, s: set<nat>) {
    forall w :: w in s ==> TwinPage(o, c, w)
  }

  ghost predicate TwinPage(o: View, c: View, w: nat) {
    && w in o.pt.trans && w in c.pt.trans && c.pt.trans[w].flags == o.pt.trans[w].flags
    && PageBehind(o, w).Some? && PageBehind(c, w) == PageBehind(o, w)
  }

  /** The data pages that neither the child nor the parent has. */
  ghost function Nobodys(m: View, source: PageTable): set<nat> {
    Strays(m) - FrameSet(source.trans, source.trans.Keys - {TRAMPOLINE_PAGE})
  }

  /** There is one more of them for each of these virtual pages, and none fewer. */
  ghost predicate Astray(a: View, b: View, source: PageTable, s: set<nat>) {
    Nobodys(a, source) <= Nobodys(b, source) && |Nobodys(b, source) - Nobodys(a, source)| == |s|
  }

  lemma AstrayMore(a: View, b: View, c: View, source: PageTable, s: set<nat>, t: set<nat>, frames: set<nat>)
    requires Astray(a, b, source, s) && Nobodys(c, source) == Nobodys(b, source) + frames
    requires frames !! Nobodys(b, source) && s !! t && |frames| == |t|
    ensures Astray(a, c, source, s + t)
  {
    hide Nobodys;
    assert Nobodys(c, source) - Nobodys(a, source) == (Nobodys(b, source) - Nobodys(a, source)) + frames;
  }

  lemma StillAstray(a: View, b: View, c: View, source: PageTable, s: set<nat>)
    requires Astray(a, b, source, s) && Strays(c) == Strays(b)
    ensures Astray(a, c, source, s)
  {}

  lemma NoneAstray(a: View, source: PageTable)
    ensures Astray(a, a, source, {})
  {
    hide Nobodys;
    assert Nobodys(a, source) - Nobodys(a, source) == {};
  }

  /** A page that was skipped is lost. */
  lemma SkippedIsNobodys(b: View, c: View, source: PageTable, w: nat, frame: nat, page: seq<nat>)
    requires PageSkipped(b, c, w, frame, page) && Stranger(b, source) && OwnPages(b, Private(b))
    ensures Nobodys(c, source) == Nobodys(b, source) + {frame} && frame !in Nobodys(b, source)
  {
    var theirs := FrameSet(source.trans, source.trans.Keys - {TRAMPOLINE_PAGE});
    OwnFrames(b);
    assert frame !in theirs by {
      assert forall x :: x in source.trans && x != TRAMPOLINE_PAGE ==>
        PageNo(source.trans[x].pa) in Claims(b.(pt := source));
    }
    assert c.pages.Keys == b.pages.Keys + {frame};
  }

  /** From `a`, when the child was new, to `b`, the pages `done` of the source were dealt with. All of them have a
      twin on a page of its own, but the `holes`: there was no room for their leaf tables. */
  ghost predicate Copying(a: View, b: View, source: PageTable, done: set<nat>, holes: set<nat>) {
    Underway(a, b, source, done, holes) && Astray(a, b, source, holes)
  }

  ghost predicate Underway(a: View, b: View, source: PageTable, done: set<nat>, holes: set<nat>) {
    && Taken(a) && Extended(a, b) && Stranger(a, source) && Stranger(b, source)
    && OwnPages(b, Private(b)) && Twin(a.(pt := source), b, done - holes)
    && Dealt(a, b, done, holes) && Holes(b, done, holes)
  }

  ghost predicate Dealt(a: View, b: View, done: set<nat>, holes: set<nat>) {
    done !! a.pt.trans.Keys && b.pt.trans.Keys == a.pt.trans.Keys + (done - holes)
  }

  ghost predicate Holes(b: View, done: set<nat>, holes: set<nat>) {
    && holes <= done && (forall w :: w in holes ==> Hole(b.pt, w))
    && (holes != {} ==> Barren(b.free))
  }

  /** The source's pages are there to be copied. */
  ghost predicate Readable(m: View, s: set<nat>) {
    s <= Private(m) && OwnPages(m, s)
  }

  lemma NothingCopied(a: View, source: PageTable)
    requires Taken(a) && Stranger(a, source) && OwnPages(a, Private(a))
    ensures Copying(a, a, source, {}, {})
  {
    hide Astray, Nobodys, Strays;
    NoneAstray(a, source);
  }

  lemma StillReadable(a: View, b: View, source: PageTable, s: set<nat>)
    requires Local(a, b) && Stranger(a, source) && Readable(a.(pt := source), s)
    ensures Readable(b.(pt := source), s)
    ensures forall w :: w in s ==> PageBehind(b.(pt := source), w) == PageBehind(a.(pt := source), w)
  {
    forall w | w in s
      ensures UserPage(b.(pt := source), w)
      ensures PageBehind(b.(pt := source), w) == PageBehind(a.(pt := source), w)
    {
      assert UserPage(a.(pt := source), w);
      StrangerReads(a, b, source, w);
    }
  }

  // ----- One page -----

  /** The target has the page now, on a new frame and with the flags of the source's. */
  ghost predicate PageCopied(b: View, c: View, source: PageTable, w: nat, frame: nat, page: seq<nat>) {
    && Grew(b.tables, b.free, b.pt, c.tables, c.free, c.pt) && (Barren(b.free) ==> c.pt.shape == b.pt.shape)
    && w in source.trans && w !in b.pt.trans
    && c.pt.trans == b.pt.trans[w := Entry(frame, source.trans[w].flags)]
    && frame !in b.pages && PageNo(frame) in b.free && c.pages == b.pages[frame := page]
  }

  /** There was no table for the page. The new frame is lost. */
  ghost predicate PageSkipped(b: View, c: View, w: nat, frame: nat, page: seq<nat>) {
    && Grew(b.tables, b.free, b.pt, c.tables, c.free, c.pt) && (Barren(b.free) ==> c.pt.shape == b.pt.shape)
    && c.pt.trans == b.pt.trans && Hole(c.pt, w) && Barren(c.free)
    && frame !in b.pages && PageNo(frame) in b.free && c.pages == b.pages[frame := page]
  }

  /** One iteration of the copy. The result of `map_page`, which is 1 when there is no table, is compared with -1:
      the page is skipped then. */
  method CopyPage(mem: Memory, sourceRoot: nat, targetRoot: nat, va: nat, ghost source: PageTable,
                  ghost target: PageTable, ghost w: nat)
      returns (status: Status, whole: bool, ghost target': PageTable, ghost frame: nat, ghost page: seq<nat>)
    requires Holds(mem, target) && targetRoot == target.root
    requires Represents(mem.tables, source) && sourceRoot == source.root
    requires va < MAXVA && va == w * PGSIZE && UserPage(ViewOf(mem, source), w)
    modifies mem, mem.pool, mem.pool.link
    ensures mem.Valid() && !status.NotMapped?
    ensures status.NoMemory? <==> !Enough(StockOf(old(mem.pool.free)), 1, 0)
    ensures status.NoMemory? ==> Holds(mem, target) && ViewOf(mem, target) == old(ViewOf(mem, target))
    ensures status.Panic? ==> w in target.trans
    ensures status.Ok? ==> (whole <==> CanMap(MeansOf(old(ViewOf(mem, target))), va))
    ensures status.Ok? ==> MeansOf(ViewOf(mem, target')) == WithPage(MeansOf(old(ViewOf(mem, target))), va)
    ensures status.Ok? ==> Holds(mem, target') && target'.root == targetRoot
    ensures status.Ok? && whole ==>
      PageCopied(old(ViewOf(mem, target)), ViewOf(mem, target'), source, w, frame, page)
    ensures status.Ok? && !whole ==> PageSkipped(old(ViewOf(mem, target)), ViewOf(mem, target'), w, frame, page)
    ensures status.Ok? ==> PageBehind(old(ViewOf(mem, source)), w) == Some(page)
  {
    hide StockOf, Enough, Spent, Built, At;
    target', frame, page, whole := target, NULL, [], true;
    var src, flags := Locate(mem, sourceRoot, va, source, w);
    var dest, copied := Duplicate(mem, src);
    if dest == NULL {
      return NoMemory, whole, target', frame, page;
    }
    frame, page := dest, copied;
    ghost var free := mem.pool.free;
    status, target' := mem.MapPage(targetRoot, va, dest, flags, target);
    if status.Panic? {
      return;
    }
    whole := status.Ok?;
    status := Ok;
    GrewBounds(old(mem.tables), free, target, mem.tables, mem.pool.free, target', old(mem.pool.free), mem.pool.free);
    if Barren(old(mem.pool.free)) {
      BarrenLess(old(mem.pool.free), free);
    }
  }

  /** Frame and flags of a page of the source. The panic for an unmapped page is out of reach. */
  method Locate(mem: Memory, root: nat, va: nat, ghost pt: PageTable, ghost w: nat) returns (src: nat, flags: nat)
    requires Holds(mem, pt) && root == pt.root && va < MAXVA && va == w * PGSIZE && UserPage(ViewOf(mem, pt), w)
    ensures src != NULL && src in mem.pages && PageBehind(ViewOf(mem, pt), w) == Some(mem.pages[src])
    ensures flags == pt.trans[w].flags && flags < 1024 && WithValid(flags) == flags
    ensures va / PGSIZE == w
  {
    assert va / PGSIZE == w && va % PGSIZE == 0;
    src := mem.PhysicalAddress(root, va, pt);
    NotNull(mem.pages, pt, w, mem.pool.kernelEnd, mem.pool.free);
    flags := mem.FlagsOf(root, va, pt);
  }

  /** `allocate(0)` and `memcpy` of a whole page. */
  method Duplicate(mem: Memory, src: nat) returns (dest: nat, page: seq<nat>)
    requires mem.Valid() && src in mem.pages
    modifies mem`pages, mem.pool, mem.pool.link
    ensures mem.Valid() && page == old(mem.pages)[src] && mem.pool.free <= old(mem.pool.free)
    ensures dest == NULL <==> !Enough(StockOf(old(mem.pool.free)), 1, 0)
    ensures dest != NULL ==> StockOf(mem.pool.free) == Spent(StockOf(old(mem.pool.free)), 1, 0)
    ensures dest == NULL ==> mem.pages == old(mem.pages) && mem.pool.free == old(mem.pool.free)
    ensures dest != NULL ==> dest !in old(mem.pages) && RoundDown(dest) == dest && PageNo(dest) in old(mem.pool.free)
    ensures dest != NULL ==> mem.pages == old(mem.pages)[dest := page]
  {
    hide StockOf, Enough, Spent;
    page := mem.pages[src];
    assert page[..PGSIZE] + ZeroPage()[PGSIZE..] == page;
    dest := mem.CopyToNewPage(page, PGSIZE);
  }

  lemma NotNull(pages: Pages, source: PageTable, w: nat, kernelEnd: int, free: set<int>)
    requires Placed(pages.Keys, free, kernelEnd)
    ensures w in source.trans && source.trans[w].pa in pages ==> source.trans[w].pa != NULL
  {}

  // ----- One page in the run of the copy -----

  lemma CopiedExtends(b: View, c: View, source: PageTable, w: nat, frame: nat, page: seq<nat>)
    requires PageCopied(b, c, source, w, frame, page) && Taken(b) && OwnPages(b, Private(b)) && w != TRAMPOLINE_PAGE
    ensures Extended(b, c) && Strays(c) == Strays(b)
  {
    hide Strays;
    var frames, contents, flags := [] + [frame], [] + [page], Like(source.trans);
    MappedNothing(b, w, flags);
    MappedNext(b, b, c, w, [], [], flags, frame, page, w);
    assert Stretch(w, 1) == {w};
    ExtendedMapped(b, c, w, frames, contents, flags);
    StraysMapped(b, c, w, frames, contents, flags);
  }

  lemma SkippedExtends(b: View, c: View, w: nat, frame: nat, page: seq<nat>)
    requires PageSkipped(b, c, w, frame, page)
    ensures Extended(b, c)
  {}

  /** What stays as it was, whether the page was copied or skipped. */
  lemma CopyGoesOn(a: View, b: View, c: View, source: PageTable, done: set<nat>, holes: set<nat>)
    requires Underway(a, b, source, done, holes) && Extended(b, c)
    ensures Extended(a, c) && Stranger(c, source) && Twin(a.(pt := source), c, done - holes)
    ensures forall w :: w in Private(b) ==> UserPage(c, w)
  {
    hide Astray, Nobodys, Strays;
    ExtendedTwice(a, b, c);
    StrangerKept(b, c, source);
    forall w | w in done - holes
      ensures TwinPage(a.(pt := source), c, w)
    {
      assert TwinPage(a.(pt := source), b, w);
      ExtendedReads(b, c, w);
    }
    forall w | w in Private(b)
      ensures UserPage(c, w)
    {
      assert UserPage(b, w);
    }
  }

  lemma HolesStay(b: View, c: View, done: set<nat>, holes: set<nat>, w: nat)
    requires Holes(b, done, holes) && c.free <= b.free && (Barren(b.free) ==> c.pt.shape == b.pt.shape)
    requires c.pt.trans.Keys <= b.pt.trans.Keys + {w} && w !in done
    ensures Holes(c, done + {w}, holes)
    ensures Hole(c.pt, w) && Barren(c.free) ==> Holes(c, done + {w}, holes + {w})
  {
    if holes != {} {
      BarrenLess(b.free, c.free);
    }
    forall w | w in holes
      ensures Hole(c.pt, w)
    {
      assert Hole(b.pt, w);
    }
  }

  lemma Copied(a: View, b: View, c: View, source: PageTable, done: set<nat>, holes: set<nat>, w: nat, frame: nat,
               page: seq<nat>)
    requires Copying(a, b, source, done, holes) && Taken(b) && w !in done && w !in a.pt.trans
    requires w in Private(a.(pt := source)) && UserPage(a.(pt := source), w)
    requires PageCopied(b, c, source, w, frame, page) && PageBehind(b.(pt := source), w) == Some(page)
    ensures Copying(a, c, source, done + {w}, holes)
  {
    hide Astray, Nobodys, Strays;
    CopiedExtends(b, c, source, w, frame, page);
    CopiedUnderway(a, b, c, source, done, holes, w, frame, page);
    StillAstray(a, b, c, source, holes);
  }

  lemma CopiedUnderway(a: View, b: View, c: View, source: PageTable, done: set<nat>, holes: set<nat>, w: nat,
                       frame: nat,
                       page: seq<nat>)
    requires Underway(a, b, source, done, holes) && Taken(b) && w !in done && w !in a.pt.trans
    requires w in Private(a.(pt := source)) && UserPage(a.(pt := source), w)
    requires PageCopied(b, c, source, w, frame, page) && PageBehind(b.(pt := source), w) == Some(page)
    ensures Underway(a, c, source, done + {w}, holes)
  {
    hide Strays;
    CopiedExtends(b, c, source, w, frame, page);
    CopyGoesOn(a, b, c, source, done, holes);
    StrangerReads(a, b, source, w);
    NewTwin(a.(pt := source), b, c, source, w, frame, page);
    OneMoreTwin(a.(pt := source), c, done - holes, w);
    OneMoreOwn(b, c, w, frame, page);
    OneMoreDealt(a, b, c, done, holes, w);
    HolesStay(b, c, done, holes, w);
  }

  lemma NewTwin(o: View, b: View, c: View, source: PageTable, w: nat, frame: nat, page: seq<nat>)
    requires PageCopied(b, c, source, w, frame, page) && PageBehind(o, w) == Some(page) && o.pt == source
    ensures TwinPage(o, c, w) && c.pt.trans.Keys == b.pt.trans.Keys + {w}
  {}

  lemma OneMoreTwin(o: View, c: View, s: set<nat>, w: nat)
    requires Twin(o, c, s) && TwinPage(o, c, w)
    ensures Twin(o, c, s + {w})
  {}

  lemma OneMoreDealt(a: View, b: View, c: View, done: set<nat>, holes: set<nat>, w: nat)
    requires Dealt(a, b, done, holes) && holes <= done && w !in done && w !in a.pt.trans
    ensures c.pt.trans.Keys == b.pt.trans.Keys + {w} ==> Dealt(a, c, done + {w}, holes)
    ensures c.pt.trans.Keys == b.pt.trans.Keys ==> Dealt(a, c, done + {w}, holes + {w})
    ensures (done + {w}) - holes == (done - holes) + {w} && (done + {w}) - (holes + {w}) == done - holes
  {}

  lemma OneMoreOwn(b: View, c: View, w: nat, frame: nat, page: seq<nat>)
    requires OwnPages(b, Private(b)) && frame !in b.pages && c.pages == b.pages[frame := page]
    requires w !in b.pt.trans && w in c.pt.trans && c.pt.trans[w].flags != PTE_V
    requires c.pt.trans == b.pt.trans[w := Entry(frame, c.pt.trans[w].flags)]
    ensures OwnPages(c, Private(c))
  {
    forall x | x in Private(c)
      ensures UserPage(c, x) && (x != w ==> x in Private(b) && c.pt.trans[x].pa in b.pages)
    {
      assert x != w ==> UserPage(b, x);
    }
  }

  lemma Skipped(a: View, b: View, c: View, source: PageTable, done: set<nat>, holes: set<nat>, w: nat, frame: nat,
                page: seq<nat>)
    requires Copying(a, b, source, done, holes) && w !in done && w !in a.pt.trans
    requires PageSkipped(b, c, w, frame, page)
    ensures Copying(a, c, source, done + {w}, holes + {w})
  {
    hide Astray, PageSkipped, Underway;
    SkippedUnderway(a, b, c, source, done, holes, w, frame, page);
    SkippedAstray(a, b, c, source, done, holes, w, frame, page);
  }

  lemma SkippedAstray(a: View, b: View, c: View, source: PageTable, done: set<nat>, holes: set<nat>, w: nat, frame: nat,
                      page: seq<nat>)
    requires Copying(a, b, source, done, holes) && PageSkipped(b, c, w, frame, page) && w !in done
    ensures Astray(a, c, source, holes + {w})
  {
    hide Astray, Nobodys, PageSkipped, Dealt, Twin, Extended;
    SkippedIsNobodys(b, c, source, w, frame, page);
    AstrayMore(a, b, c, source, holes, {w}, {frame});
  }

  lemma SkippedUnderway(a: View, b: View, c: View, source: PageTable, done: set<nat>, holes: set<nat>, w: nat,
                        frame: nat, page: seq<nat>)
    requires Underway(a, b, source, done, holes) && w !in done && w !in a.pt.trans
    requires PageSkipped(b, c, w, frame, page)
    ensures Underway(a, c, source, done + {w}, holes + {w})
  {
    SkippedExtends(b, c, w, frame, page);
    CopyGoesOn(a, b, c, source, done, holes);
    HolesStay(b, c, done, holes, w);
    OneMoreDealt(a, b, c, done, holes, w);
    SameOwn(b, c);
  }

  lemma SameOwn(b: View, c: View)
    requires OwnPages(b, Private(b)) && c.pt.trans == b.pt.trans
    requires forall w :: w in Private(b) ==> UserPage(c, w)
    ensures OwnPages(c, Private(c))
  {}

  /** One iteration, in the run of the copy. */
  method CopyStep(mem: Memory, sourceRoot: nat, targetRoot: nat, va: nat, ghost source: PageTable,
                  ghost target: PageTable, ghost a: View, ghost done: set<nat>, ghost holes: set<nat>, ghost w: nat)
      returns (status: Status, whole: bool, ghost target': PageTable, ghost holes': set<nat>)
    requires Holds(mem, target) && targetRoot == target.root && sourceRoot == source.root
    requires Copying(a, ViewOf(mem, target), source, done, holes) && va == w * PGSIZE && va < MAXVA
    requires w !in done && w !in a.pt.trans && w in Private(a.(pt := source)) && UserPage(a.(pt := source), w)
    modifies mem, mem.pool, mem.pool.link
    ensures mem.Valid() && (status.Ok? || status.NoMemory?)
    ensures status.NoMemory? <==> !Enough(MeansOf(old(ViewOf(mem, target))).stock, 1, 0)
    ensures status.Ok? ==> (whole <==> CanMap(MeansOf(old(ViewOf(mem, target))), va))
    ensures status.Ok? ==> MeansOf(ViewOf(mem, target')) == WithPage(MeansOf(old(ViewOf(mem, target))), va)
    ensures status.NoMemory? ==> Holds(mem, target) && ViewOf(mem, target) == old(ViewOf(mem, target))
    ensures status.Ok? ==> Holds(mem, target') && target'.root == targetRoot
    ensures status.Ok? ==> Copying(a, ViewOf(mem, target'), source, done + {w}, holes')
    ensures status.Ok? ==> holes' == if whole then holes else holes + {w}
  {
    hide StockOf, Enough, CanMap, WithPage, Represents, Astray, Nobodys, Strays;
    ghost var b, frame, page := ViewOf(mem, target), NULL, [];
    StrangerReads(a, b, source, w);
    status, whole, target', frame, page := CopyPage(mem, sourceRoot, targetRoot, va, source, target, w);
    holes' := if whole then holes else holes + {w};
    if status.Ok? {
      if whole {
        Copied(a, b, ViewOf(mem, target'), source, done, holes, w, frame, page);
      } else {
        Skipped(a, b, ViewOf(mem, target'), source, done, holes, w, frame, page);
      }
    }
  }

  // ----- The way back of the copy -----

  /** From `b` to `c`, the pages `s` of the target were unmapped and the data pages of the SOURCE were given back. */
  ghost predicate Undoing(b: View, c: View, source: PageTable, s: set<nat>) {
    && OwnTablesOnly(b, c)
    && c.pt.trans == b.pt.trans - s
    && c.pages == b.pages - FrameSet(source.trans, s)
    && c.free == b.free + NumberSet(source.trans, s)
  }

  lemma SourceTables(b: View, c: View, source: PageTable)
    requires OwnTablesOnly(b, c) && Stranger(b, source)
    ensures Represents(c.tables, source)
  {
    assert SameTables(b.tables, c.tables, source) by {
      forall p | p in source.shape
        ensures
          && source.shape[p] in b.tables
          && source.shape[p] in c.tables
          && c.tables[source.shape[p]] == b.tables[source.shape[p]]
      {
        assert PageNo(source.shape[p]) in Claims(b.(pt := source));
        assert forall q :: q in b.pt.shape ==> PageNo(b.pt.shape[q]) in Claims(b);
      }
    }
    Unaffected(b.tables, c.tables, source);
  }

  /** The target can have the page unmapped. */
  ghost predicate Removable(pt: PageTable, w: nat) {
    if w in pt.trans then pt.trans[w].flags != PTE_V else Hole(pt, w)
  }

  ghost predicate CanUndo(b: View, source: PageTable, s: set<nat>) {
    && Stranger(b, source) && Readable(b.(pt := source), s)
    && forall w :: w in s ==> Removable(b.pt, w) && w < VPNS
  }

  /** One iteration. */
  method GiveBack(mem: Memory, sourceRoot: nat, targetRoot: nat, va: nat, ghost source: PageTable,
                  ghost target: PageTable, ghost b: View, ghost s: set<nat>, ghost w: nat)
      returns (ghost target': PageTable)
    requires Holds(mem, target) && targetRoot == target.root && sourceRoot == source.root
    requires Undoing(b, ViewOf(mem, target), source, s) && va == w * PGSIZE && NextUp(ViewOf(mem, target), source, w)
    modifies mem, mem.pool, mem.pool.link
    ensures Holds(mem, target') && target'.root == targetRoot
    ensures Undoing(b, ViewOf(mem, target'), source, s + {w})
  {
    ghost var c := ViewOf(mem, target);
    PageStart(w, va);
    var src := mem.PhysicalAddress(sourceRoot, va, source);
    target' := Exchange(mem, targetRoot, va, src, target, w);
    UndoingNext(b, c, ViewOf(mem, target'), source, s, w);
  }

  /** What the iteration for page `w` relies on. */
  ghost predicate NextUp(c: View, source: PageTable, w: nat) {
    && Represents(c.tables, source) && w < VPNS && Removable(c.pt, w)
    && w in source.trans && source.trans[w].pa in c.pages
  }

  lemma NextIsUp(b: View, c: View, source: PageTable, all: set<nat>, s: set<nat>, w: nat)
    requires Undoing(b, c, source, s) && CanUndo(b, source, all) && w in all && w !in s && s <= all
    ensures NextUp(c, source, w)
  {
    SourceTables(b, c, source);
    assert UserPage(b.(pt := source), w);
    assert source.trans[w].pa !in FrameSet(source.trans, s);
  }

  /** `unmap_page` of the target's page, `deallocate` of another. */
  method Exchange(mem: Memory, root: nat, va: nat, page: nat, ghost pt: PageTable, ghost w: nat)
      returns (ghost pt': PageTable)
    requires Holds(mem, pt) && root == pt.root && va / PGSIZE == w && va < MAXVA && Removable(pt, w)
    requires page in mem.pages
    modifies mem, mem.pool, mem.pool.link
    ensures Holds(mem, pt') && OwnTablesOnly(old(ViewOf(mem, pt)), ViewOf(mem, pt')) && pt'.trans == pt.trans - {w}
    ensures mem.pages == old(mem.pages) - {page} && mem.pool.free == old(mem.pool.free) + {PageNo(page)}
  {
    pt' := Remove(mem, root, va, pt, w);
    mem.ReleasePage(page);
  }

  method Remove(mem: Memory, root: nat, va: nat, ghost pt: PageTable, ghost w: nat) returns (ghost pt': PageTable)
    requires Holds(mem, pt) && root == pt.root && va / PGSIZE == w && va < MAXVA && Removable(pt, w)
    modifies mem`tables
    ensures Holds(mem, pt') && OwnTablesOnly(old(ViewOf(mem, pt)), ViewOf(mem, pt')) && pt'.trans == pt.trans - {w}
  {
    var status;
    status, pt' := mem.UnmapPage(root, va, pt);
    assert w !in pt.trans ==> pt.trans - {w} == pt.trans;
  }

  lemma UndoingNext(b: View, c: View, d: View, source: PageTable, s: set<nat>, w: nat)
    requires Undoing(b, c, source, s) && w in source.trans && OwnTablesOnly(c, d) && d.pt.trans == c.pt.trans - {w}
    requires d.pages == c.pages - {source.trans[w].pa} && d.free == c.free + {PageNo(source.trans[w].pa)}
    ensures Undoing(b, d, source, s + {w})
  {
    OneMore(source.trans, s, w);
  }

  method BackStep(mem: Memory, sourceRoot: nat, targetRoot: nat, start: nat, k: nat, ghost source: PageTable,
                  ghost target: PageTable, ghost b: View, ghost v: nat, ghost n: nat)
      returns (ghost target': PageTable)
    requires Holds(mem, target) && targetRoot == target.root && sourceRoot == source.root && k < n
    requires Undoing(b, ViewOf(mem, target), source, Stretch(v, k)) && CanUndo(b, source, Stretch(v, n))
    requires start == v * PGSIZE
    modifies mem, mem.pool, mem.pool.link
    ensures Holds(mem, target') && target'.root == targetRoot
    ensures Undoing(b, ViewOf(mem, target'), source, Stretch(v, k + 1))
  {
    ghost var w: nat := v + k;
    var va: nat := start + k * PGSIZE;
    assert va == w * PGSIZE;
    NextBack(v, k, n, w);
    NextIsUp(b, ViewOf(mem, target), source, Stretch(v, n), Stretch(v, k), w);
    target' := GiveBack(mem, sourceRoot, targetRoot, va, source, target, b, Stretch(v, k), w);
  }

  /** All pages copied so far. The copies themselves are lost. */
  method WayBack(mem: Memory, sourceRoot: nat, targetRoot: nat, start: nat, n: nat, ghost source: PageTable,
                 ghost target: PageTable, ghost v: nat)
      returns (ghost target': PageTable)
    requires Holds(mem, target) && targetRoot == target.root && sourceRoot == source.root
    requires start == v * PGSIZE && CanUndo(ViewOf(mem, target), source, Stretch(v, n))
    modifies mem, mem.pool, mem.pool.link
    ensures Holds(mem, target') && target'.root == targetRoot
    ensures Undoing(old(ViewOf(mem, target)), ViewOf(mem, target'), source, Stretch(v, n))
  {
    ghost var b := ViewOf(mem, target);
    target' := target;
    NothingUndone(b, source);
    var k: nat := 0;
    while k < n
      invariant k <= n && Holds(mem, target') && target'.root == targetRoot
      invariant Undoing(b, ViewOf(mem, target'), source, Stretch(v, k))
    {
      target' := BackStep(mem, sourceRoot, targetRoot, start, k, source, target', b, v, n);
      k := k + 1;
    }
  }

  lemma NothingUndone(b: View, source: PageTable)
    ensures Undoing(b, b, source, {})
  {}

  lemma NextBack(v: nat, k: nat, n: nat, w: nat)
    requires k < n && w == v + k
    ensures Stretch(v, k + 1) == Stretch(v, k) + {w} && w !in Stretch(v, k) && w in Stretch(v, n)
    ensures Stretch(v, k) <= Stretch(v, n)
  {}

  /** These pages of the source are free, though its page table still has them. */
  ghost predicate Lost(c: View, source: PageTable, s: set<nat>) {
    forall w :: w in s ==>
      && w in source.trans && w != TRAMPOLINE_PAGE
      && source.trans[w].pa !in c.pages && PageNo(source.trans[w].pa) in c.free
  }

  /** The child has the pages `done` without the `holes`, and the pages `lost` of the source are gone. */
  ghost predicate GivenBack(a: View, c: View, source: PageTable, done: set<nat>, holes: set<nat>, lost: set<nat>) {
    TurnedBack(a, c, source, done, holes, lost) && Astray(a, c, source, holes + lost)
  }

  ghost predicate TurnedBack(a: View, c: View, source: PageTable, done: set<nat>, holes: set<nat>, lost: set<nat>) {
    && Dealt(a, c, done, holes) && (forall w :: w in holes ==> Hole(c.pt, w)) && OwnPages(c, Private(c))
    && (forall w :: w in a.pt.trans ==> w in c.pt.trans && c.pt.trans[w] == a.pt.trans[w])
    && Lost(c, source, lost) && (lost == {} ==> Extended(a, c) && Stranger(c, source))
  }

  lemma {:induction false} FramesCount(m: View, t: set<nat>)
    requires OwnPages(m, Private(m)) && t <= Private(m)
    ensures |FrameSet(m.pt.trans, t)| == |t|
  {
    hide UserPage;
    if t != {} {
      var w :| w in t;
      FramesCount(m, t - {w});
      assert FrameSet(m.pt.trans, t) == FrameSet(m.pt.trans, t - {w}) + {m.pt.trans[w].pa};
      assert t == (t - {w}) + {w};
    }
  }

  /** The copies of pages that are unmapped again are lost. */
  lemma UndoneAreNobodys(b: View, c: View, source: PageTable, s: set<nat>, t: set<nat>)
    requires Undoing(b, c, source, s) && CanUndo(b, source, s) && OwnPages(b, Private(b))
    requires t == s * b.pt.trans.Keys
    ensures Nobodys(c, source) == Nobodys(b, source) + FrameSet(b.pt.trans, t)
    ensures FrameSet(b.pt.trans, t) !! Nobodys(b, source) && t <= Private(b)
  {
    var theirs := FrameSet(source.trans, source.trans.Keys - {TRAMPOLINE_PAGE});
    OwnFrames(b);
    assert FrameSet(source.trans, s) <= theirs;
    FramesApart(b, source, t);
    FramesWithout(b, c, s, t);
  }

  lemma FramesApart(b: View, source: PageTable, t: set<nat>)
    requires Stranger(b, source) && t <= Private(b)
    ensures FrameSet(b.pt.trans, t) !! FrameSet(source.trans, source.trans.Keys - {TRAMPOLINE_PAGE})
  {
    forall w, x | w in t && x in source.trans && x != TRAMPOLINE_PAGE
      ensures b.pt.trans[w].pa != source.trans[x].pa
    {
      NoSharedFrame(b, source, w, x);
    }
  }

  lemma FramesWithout(b: View, c: View, s: set<nat>, t: set<nat>)
    requires OwnPages(b, Private(b)) && c.pt.trans == b.pt.trans - s && t == s * b.pt.trans.Keys && t <= Private(b)
    ensures FrameSet(c.pt.trans, Private(c)) == FrameSet(b.pt.trans, Private(b)) - FrameSet(b.pt.trans, t)
    ensures FrameSet(b.pt.trans, t) <= FrameSet(b.pt.trans, Private(b))
  {
    forall p | p in FrameSet(b.pt.trans, Private(b))
      ensures p in FrameSet(c.pt.trans, Private(c)) <==> p !in FrameSet(b.pt.trans, t)
    {
      var w :| w in Private(b) && w in b.pt.trans && p == b.pt.trans[w].pa;
      assert w in t || w in Private(c);
    }
  }

  lemma ReturnedAstray(a: View, b: View, c: View, source: PageTable, done: set<nat>, holes: set<nat>, holes': set<nat>,
                       s: set<nat>)
    requires Copying(a, b, source, done + s, holes') && Undoing(b, c, source, s) && CanUndo(b, source, s)
    requires done !! s && holes <= done && holes <= holes' <= holes + s
    ensures Astray(a, c, source, holes + s)
  {
    hide Astray, Nobodys, Undoing, CanUndo, Underway, OwnPages, Dealt, FrameSet;
    Opened(a, b, source, done + s, holes');
    var t := s * b.pt.trans.Keys;
    UnmappedPages(a, b, done, holes, holes', s, t);
    UndoneAreNobodys(b, c, source, s, t);
    FramesCount(b, t);
    AstrayMore(a, b, c, source, holes', t, FrameSet(b.pt.trans, t));
  }

  lemma UnmappedPages(a: View, b: View, done: set<nat>, holes: set<nat>, holes': set<nat>, s: set<nat>, t: set<nat>)
    requires Dealt(a, b, done + s, holes') && done !! s && holes <= done && holes <= holes' <= holes + s
    requires t == s * b.pt.trans.Keys
    ensures holes' + t == holes + s && holes' !! t
  {}

  lemma Opened(a: View, b: View, source: PageTable, done: set<nat>, holes: set<nat>)
    requires Underway(a, b, source, done, holes)
    ensures OwnPages(b, Private(b)) && Dealt(a, b, done, holes) && holes <= done
  {}

  lemma OwnUndone(b: View, c: View, source: PageTable, s: set<nat>)
    requires Undoing(b, c, source, s) && CanUndo(b, source, s) && OwnPages(b, Private(b))
    ensures OwnPages(c, Private(c)) && Lost(c, source, s)
  {
    forall w | w in Private(c)
      ensures UserPage(c, w)
    {
      assert UserPage(b, w) && PageNo(b.pt.trans[w].pa) in Claims(b);
      assert forall x :: x in s && x in source.trans ==> PageNo(source.trans[x].pa) in Claims(b.(pt := source));
    }
    forall w | w in s
      ensures w in source.trans && source.trans[w].pa in FrameSet(source.trans, s)
    {
      assert UserPage(b.(pt := source), w);
    }
  }

  lemma NothingLost(a: View, b: View, c: View, source: PageTable)
    requires Undoing(b, c, source, {}) && Extended(a, b) && Taken(a) && Stranger(b, source)
    ensures Extended(a, c) && Stranger(c, source)
  {
    assert c.pt.trans == b.pt.trans && c.pages == b.pages && c.free == b.free;
    SameClaims(b, c);
    ExtendedTwice(a, b, c);
    StrangerKept(b, c, source);
  }

  lemma SameClaims(b: View, c: View)
    requires OwnTablesOnly(b, c) && c.pt.trans == b.pt.trans && c.pages == b.pages && c.free == b.free
    ensures Extended(b, c)
  {
    assert Claims(c) == Claims(b);
    assert forall p :: p in b.pt.shape ==> PageNo(b.pt.shape[p]) in Claims(b);
  }

  lemma Returned(a: View, b: View, c: View, source: PageTable, done: set<nat>, holes: set<nat>, holes': set<nat>,
                 s: set<nat>)
    requires Copying(a, b, source, done + s, holes') && Undoing(b, c, source, s) && CanUndo(b, source, s)
    requires done !! s && holes <= done && holes <= holes' <= holes + s
    ensures GivenBack(a, c, source, done, holes, s)
  {
    hide Underway, Astray, Undoing, CanUndo, TurnedBack;
    ReturnedTo(a, b, c, source, done, holes, holes', s);
    ReturnedAstray(a, b, c, source, done, holes, holes', s);
  }

  lemma ReturnedTo(a: View, b: View, c: View, source: PageTable, done: set<nat>, holes: set<nat>, holes': set<nat>,
                   s: set<nat>)
    requires Underway(a, b, source, done + s, holes') && Undoing(b, c, source, s) && CanUndo(b, source, s)
    requires done !! s && holes <= done && holes <= holes' <= holes + s
    ensures TurnedBack(a, c, source, done, holes, s)
  {
    OwnUndone(b, c, source, s);
    if s == {} {
      NothingLost(a, b, c, source);
    }
    DealtBefore(a, b, c, done, holes, holes', s);
  }

  lemma DealtBefore(a: View, b: View, c: View, done: set<nat>, holes: set<nat>, holes': set<nat>, s: set<nat>)
    requires Dealt(a, b, done + s, holes') && c.pt.trans.Keys == b.pt.trans.Keys - s
    requires done !! s && holes <= done && holes <= holes' <= holes + s
    ensures Dealt(a, c, done, holes)
  {}

  // ----- A range -----

  /** Ranges that `copy_memory_with_pagetable` panics on. */
  predicate Misfit(start: nat, size: nat) {
    start % PGSIZE != 0 || size % PGSIZE != 0 || start + size >= MAXVA
  }

  /** The pages are the source's, and the child does not have them yet. */
  ghost predicate ToCopy(a: View, source: PageTable, done: set<nat>, s: set<nat>) {
    s !! done && s !! a.pt.trans.Keys && Readable(a.(pt := source), s)
  }

  lemma Undoable(a: View, b: View, source: PageTable, done: set<nat>, holes: set<nat>, s: set<nat>)
    requires Copying(a, b, source, done, holes) && s <= done && Readable(a.(pt := source), s)
    ensures CanUndo(b, source, s)
  {
    hide Astray, Nobodys, Strays;
    StillReadable(a, b, source, s);
    forall w | w in s
      ensures Removable(b.pt, w) && w < VPNS
    {
      assert UserPage(b.(pt := source), w);
      assert w in b.pt.trans ==> UserPage(b, w);
    }
  }

  /** The loop stands before page `k`. */
  ghost predicate CopyAt(a: View, b: View, source: PageTable, done: set<nat>, holes: set<nat>, v: nat, k: nat,
                         holes': set<nat>) {
    Copying(a, b, source, done + Stretch(v, k), holes') && holes <= done && holes <= holes' <= holes + Stretch(v, k)
  }

  lemma CopyAddress(start: nat, size: nat, k: nat, w: nat)
    requires !Misfit(start, size) && k * PGSIZE < size && w == start / PGSIZE + k
    ensures start + k * PGSIZE == w * PGSIZE && start + k * PGSIZE < MAXVA && start == start / PGSIZE * PGSIZE
  {}

  lemma OneMoreCopied(a: View, b: View, source: PageTable, done: set<nat>, holes: set<nat>, v: nat, k: nat, n: nat,
                      w: nat, holes': set<nat>)
    requires CopyAt(a, b, source, done, holes, v, k, holes') && ToCopy(a, source, done, Stretch(v, n))
    requires k < n && w == v + k
    ensures w !in done + Stretch(v, k) && w !in a.pt.trans && w !in holes'
    ensures w in Private(a.(pt := source)) && UserPage(a.(pt := source), w)
    ensures done + Stretch(v, k) + {w} == done + Stretch(v, k + 1)
    ensures holes' + {w} <= holes + Stretch(v, k + 1) && holes + Stretch(v, k) <= holes + Stretch(v, k + 1)
    ensures holes' + {w} != holes
  {
    hide Astray, Nobodys, Strays;
    NextBack(v, k, n, w);
    assert w in Stretch(v, n);
  }

  /** The loop has come to page `k` with what the pages before it left of the means. */
  ghost predicate CountAt(m: Means, b: View, v: nat, k: nat, whole: bool) {
    MeansOf(b) == RangeMeans(m, v, k) && PagesLast(m, v, k) && (whole <==> CanMapRange(m, v, k))
  }

  lemma CountNext(m: Means, b: View, c: View, v: nat, k: nat, whole: bool, mapped: bool, w: nat, va: nat)
    requires CountAt(m, b, v, k, whole) && w == v + k && va == w * PGSIZE
    ensures
      && Enough(MeansOf(b).stock, 1, 0)
      && MeansOf(c) == WithPage(MeansOf(b), va)
      && (mapped <==> CanMap(MeansOf(b), va))
      ==> CountAt(m, c, v, k + 1, whole && mapped)
    ensures !Enough(MeansOf(b).stock, 1, 0) ==> !PagesLast(m, v, k + 1)
  {
    hide StockOf, Enough, CanMap, WithPage;
    assert w == v + (k + 1) - 1;
  }

  lemma HolesNext(m: Means, b: View, v: nat, k: nat, whole: bool, w: nat, va: nat)
    requires CountAt(m, b, v, k, whole) && w == v + k && va == w * PGSIZE
    ensures HolesIn(m, v, k + 1) == HolesIn(m, v, k) + if CanMap(MeansOf(b), va) then {} else {w}
  {
    hide StockOf, CanMap;
    assert w == v + (k + 1) - 1;
  }

  /** One iteration. */
  method CopyNext(mem: Memory, sourceRoot: nat, targetRoot: nat, start: nat, size: nat, k: nat, whole: bool,
                  ghost source: PageTable, ghost target: PageTable, ghost a: View, ghost done: set<nat>,
                  ghost holes0: set<nat>, ghost holes: set<nat>, ghost m: Means)
      returns (status: Status, whole': bool, ghost target': PageTable, ghost holes': set<nat>)
    requires Holds(mem, target) && targetRoot == target.root && sourceRoot == source.root
    requires !Misfit(start, size) && k * PGSIZE < size && (whole <==> holes == holes0)
    requires CountAt(m, ViewOf(mem, target), start / PGSIZE, k, whole)
    requires CopyAt(a, ViewOf(mem, target), source, done, holes0, start / PGSIZE, k, holes)
    requires ToCopy(a, source, done, Stretch(start / PGSIZE, PagesIn(size)))
    requires holes == holes0 + HolesIn(m, start / PGSIZE, k)
    modifies mem, mem.pool, mem.pool.link
    ensures status.Ok? || status.NoMemory?
    ensures status.Ok? ==> CountAt(m, ViewOf(mem, target'), start / PGSIZE, k + 1, whole')
    ensures status.NoMemory? ==> !PagesLast(m, start / PGSIZE, k + 1) && whole' == whole
    ensures Holds(mem, target') && target'.root == targetRoot
    ensures status.NoMemory? ==>
      target' == target && holes' == holes && ViewOf(mem, target) == old(ViewOf(mem, target))
    ensures status.Ok? ==>
      CopyAt(a, ViewOf(mem, target'), source, done, holes0, start / PGSIZE, k + 1, holes')
    ensures status.Ok? ==> (whole' <==> holes' == holes0)
    ensures status.Ok? ==> holes' == holes0 + HolesIn(m, start / PGSIZE, k + 1)
  {
    hide StockOf, Enough, CanMap, WithPage, Represents, CountAt, PagesLast, HolesIn, Underway, Astray;
    ghost var v, n, b := start / PGSIZE, PagesIn(size), ViewOf(mem, target);
    ghost var w: nat := v + k;
    Iterations(size, k);
    CopyAddress(start, size, k, w);
    OneMoreCopied(a, b, source, done, holes0, v, k, n, w, holes);
    var mapped;
    status, mapped, target', holes' :=
      CopyStep(mem, sourceRoot, targetRoot, start + k * PGSIZE, source, target, a, done + Stretch(v, k), holes, w);
    whole' := if status.Ok? then whole && mapped else whole;
    CountNext(m, b, ViewOf(mem, target'), v, k, whole, mapped, w, start + k * PGSIZE);
    HolesNext(m, b, v, k, whole, w, start + k * PGSIZE);
    if status.NoMemory? {
      target', holes' := target, holes;
    }
  }

  /** The way back of the whole range. */
  method GoBack(mem: Memory, sourceRoot: nat, targetRoot: nat, start: nat, k: nat, ghost source: PageTable,
                ghost target: PageTable, ghost a: View, ghost done: set<nat>, ghost holes: set<nat>, ghost v: nat,
                ghost holes': set<nat>)
      returns (ghost target': PageTable)
    requires Holds(mem, target) && targetRoot == target.root && sourceRoot == source.root && start == v * PGSIZE
    requires CopyAt(a, ViewOf(mem, target), source, done, holes, v, k, holes')
    requires ToCopy(a, source, done, Stretch(v, k))
    modifies mem, mem.pool, mem.pool.link
    ensures Holds(mem, target') && target'.root == targetRoot
    ensures GivenBack(a, ViewOf(mem, target'), source, done, holes, Stretch(v, k))
  {
    ghost var b, s := ViewOf(mem, target), Stretch(v, k);
    Undoable(a, b, source, done + s, holes', s);
    target' := WayBack(mem, sourceRoot, targetRoot, start, k, source, target, v);
    Returned(a, b, ViewOf(mem, target'), source, done, holes, holes', s);
  }

  lemma FewerToCopy(a: View, source: PageTable, done: set<nat>, v: nat, n: nat, k: nat)
    requires ToCopy(a, source, done, Stretch(v, n)) && k <= n
    ensures ToCopy(a, source, done, Stretch(v, k))
  {
    assert Stretch(v, k) <= Stretch(v, n);
  }

  /** One iteration with what follows when no page is free. */
  method CopyOrGoBack(mem: Memory, sourceRoot: nat, targetRoot: nat, start: nat, size: nat, k: nat, whole: bool,
                      ghost source: PageTable, ghost target: PageTable, ghost a: View, ghost done: set<nat>,
                      ghost holes0: set<nat>, ghost holes: set<nat>, ghost m: Means)
      returns (status: Status, whole': bool, ghost target': PageTable, ghost holes': set<nat>)
    requires Holds(mem, target) && targetRoot == target.root && sourceRoot == source.root
    requires !Misfit(start, size) && k * PGSIZE < size && (whole <==> holes == holes0)
    requires CountAt(m, ViewOf(mem, target), start / PGSIZE, k, whole)
    requires CopyAt(a, ViewOf(mem, target), source, done, holes0, start / PGSIZE, k, holes)
    requires ToCopy(a, source, done, Stretch(start / PGSIZE, PagesIn(size)))
    requires holes == holes0 + HolesIn(m, start / PGSIZE, k)
    modifies mem, mem.pool, mem.pool.link
    ensures status.Ok? || status.NoMemory?
    ensures status.Ok? ==> CountAt(m, ViewOf(mem, target'), start / PGSIZE, k + 1, whole')
    ensures status.NoMemory? ==> !PagesLast(m, start / PGSIZE, k + 1) && whole' == whole
    ensures Holds(mem, target') && target'.root == targetRoot
    ensures status.NoMemory? ==> GivenBack(a, ViewOf(mem, target'), source, done, holes0, Stretch(start / PGSIZE, k))
    ensures status.Ok? ==>
      CopyAt(a, ViewOf(mem, target'), source, done, holes0, start / PGSIZE, k + 1, holes')
    ensures status.Ok? ==> (whole' <==> holes' == holes0)
    ensures status.Ok? ==> holes' == holes0 + HolesIn(m, start / PGSIZE, k + 1)
  {
    hide CountAt, PagesLast, Represents, HolesIn;
    status, whole', target', holes' :=
      CopyNext(mem, sourceRoot, targetRoot, start, size, k, whole, source, target, a, done, holes0, holes, m);
    if status.NoMemory? {
      ghost var v, n := start / PGSIZE, PagesIn(size);
      Iterations(size, k);
      CopyAddress(start, size, k, v + k);
      FewerToCopy(a, source, done, v, n, k);
      target' := GoBack(mem, sourceRoot, targetRoot, start, k, source, target, a, done, holes0, v, holes);
    }
  }

  /** Copies the pages of a range. When no page is free, the pages of the source that were copied before are given
      back, and the result is -1. */
  method CopyMemory(mem: Memory, sourceRoot: nat, targetRoot: nat, start: nat, size: nat, ghost source: PageTable,
                    ghost target: PageTable, ghost a: View, ghost done: set<nat>, ghost holes: set<nat>)
      returns (status: Status, whole: bool, lost: nat, ghost target': PageTable, ghost holes': set<nat>)
    requires Holds(mem, target) && targetRoot == target.root && sourceRoot == source.root
    requires Copying(a, ViewOf(mem, target), source, done, holes)
    requires ToCopy(a, source, done, Stretch(start / PGSIZE, PagesIn(size)))
    modifies mem, mem.pool, mem.pool.link
    ensures !status.NotMapped? && (status.Panic? <==> Misfit(start, size))
    ensures !status.Panic? ==> Holds(mem, target') && target'.root == targetRoot
    ensures status.Ok? ==>
      CopyAt(a, ViewOf(mem, target'), source, done, holes, start / PGSIZE, PagesIn(size), holes')
    ensures status.Ok? ==> (whole <==> holes' == holes)
    ensures status.Ok? ==>
      CountAt(MeansOf(old(ViewOf(mem, target))), ViewOf(mem, target'), start / PGSIZE, PagesIn(size), whole)
    ensures status.NoMemory? ==>
      GivenBack(a, ViewOf(mem, target'), source, done, holes, Stretch(start / PGSIZE, lost))
    ensures status.NoMemory? ==>
      lost < PagesIn(size) && DryAt(MeansOf(old(ViewOf(mem, target))), start / PGSIZE, lost)
    ensures status.Ok? ==>
      holes' == holes + HolesIn(MeansOf(old(ViewOf(mem, target))), start / PGSIZE, PagesIn(size))
  {
    hide CountAt, DryAt, Represents, Copying, GivenBack, HolesIn;
    if Misfit(start, size) {
      return Panic, true, 0, target, holes;
    }
    ghost var v := start / PGSIZE;
    NoneCopied(a, ViewOf(mem, target), source, done, holes, v);
    status, whole, lost, target', holes' :=
      CopyPages(mem, sourceRoot, targetRoot, start, size, source, target, a, done, holes, v);
  }

  /** There are pages for the first `k`, and no more. */
  ghost predicate DryAt(m: Means, v: nat, k: nat) {
    PagesLast(m, v, k) && !PagesLast(m, v, k + 1)
  }

  lemma NoneCopied(a: View, b: View, source: PageTable, done: set<nat>, holes: set<nat>, v: nat)
    requires Copying(a, b, source, done, holes)
    ensures CopyAt(a, b, source, done, holes, v, 0, holes)
  {
    hide Astray, Nobodys, Strays;
    assert done + Stretch(v, 0) == done;
  }

  lemma NoneCounted(m: Means, b: View, v: nat)
    requires MeansOf(b) == m
    ensures CountAt(m, b, v, 0, true)
  {}

  /** The loop. */
  method CopyPages(mem: Memory, sourceRoot: nat, targetRoot: nat, start: nat, size: nat, ghost source: PageTable,
                   ghost target: PageTable, ghost a: View, ghost done: set<nat>, ghost holes: set<nat>, ghost v: nat)
      returns (status: Status, whole: bool, lost: nat, ghost target': PageTable, ghost holes': set<nat>)
    requires Holds(mem, target) && targetRoot == target.root && sourceRoot == source.root
    requires !Misfit(start, size) && v == start / PGSIZE
    requires CopyAt(a, ViewOf(mem, target), source, done, holes, v, 0, holes)
    requires ToCopy(a, source, done, Stretch(v, PagesIn(size)))
    modifies mem, mem.pool, mem.pool.link
    ensures Holds(mem, target') && target'.root == targetRoot && (status.Ok? || status.NoMemory?)
    ensures status.Ok? ==> CopyAt(a, ViewOf(mem, target'), source, done, holes, v, PagesIn(size), holes')
    ensures status.Ok? ==> (whole <==> holes' == holes)
    ensures status.NoMemory? ==> GivenBack(a, ViewOf(mem, target'), source, done, holes, Stretch(v, lost))
    ensures status.Ok? ==> CountAt(MeansOf(old(ViewOf(mem, target))), ViewOf(mem, target'), v, PagesIn(size), whole)
    ensures status.NoMemory? ==> lost < PagesIn(size) && DryAt(MeansOf(old(ViewOf(mem, target))), v, lost)
    ensures status.Ok? ==> holes' == holes + HolesIn(MeansOf(old(ViewOf(mem, target))), v, PagesIn(size))
  {
    hide PagesLast, RangeMeans, CanMapRange, Represents, Copying, GivenBack, StockOf;
    status, whole, target', holes' := Ok, true, target, holes;
    ghost var m := MeansOf(ViewOf(mem, target));
    NoneCounted(m, ViewOf(mem, target), v);
    var k: nat := 0;
    Iterations(size, k);
    while k * PGSIZE < size
      invariant k <= PagesIn(size) && (k * PGSIZE < size <==> k < PagesIn(size))
      invariant status.Ok? && Holds(mem, target') && target'.root == targetRoot && (whole <==> holes' == holes)
      invariant CopyAt(a, ViewOf(mem, target'), source, done, holes, v, k, holes')
      invariant CountAt(m, ViewOf(mem, target'), v, k, whole) && holes' == holes + HolesIn(m, v, k)
      decreases PagesIn(size) - k
    {
      status, whole, target', holes' :=
        CopyOrGoBack(mem, sourceRoot, targetRoot, start, size, k, whole, source, target', a, done, holes, holes', m);
      if status.NoMemory? {
        break;
      }
      k := k + 1;
      Iterations(size, k);
    }
    lost := k;
  }

  // ----- A section or the stack -----

  /** Copies a section, or the stack. */
  method CopySection(mem: Memory, sourceRoot: nat, targetRoot: nat, s: Section, ghost source: PageTable,
                     ghost target: PageTable, ghost a: View, ghost done: set<nat>, ghost holes: set<nat>)
      returns (status: Status, whole: bool, lost: nat, ghost target': PageTable, ghost holes': set<nat>)
    requires Holds(mem, target) && targetRoot == target.root && sourceRoot == source.root && PageAligned(s)
    requires Copying(a, ViewOf(mem, target), source, done, holes) && ToCopy(a, source, done, PagesOf(s))
    modifies mem, mem.pool, mem.pool.link
    ensures !status.NotMapped? && (status.Panic? <==> !Fits(s))
    ensures !status.Panic? ==> Holds(mem, target') && target'.root == targetRoot
    ensures status.Ok? ==> Copying(a, ViewOf(mem, target'), source, done + PagesOf(s), holes')
    ensures status.Ok? ==> holes <= holes' && (whole <==> holes' == holes)
    ensures status.NoMemory? ==>
      GivenBack(a, ViewOf(mem, target'), source, done, holes, Stretch(s.start / PGSIZE, lost))
    ensures status.Ok? ==> CountAt(MeansOf(old(ViewOf(mem, target))), ViewOf(mem, target'), s.start / PGSIZE,
                                   s.size / PGSIZE, whole)
    ensures status.NoMemory? ==> PagesOf(s) != {} && lost < s.size / PGSIZE
    ensures status.NoMemory? ==> DryAt(MeansOf(old(ViewOf(mem, target))), s.start / PGSIZE, lost)
    ensures status.Ok? ==>
      holes' == holes + HolesIn(MeansOf(old(ViewOf(mem, target))), s.start / PGSIZE, s.size / PGSIZE)
  {
    hide CountAt, DryAt, Represents, Copying, GivenBack, HolesIn;
    AlignedPages(s);
    status, whole, lost, target', holes' :=
      CopyMemory(mem, sourceRoot, targetRoot, s.start, s.size, source, target, a, done, holes);
    if status.NoMemory? {
      assert s.start / PGSIZE in PagesOf(s);
    }
  }

  lemma AlignedPages(s: Section)
    requires PageAligned(s)
    ensures PagesOf(s) == Stretch(s.start / PGSIZE, PagesIn(s.size)) && PagesIn(s.size) == s.size / PGSIZE
    ensures Misfit(s.start, s.size) <==> !Fits(s)
  {}

  // ----- The whole address space -----

  /** `a` is a child that `new_task` has just made, for a parent with these sections and this stack. */
  ghost predicate NewBorn(a: View, source: PageTable, sections: seq<Section>, stack: Section) {
    && Agrees(a, [], Section(0, 0)) && Taken(a) && Stranger(a, source)
    && Agrees(a.(pt := source), sections, stack)
  }

  lemma SectionToCopy(a: View, source: PageTable, sections: seq<Section>, stack: Section, i: nat)
    requires NewBorn(a, source, sections, stack) && i < |sections|
    ensures ToCopy(a, source, AllPages(sections[..i]), PagesOf(sections[i])) && PageAligned(sections[i])
  {
    ApartAt(sections, i);
    LedgerToCopy(a, source, sections, stack, AllPages(sections[..i]), PagesOf(sections[i]));
  }

  lemma LedgerToCopy(a: View, source: PageTable, sections: seq<Section>, stack: Section, done: set<nat>, s: set<nat>)
    requires NewBorn(a, source, sections, stack) && s !! done && s <= AllPages(sections) + PagesOf(stack)
    ensures ToCopy(a, source, done, s)
  {}

  lemma Prefix(sections: seq<Section>, i: nat)
    requires i < |sections|
    ensures sections[..i + 1] == sections[..i] + [sections[i]]
    ensures AllPages(sections[..i + 1]) == AllPages(sections[..i]) + PagesOf(sections[i])
    ensures AllFit(sections[..i]) && Fits(sections[i]) ==> AllFit(sections[..i + 1])
  {
    AllPagesAppend(sections[..i], sections[i]);
    assert sections[..i + 1] == sections[..i] + [sections[i]];
  }

  lemma StackToCopy(a: View, source: PageTable, sections: seq<Section>, stack: Section)
    requires NewBorn(a, source, sections, stack)
    ensures ToCopy(a, source, AllPages(sections), PagesOf(stack)) && PageAligned(stack)
  {
    LedgerToCopy(a, source, sections, stack, AllPages(sections), PagesOf(stack));
  }

  /** These pages of the parent are free, though its page table has them; without such pages it is as it was. */
  ghost predicate ParentAfter(m: View, sections: seq<Section>, stack: Section, lost: set<nat>) {
    Lost(m, m.pt, lost) && (lost == {} ==> Represents(m.tables, m.pt) && Agrees(m, sections, stack))
  }

  lemma LostDisagrees(m: View, sections: seq<Section>, stack: Section, lost: set<nat>)
    requires ParentAfter(m, sections, stack, lost)
    ensures Agrees(m, sections, stack) ==> lost == {}
  {
    if w :| w in lost {
      assert w in Private(m) && !UserPage(m, w);
    }
  }

  lemma ParentKept(a: View, b: View, source: PageTable, sections: seq<Section>, stack: Section)
    requires NewBorn(a, source, sections, stack) && Local(a, b) && Stranger(b, source)
    ensures ParentAfter(b.(pt := source), sections, stack, {})
  {
    StrangerAgrees(a, b, source, sections, stack);
  }

  /** The child's ledger covers what the copy left. */
  lemma GivenBackCovers(a: View, c: View, source: PageTable, sections: seq<Section>, holes: set<nat>, lost: set<nat>,
                        trapFrame: nat, sharedMemory: nat)
    requires GivenBack(a, c, source, AllPages(sections), holes, lost) && holes <= AllPages(sections)
    requires Agrees(a, [], Section(0, 0)) && Apart(sections) && Frames(a, trapFrame, sharedMemory)
    ensures Covers(c, sections, Section(0, 0)) && Frames(c, trapFrame, sharedMemory)
  {
    hide Astray;
    GivenBackOwns(a, c, source, sections, holes, lost);
  }

  lemma NoPages()
    ensures PagesOf(Section(0, 0)) == {} && PageAligned(Section(0, 0))
  {}

  /** After the child's memory is freed too. */
  lemma AfterEnd(a: View, c: View, d: View, source: PageTable, sections: seq<Section>, stack: Section,
                 done: set<nat>, holes: set<nat>, lost: set<nat>)
    requires NewBorn(a, source, sections, stack) && GivenBack(a, c, source, done, holes, lost)
    requires Local(c, d) && d.pages.Keys <= c.pages.Keys && c.free <= d.free
    ensures ParentAfter(d.(pt := source), sections, stack, lost)
  {
    hide Astray;
    if lost == {} {
      assert Local(a, d) by { LocalTwice(a, c, d); }
      StrangerKept(c, d, source);
      ParentKept(a, d, source, sections, stack);
    }
  }

  /** The child of a failed copy is freed. */
  method FreeChild(mem: Memory, root: nat, sections': seq<Section>, trapFrame: nat, sharedMemory: nat,
                   ghost pt: PageTable, ghost a: View, ghost source: PageTable, ghost sections: seq<Section>,
                   ghost stack: Section, ghost holes: set<nat>, ghost lost: set<nat>)
    requires Holds(mem, pt) && root == pt.root && NewBorn(a, source, sections, stack)
    requires GivenBack(a, ViewOf(mem, pt), source, AllPages(sections'), holes, lost)
    requires Apart(sections') && holes <= AllPages(sections') && Frames(a, trapFrame, sharedMemory)
    modifies mem, mem.pool, mem.pool.link
    ensures mem.Valid() && ParentAfter(ViewOf(mem, source), sections, stack, lost)
    ensures Astray(a, Unborn(ViewOf(mem, source)), source, holes + lost)
  {
    hide Astray, Upper, FrameSet, NumberSet, Strays, AllReleased, Numbers, TurnedBack, Represents, NoneStuck;
    hide Local, ParentAfter, Agrees, Stranger;
    ghost var c := ViewOf(mem, pt);
    GivenBackCovers(a, c, source, sections', holes, lost, trapFrame, sharedMemory);
    CoversUnstuck(c, sections', Section(0, 0));
    var status;
    ghost var d;
    status, d := FreeUserMemory(mem, root, sections', Section(0, 0), trapFrame, sharedMemory, pt, Section(0, 0));
    ReleasedStrays(c, d);
    AfterEnd(a, c, Unborn(ViewOf(mem, pt)), source, sections, stack, AllPages(sections'), holes, lost);
    ChildGone(a, c, Unborn(ViewOf(mem, source)), source, holes + lost);
  }

  lemma ChildGone(a: View, c: View, d: View, source: PageTable, s: set<nat>)
    requires Astray(a, c, source, s) && d == Unborn(d) && d.pages.Keys == Strays(c)
    ensures Astray(a, d, source, s)
  {
    hide Strays, Astray;
    UnbornStrays(d);
    StillAstray(a, c, d, source, s);
  }

  lemma UnbornStrays(d: View)
    requires d == Unborn(d)
    ensures Strays(d) == d.pages.Keys
  {}

  /** One section, and what happens when memory is short in it. */
  method CopyOrFree(mem: Memory, sourceRoot: nat, targetRoot: nat, s: Section, copied: seq<Section>,
                    trapFrame: nat, sharedMemory: nat, ghost source: PageTable, ghost target: PageTable,
                    ghost a: View, ghost sections: seq<Section>, ghost stack: Section, ghost holes: set<nat>)
      returns (status: Status, all: bool, lost: nat, ghost target': PageTable, ghost holes': set<nat>)
    requires Holds(mem, target) && targetRoot == target.root && sourceRoot == source.root
    requires NewBorn(a, source, sections, stack) && Frames(a, trapFrame, sharedMemory) && Apart(copied)
    requires Copying(a, ViewOf(mem, target), source, AllPages(copied), holes)
    requires PageAligned(s) && ToCopy(a, source, AllPages(copied), PagesOf(s)) && holes <= AllPages(copied)
    modifies mem, mem.pool, mem.pool.link
    ensures !status.NotMapped? && (status.Panic? <==> !Fits(s))
    ensures status.Ok? ==> Holds(mem, target') && target'.root == targetRoot
    ensures status.Ok? ==> Copying(a, ViewOf(mem, target'), source, AllPages(copied) + PagesOf(s), holes')
    ensures status.Ok? ==> holes <= holes' && (all <==> holes' == holes)
    ensures status.Ok? ==> CountAt(MeansOf(old(ViewOf(mem, target))), ViewOf(mem, target'), s.start / PGSIZE,
                                   s.size / PGSIZE, all)
    ensures status.NoMemory? ==> mem.Valid() && lost < s.size / PGSIZE
    ensures status.NoMemory? ==> DryAt(MeansOf(old(ViewOf(mem, target))), s.start / PGSIZE, lost)
    ensures status.NoMemory? ==>
      ParentAfter(ViewOf(mem, source), sections, stack, Stretch(s.start / PGSIZE, lost))
    ensures status.Ok? ==>
      holes' == holes + HolesIn(MeansOf(old(ViewOf(mem, target))), s.start / PGSIZE, s.size / PGSIZE)
    ensures status.NoMemory? ==>
      Astray(a, Unborn(ViewOf(mem, source)), source, holes + Stretch(s.start / PGSIZE, lost))
  {
    hide CountAt, DryAt, Represents, Copying, GivenBack, Agrees, Frames, HolesIn, Astray;
    status, all, lost, target', holes' :=
      CopySection(mem, sourceRoot, targetRoot, s, source, target, a, AllPages(copied), holes);
    if status.NoMemory? {
      FreeChild(mem, targetRoot, copied, trapFrame, sharedMemory, target', a, source, sections, stack, holes,
                Stretch(s.start / PGSIZE, lost));
    }
  }

  lemma OneMoreSection(a: View, b: View, source: PageTable, sections: seq<Section>, stack: Section,
                       copied: seq<Section>, whole: bool, holes: set<nat>, s: Section, m: Means)
    requires NewBorn(a, source, sections, stack) && CopiedAt(a, b, source, sections, copied, whole, holes, m)
    requires |copied| < |sections| && s == sections[|copied|]
    ensures
      && Apart(copied)
      && PageAligned(s)
      && ToCopy(a, source, AllPages(copied), PagesOf(s))
      && holes <= AllPages(copied)
    ensures copied + [s] == sections[..|copied| + 1] && AllPages(copied + [s]) == AllPages(copied) + PagesOf(s)
    ensures Fits(s) ==> AllFit(copied + [s])
    ensures !Fits(s) ==> !AllFit(sections)
  {
    hide LedgerMeans, PagesSuffice, CanCopy, StockOf;
    HolesWithin(a, b, source, AllPages(copied), holes);
    SectionToCopy(a, source, sections, stack, |copied|);
    Prefix(sections, |copied|);
    ApartPrefix(sections, |copied|);
  }

  /** What a section adds to the count, or why there is no page for it. */
  lemma SectionCounted(m: Means, b: View, c: View, sections: seq<Section>, stack: Section, copied: seq<Section>,
                       whole: bool, s: Section)
    requires MeansOf(b) == LedgerMeans(m, copied) && PagesSuffice(m, copied) && (whole <==> CanCopy(m, copied))
    requires |copied| < |sections + [stack]| && copied + [s] == (sections + [stack])[..|copied| + 1]
    ensures forall all :: CountAt(MeansOf(b), c, s.start / PGSIZE, s.size / PGSIZE, all) ==>
      && MeansOf(c) == LedgerMeans(m, copied + [s]) && PagesSuffice(m, copied + [s])
      && (whole && all <==> CanCopy(m, copied + [s]))
    ensures forall k: nat :: k < s.size / PGSIZE && DryAt(MeansOf(b), s.start / PGSIZE, k) ==>
      && !PagesSuffice(m, copied + [s]) && LostPages(m, sections + [stack]) == Stretch(s.start / PGSIZE, k)
  {
    hide StockOf, RangeMeans, PagesLast;
    LedgerNext(m, copied, s);
    forall k: nat | k < s.size / PGSIZE && DryAt(MeansOf(b), s.start / PGSIZE, k)
      ensures !PagesSuffice(m, copied + [s]) && LostPages(m, sections + [stack]) == Stretch(s.start / PGSIZE, k)
    {
      LastingIs(MeansOf(b), s.start / PGSIZE, k, s.size / PGSIZE);
      FirstShortage(m, sections + [stack], |copied| + 1);
    }
  }

  /** Which pages are skipped in a section, or that none are when pages run out. */
  lemma SectionSkipped(m: Means, b: View, sections: seq<Section>, stack: Section, copied: seq<Section>, s: Section)
    requires MeansOf(b) == LedgerMeans(m, copied) && PagesSuffice(m, copied)
    requires |copied| < |sections + [stack]| && copied + [s] == (sections + [stack])[..|copied| + 1]
    ensures var v, k := s.start / PGSIZE, s.size / PGSIZE;
      if PagesLast(MeansOf(b), v, k) then Gaps(m, copied + [s]) == Gaps(m, copied) + HolesIn(MeansOf(b), v, k)
      else Gaps(m, sections + [stack]) == Gaps(m, copied)
  {
    hide StockOf, RangeMeans, PagesLast, HolesIn;
    GapsNext(m, copied, s);
    LedgerNext(m, copied, s);
    if !PagesLast(MeansOf(b), s.start / PGSIZE, s.size / PGSIZE) {
      GapsBefore(m, sections + [stack], |copied| + 1);
    }
  }

  lemma DryIsShort(m: Means, v: nat, k: nat, n: nat)
    requires DryAt(m, v, k) && k < n
    ensures !PagesLast(m, v, n)
  {
    LastingIs(m, v, k, n);
  }

  lemma CountedLasts(m: Means, b: View, v: nat, k: nat, whole: bool)
    requires CountAt(m, b, v, k, whole)
    ensures PagesLast(m, v, k)
  {}

  /** One section in the loop. */
  method CopyNextSection(mem: Memory, sourceRoot: nat, targetRoot: nat, sections: seq<Section>, copied: seq<Section>,
                         whole: bool, trapFrame: nat, sharedMemory: nat, ghost source: PageTable,
                         ghost target: PageTable, ghost a: View, ghost stack: Section, ghost holes: set<nat>,
                         ghost m: Means)
      returns (status: Status, whole': bool, intact: bool, copied': seq<Section>, ghost target': PageTable,
               ghost holes': set<nat>)
    requires Holds(mem, target) && targetRoot == target.root && sourceRoot == source.root
    requires NewBorn(a, source, sections, stack) && Frames(a, trapFrame, sharedMemory)
    requires |copied| < |sections| && CopiedAt(a, ViewOf(mem, target), source, sections, copied, whole, holes, m)
    modifies mem, mem.pool, mem.pool.link
    ensures !status.NotMapped? && (status.Panic? ==> !AllFit(sections))
    ensures status.Ok? ==> Holds(mem, target') && target'.root == targetRoot && |copied'| == |copied| + 1
    ensures status.Ok? ==> CopiedAt(a, ViewOf(mem, target'), source, sections, copied', whole', holes', m)
    ensures status.NoMemory? ==> mem.Valid() && !PagesSuffice(m, sections)
    ensures status.NoMemory? ==> (intact <==> LostPages(m, sections + [stack]) == {})
    ensures status.NoMemory? ==>
      ParentAfter(ViewOf(mem, source), sections, stack, LostPages(m, sections + [stack]))
    ensures status.NoMemory? ==>
      Astray(a, Unborn(ViewOf(mem, source)), source,
             Gaps(m, sections + [stack]) + LostPages(m, sections + [stack]))
  {
    hide Astray, Gaps;
    hide Represents, Copying, Agrees, Frames, ParentAfter, LostPages, CountAt, DryAt, LedgerMeans, PagesSuffice,
      CanCopy;
    var s := sections[|copied|];
    ghost var b := ViewOf(mem, target);
    OneMoreSection(a, b, source, sections, stack, copied, whole, holes, s, m);
    var all, lost;
    status, all, lost, target', holes' :=
      CopyOrFree(mem, sourceRoot, targetRoot, s, copied, trapFrame, sharedMemory, source, target, a, sections, stack,
                 holes);
    assert (sections + [stack])[..|copied| + 1] == sections[..|copied| + 1];
    SectionCounted(m, b, ViewOf(mem, target'), sections, stack, copied, whole, s);
    SectionSkipped(m, b, sections, stack, copied, s);
    if status.NoMemory? {
      DryIsShort(MeansOf(b), s.start / PGSIZE, lost, s.size / PGSIZE);
      FirstShortage(m, sections, |copied| + 1);
    } else if status.Ok? {
      CountedLasts(MeansOf(b), ViewOf(mem, target'), s.start / PGSIZE, s.size / PGSIZE, all);
    }
    intact := lost == 0;
    whole', copied' := whole && all, copied + [s];
  }

  /** The loop stands behind these sections. */
  ghost predicate CopiedAt(a: View, b: View, source: PageTable, sections: seq<Section>, copied: seq<Section>,
                           whole: bool, holes: set<nat>, m: Means) {
    && |copied| <= |sections| && copied == sections[..|copied|] && AllFit(copied)
    && Copying(a, b, source, AllPages(copied), holes) && (whole <==> holes == {})
    && MeansOf(b) == LedgerMeans(m, copied) && PagesSuffice(m, copied) && (whole <==> CanCopy(m, copied))
    && holes == Gaps(m, copied)
  }

  /** The loop over the sections. */
  method CopySections(mem: Memory, sourceRoot: nat, targetRoot: nat, sections: seq<Section>, trapFrame: nat,
                      sharedMemory: nat, ghost source: PageTable, ghost target: PageTable, ghost stack: Section)
      returns (status: Status, whole: bool, intact: bool, copied: seq<Section>, ghost target': PageTable,
               ghost holes: set<nat>)
    requires Holds(mem, target) && targetRoot == target.root && sourceRoot == source.root
    requires NewBorn(ViewOf(mem, target), source, sections, stack)
    requires Frames(ViewOf(mem, target), trapFrame, sharedMemory)
    modifies mem, mem.pool, mem.pool.link
    ensures !status.NotMapped? && (status.Panic? ==> !AllFit(sections))
    ensures status.Ok? ==> Holds(mem, target') && target'.root == targetRoot && copied == sections
    ensures status.Ok? ==>
      CopiedAt(old(ViewOf(mem, target)), ViewOf(mem, target'), source, sections, copied, whole, holes,
               MeansOf(old(ViewOf(mem, target))))
    ensures status.NoMemory? ==> mem.Valid() && !PagesSuffice(MeansOf(old(ViewOf(mem, target))), sections)
    ensures var lost := LostPages(MeansOf(old(ViewOf(mem, target))), sections + [stack]); status.NoMemory? ==>
      (intact <==> lost == {}) && ParentAfter(ViewOf(mem, source), sections, stack, lost)
    ensures status.NoMemory? ==> var m := MeansOf(old(ViewOf(mem, target)));
      Astray(old(ViewOf(mem, target)), Unborn(ViewOf(mem, source)), source,
             Gaps(m, sections + [stack]) + LostPages(m, sections + [stack]))
  {
    hide Represents, Copying, Agrees, Frames, ParentAfter, LostPages, NewBorn, Astray, Gaps;
    ghost var a := ViewOf(mem, target);
    status, whole, intact, copied, target', holes := Ok, true, true, [], target, {};
    CopyStarts(a, source, sections, stack);
    while |copied| < |sections|
      invariant status.Ok? && Holds(mem, target') && target'.root == targetRoot
      invariant CopiedAt(a, ViewOf(mem, target'), source, sections, copied, whole, holes, MeansOf(a))
      decreases |sections| - |copied|
    {
      status, whole, intact, copied, target', holes :=
        CopyNextSection(mem, sourceRoot, targetRoot, sections, copied, whole, trapFrame, sharedMemory, source, target',
                        a, stack, holes, MeansOf(a));
      if !status.Ok? {
        return;
      }
    }
  }

  lemma CopyStarts(a: View, source: PageTable, sections: seq<Section>, stack: Section)
    requires NewBorn(a, source, sections, stack)
    ensures CopiedAt(a, a, source, sections, [], true, {}, MeansOf(a))
  {
    hide Copying;
    NothingCopied(a, source);
  }

  /** Without its stack, the child loses its sections too. */
  method Hollow(mem: Memory, root: nat, sections: seq<Section>, ghost pt: PageTable, ghost a: View,
                ghost source: PageTable, ghost stack: Section, ghost holes: set<nat>, ghost lost: set<nat>)
      returns (ghost pt': PageTable)
    requires Holds(mem, pt) && root == pt.root && NewBorn(a, source, sections, stack)
    requires GivenBack(a, ViewOf(mem, pt), source, AllPages(sections), holes, lost)
    requires holes <= AllPages(sections)
    modifies mem, mem.pool, mem.pool.link
    ensures Holds(mem, pt') && pt'.root == root && pt'.trans.Keys == Fixed()
    ensures ParentAfter(ViewOf(mem, source), sections, stack, lost)
    ensures Astray(a, ViewOf(mem, pt'), source, holes + lost)
  {
    hide Astray, Strays;
    ghost var c := ViewOf(mem, pt);
    GivenBackOwns(a, c, source, sections, holes, lost);
    CoversUnstuck(c, sections, Section(0, 0));
    var status;
    status, pt' := ClearSections(mem, root, sections, pt, Section(0, 0));
    SectionsFreed(a, c, ViewOf(mem, pt'), source, sections, holes, lost);
    AfterEnd(a, c, ViewOf(mem, pt'), source, sections, stack, AllPages(sections), holes, lost);
    StillAstray(a, c, ViewOf(mem, pt'), source, holes + lost);
  }

  lemma GivenBackOwns(a: View, c: View, source: PageTable, sections: seq<Section>, holes: set<nat>, lost: set<nat>)
    requires GivenBack(a, c, source, AllPages(sections), holes, lost) && holes <= AllPages(sections)
    requires Agrees(a, [], Section(0, 0)) && Apart(sections)
    ensures Covers(c, sections, Section(0, 0))
  {
    hide Astray, Lost, Extended, Stranger, OwnPages, Apart, Hole;
    assert AllPages([]) == {};
    NoPages();
    CoversBut(c, sections, holes);
  }

  lemma CoversBut(c: View, sections: seq<Section>, holes: set<nat>)
    requires OwnPages(c, Private(c)) && Apart(sections) && holes <= AllPages(sections) && Fixed() !! AllPages(sections)
    requires c.pt.trans.Keys == Fixed() + (AllPages(sections) - holes) && forall w :: w in holes ==> Hole(c.pt, w)
    ensures Covers(c, sections, Section(0, 0))
  {
    hide Hole;
    NoPages();
  }

  lemma SectionsFreed(a: View, c: View, d: View, source: PageTable, sections: seq<Section>, holes: set<nat>,
                      lost: set<nat>)
    requires GivenBack(a, c, source, AllPages(sections), holes, lost) && Agrees(a, [], Section(0, 0))
    requires FreedAll(c, d, AllPages(sections)) && Covers(c, sections, Section(0, 0))
    ensures d.pt.trans.Keys == Fixed() && Local(c, d) && Strays(d) == Strays(c)
  {
    hide Astray, Strays;
    assert a.pt.trans.Keys == Fixed();
    LocalFreed(c, d, AllPages(sections));
    StraysFreed(c, d, AllPages(sections));
  }

  /** The child has a twin of every page of the parent's sections and stack, and its ledger agrees. */
  ghost predicate Forked(a: View, b: View, source: PageTable, sections: seq<Section>, stack: Section) {
    Agrees(b, sections, stack) && Copying(a, b, source, AllPages(sections) + PagesOf(stack), {})
  }

  lemma ForkedIff(a: View, b: View, source: PageTable, sections: seq<Section>, stack: Section, holes: set<nat>)
    requires NewBorn(a, source, sections, stack)
    requires Copying(a, b, source, AllPages(sections) + PagesOf(stack), holes)
    ensures holes == {} ==> Forked(a, b, source, sections, stack)
    ensures holes == {} <==> AllPages(sections) + PagesOf(stack) <= b.pt.trans.Keys
  {
    hide Copying, NewBorn;
    UnderwayKeys(a, b, source, sections, stack, holes);
    if holes == {} {
      UnderwayAgrees(a, b, source, sections, stack);
    }
  }

  lemma UnderwayKeys(a: View, b: View, source: PageTable, sections: seq<Section>, stack: Section, holes: set<nat>)
    requires NewBorn(a, source, sections, stack)
    requires Copying(a, b, source, AllPages(sections) + PagesOf(stack), holes)
    ensures holes == {} <==> AllPages(sections) + PagesOf(stack) <= b.pt.trans.Keys
  {
    hide Astray, Twin, Stranger, Extended, Agrees;
    if w :| w in holes {
      assert w in AllPages(sections) + PagesOf(stack) && w !in b.pt.trans;
    }
  }

  lemma UnderwayAgrees(a: View, b: View, source: PageTable, sections: seq<Section>, stack: Section)
    requires NewBorn(a, source, sections, stack)
    requires Copying(a, b, source, AllPages(sections) + PagesOf(stack), {})
    ensures Agrees(b, sections, stack)
  {
    hide Astray, Twin, Extended, Stranger, Holes, Agrees, OwnPages;
    var s := AllPages(sections) + PagesOf(stack);
    NewBornKeys(a, source, sections, stack);
    assert s - {} == s;
    SameKeysAgree(a.(pt := source), b, sections, stack);
  }

  lemma NewBornKeys(a: View, source: PageTable, sections: seq<Section>, stack: Section)
    requires NewBorn(a, source, sections, stack)
    ensures a.pt.trans.Keys == Fixed() && source.trans.Keys == Fixed() + (AllPages(sections) + PagesOf(stack))
  {
    NoPages();
  }

  lemma SameKeysAgree(o: View, b: View, sections: seq<Section>, stack: Section)
    requires Agrees(o, sections, stack) && b.pt.trans.Keys == o.pt.trans.Keys && OwnPages(b, Private(b))
    ensures Agrees(b, sections, stack)
  {}

  /** The stack is copied last. When no page is free for it, the child loses its sections, and the result is 0. */
  method CopyStack(mem: Memory, sourceRoot: nat, targetRoot: nat, sections: seq<Section>, stack: Section, whole: bool,
                   ghost source: PageTable, ghost target: PageTable, ghost a: View, ghost holes: set<nat>,
                   ghost m: Means)
      returns (status: Status, whole': bool, intact: bool, ghost target': PageTable)
    requires Holds(mem, target) && targetRoot == target.root && sourceRoot == source.root
    requires NewBorn(a, source, sections, stack)
    requires CopiedAt(a, ViewOf(mem, target), source, sections, sections, whole, holes, m)
    modifies mem, mem.pool, mem.pool.link
    ensures (status.Ok? || status.Panic?) && (status.Panic? <==> !Fits(stack))
    ensures status.Ok? ==> Holds(mem, target') && target'.root == targetRoot
    ensures status.Ok? ==> (whole' <==> CanCopy(m, sections + [stack]))
    ensures status.Ok? && whole' ==> Forked(a, ViewOf(mem, target'), source, sections, stack)
    ensures status.Ok? ==> (whole' <==> AllPages(sections) + PagesOf(stack) <= target'.trans.Keys)
    ensures status.Ok? ==> (intact <==> LostPages(m, sections + [stack]) == {})
    ensures status.Ok? ==> ParentAfter(ViewOf(mem, source), sections, stack, LostPages(m, sections + [stack]))
    ensures status.Ok? && PagesSuffice(m, sections + [stack]) ==>
      Copying(a, ViewOf(mem, target'), source, AllPages(sections) + PagesOf(stack), Gaps(m, sections + [stack]))
    ensures status.Ok? && !PagesSuffice(m, sections + [stack]) ==>
      && target'.trans.Keys == Fixed()
      && Astray(a, ViewOf(mem, target'), source, Gaps(m, sections + [stack]) + LostPages(m, sections + [stack]))
  {
    hide Gaps, HolesIn, Underway;
    hide Represents, Agrees, ParentAfter, LostPages, CountAt, DryAt, LedgerMeans, PagesSuffice, CanCopy, Forked, Holes;
    hide Astray, Nobodys, Strays;
    StackToCopy(a, source, sections, stack);
    assert (sections + [stack])[..|sections| + 1] == sections + [stack];
    ghost var b := ViewOf(mem, target);
    var all, lost;
    ghost var holes';
    HolesWithin(a, b, source, AllPages(sections), holes);
    status, all, lost, target', holes' :=
      CopySection(mem, sourceRoot, targetRoot, stack, source, target, a, AllPages(sections), holes);
    intact := !status.NoMemory? || lost == 0;
    whole' := status.Ok? && whole && all;
    SectionCounted(m, b, ViewOf(mem, target'), sections, stack, sections, whole, stack);
    SectionSkipped(m, b, sections, stack, sections, stack);
    if status.Ok? {
      CountedLasts(MeansOf(b), ViewOf(mem, target'), stack.start / PGSIZE, stack.size / PGSIZE, all);
      NoneLost(m, sections + [stack]);
      ForkedIff(a, ViewOf(mem, target'), source, sections, stack, holes');
      StillTheParent(a, ViewOf(mem, target'), source, sections, stack, holes');
    } else if status.NoMemory? {
      ShortIsNotWhole(m, sections + [stack]);
      DryIsShort(MeansOf(b), stack.start / PGSIZE, lost, stack.size / PGSIZE);
      target' := Hollow(mem, targetRoot, sections, target', a, source, stack, holes,
                        Stretch(stack.start / PGSIZE, lost));
      status := Ok;
      NothingMapped(a, source, sections, stack, target');
    }
  }

  lemma HolesWithin(a: View, b: View, source: PageTable, done: set<nat>, holes: set<nat>)
    requires Copying(a, b, source, done, holes)
    ensures holes <= done
  {}

  lemma StillTheParent(a: View, b: View, source: PageTable, sections: seq<Section>, stack: Section, holes: set<nat>)
    requires NewBorn(a, source, sections, stack)
    requires Copying(a, b, source, AllPages(sections) + PagesOf(stack), holes)
    ensures ParentAfter(b.(pt := source), sections, stack, {})
  {
    ParentKept(a, b, source, sections, stack);
  }

  lemma ShortIsNotWhole(m: Means, sections: seq<Section>)
    requires !PagesSuffice(m, sections)
    ensures !CanCopy(m, sections)
  {
    if CanCopy(m, sections) {
      CanCopySuffices(m, sections);
    }
  }

  lemma NothingMapped(a: View, source: PageTable, sections: seq<Section>, stack: Section, pt: PageTable)
    requires NewBorn(a, source, sections, stack) && PagesOf(stack) != {} && pt.trans.Keys == Fixed()
    ensures !(AllPages(sections) + PagesOf(stack) <= pt.trans.Keys)
  {
    var w :| w in PagesOf(stack);
    assert w !in Fixed();
  }

  /** `copy_all_memory_with_pagetable`, for a child that `new_task` has just made. The result is -1 if and only if
      there is no page for some page of a section. The result 0 does not mean that the child is whole: that is so
      if and only if there is a page and a table for each. */
  method CopyAll(mem: Memory, sourceRoot: nat, targetRoot: nat, sections: seq<Section>, stack: Section,
                 trapFrame: nat, sharedMemory: nat, ghost source: PageTable, ghost target: PageTable)
      returns (status: Status, whole: bool, intact: bool, sections': seq<Section>, stack': Section,
               ghost target': PageTable)
    requires Holds(mem, target) && targetRoot == target.root && sourceRoot == source.root
    requires NewBorn(ViewOf(mem, target), source, sections, stack)
    requires Frames(ViewOf(mem, target), trapFrame, sharedMemory)
    modifies mem, mem.pool, mem.pool.link
    ensures !status.NotMapped? && (status.Panic? ==> !(AllFit(sections) && Fits(stack)))
    ensures !status.Panic? ==> (status.Ok? <==> PagesSuffice(MeansOf(old(ViewOf(mem, target))), sections))
    ensures status.Ok? ==> AllFit(sections) && sections' == sections && stack' == stack
    ensures status.Ok? ==> Holds(mem, target') && target'.root == targetRoot
    ensures status.Ok? ==> (whole <==> CanCopy(MeansOf(old(ViewOf(mem, target))), sections + [stack]))
    ensures status.Ok? ==> (whole <==> AllPages(sections) + PagesOf(stack) <= target'.trans.Keys)
    ensures status.Ok? && whole ==>
      Forked(old(ViewOf(mem, target)), ViewOf(mem, target'), source, sections, stack)
    ensures !status.Panic? ==> mem.Valid()
    ensures var lost := LostPages(MeansOf(old(ViewOf(mem, target))), sections + [stack]); !status.Panic? ==>
      (intact <==> lost == {}) && ParentAfter(ViewOf(mem, source), sections, stack, lost)
    ensures var all, m := sections + [stack], MeansOf(old(ViewOf(mem, target))); status.Ok? && PagesSuffice(m, all) ==>
      Copying(old(ViewOf(mem, target)), ViewOf(mem, target'), source, AllPages(sections) + PagesOf(stack), Gaps(m, all))
    ensures status.Ok? && !PagesSuffice(MeansOf(old(ViewOf(mem, target))), sections + [stack]) ==>
      target'.trans.Keys == Fixed()
    ensures var all, m := sections + [stack], MeansOf(old(ViewOf(mem, target))); !status.Panic? ==>
      Astray(old(ViewOf(mem, target)), if status.Ok? then ViewOf(mem, target') else Unborn(ViewOf(mem, source)), source,
             Gaps(m, all) + LostPages(m, all))
  {
    hide Gaps, Underway, Astray, PagesSuffice;
    hide Represents, Agrees, ParentAfter, LostPages, CanCopy, Forked, NewBorn, Frames, Copying;
    ghost var a, holes := ViewOf(mem, target), {};
    stack' := Section(0, 0);
    status, whole, intact, sections', target', holes :=
      CopySections(mem, sourceRoot, targetRoot, sections, trapFrame, sharedMemory, source, target, stack);
    if status.Ok? {
      status, whole, intact, target' :=
        CopyStack(mem, sourceRoot, targetRoot, sections, stack, whole, source, target', a, holes, MeansOf(a));
      stack' := stack;
      if status.Ok? {
        AllAstray(a, ViewOf(mem, target'), source, sections, stack, MeansOf(a));
      }
    }
  }

  lemma AllAstray(a: View, b: View, source: PageTable, sections: seq<Section>, stack: Section, m: Means)
    requires PagesSuffice(m, sections + [stack]) ==>
      Copying(a, b, source, AllPages(sections) + PagesOf(stack), Gaps(m, sections + [stack]))
    ensures PagesSuffice(m, sections + [stack]) ==>
      Astray(a, b, source, Gaps(m, sections + [stack]) + LostPages(m, sections + [stack]))
  {
    hide Underway, Astray, Gaps, PagesSuffice, LostPages;
    if PagesSuffice(m, sections + [stack]) {
      NoneLost(m, sections + [stack]);
      assert Gaps(m, sections + [stack]) + {} == Gaps(m, sections + [stack]);
    }
  }

  // ----- fork_process -----

  /** The child is the parent's twin on every private page but trap frame and shared memory, and
      maps the same pages. */
  lemma SameDomain(a: View, b: View, source: PageTable, sections: seq<Section>, stack: Section)
    requires Forked(a, b, source, sections, stack) && Agrees(a.(pt := source), sections, stack)
    ensures b.pt.trans.Keys == source.trans.Keys
    ensures forall w :: w in source.trans && w !in Fixed() ==> TwinPage(a.(pt := source), b, w)
  {}

  /** No private page of the one stands on a page of the other. */
  lemma NoSharedFrame(b: View, source: PageTable, w: nat, x: nat)
    requires Stranger(b, source) && w in Private(b) && x in Private(b.(pt := source))
    ensures b.pt.trans[w].pa != source.trans[x].pa
  {
    assert PageNo(b.pt.trans[w].pa) in Claims(b) && PageNo(source.trans[x].pa) in Claims(b.(pt := source));
  }

  /** A later store by the child changes nothing that the parent reads. */
  lemma ChildStoreUnseen(b: View, source: PageTable, w: nat, bytes: seq<nat>, x: nat)
    requires Stranger(b, source) && w in Private(b) && UserPage(b, w)
    requires x in Private(b.(pt := source)) && UserPage(b.(pt := source), x)
    ensures PageBehind(Stored(b, w, bytes).(pt := source), x) == PageBehind(b.(pt := source), x)
  {
    StoreLocal(b, w, bytes);
    StrangerReads(b, Stored(b, w, bytes), source, x);
  }

  /** And the other way round. */
  lemma ParentStoreUnseen(b: View, source: PageTable, w: nat, bytes: seq<nat>, x: nat)
    requires Stranger(b, source) && w in Private(b.(pt := source)) && UserPage(b.(pt := source), w)
    requires x in Private(b) && UserPage(b, x)
    ensures PageBehind(Stored(b.(pt := source), w, bytes).(pt := b.pt), x) == PageBehind(b, x)
  {
    NoSharedFrame(b, source, x, w);
  }

  /** The new child next to its parent. */
  lemma BirthBeside(o: View, a: View, source: PageTable, sections: seq<Section>, stack: Section)
    requires o.pt == source && Local(Unborn(o), a) && Taken(o) && Taken(a) && Agrees(o, sections, stack)
    requires Represents(o.tables, source) && Agrees(a, [], Section(0, 0))
    ensures NewBorn(a, source, sections, stack) && Stranger(Unborn(o), source)
  {
    assert Unborn(o).(pt := source) == o;
    ParentIsStranger(Unborn(o), source);
    StrangerKept(Unborn(o), a, source);
    StrangerAgrees(Unborn(o), a, source, sections, stack);
  }

  lemma ParentIsStranger(a: View, source: PageTable)
    requires a == Unborn(a) && Taken(a) && Represents(a.tables, source)
    requires OwnPages(a.(pt := source), Private(a.(pt := source)))
    ensures Stranger(a, source)
  {}

  lemma ForkDone(o: View, a: View, b: View, source: PageTable, sections: seq<Section>, stack: Section, trapFrame: nat,
                 sharedMemory: nat)
    requires o.pt == source && Local(Unborn(o), a) && Taken(o) && Stranger(Unborn(o), source)
    requires Agrees(o, sections, stack)
    requires Forked(a, b, source, sections, stack) && Frames(a, trapFrame, sharedMemory)
    ensures Frames(b, trapFrame, sharedMemory) && Local(Unborn(o), b) && Agrees(b, sections, stack)
    ensures Twin(o, b, AllPages(sections) + PagesOf(stack)) && Stranger(b, source)
  {
    assert Unborn(o).(pt := source) == o;
    LocalTwice(Unborn(o), a, b);
    forall w | w in AllPages(sections) + PagesOf(stack)
      ensures TwinPage(o, b, w)
    {
      assert w in Private(o) && UserPage(o, w);
      StrangerReads(Unborn(o), a, source, w);
      assert TwinPage(a.(pt := source), b, w);
    }
  }

  /** `new_task` and the copy. */
  method ForkMemory(mem: Memory, trampoline: nat, sourceRoot: nat, sections: seq<Section>, stack: Section,
                    ghost source: PageTable)
      returns (status: Status, birth: Birth, whole: bool, intact: bool, root: nat, trapFrame: nat, sharedMemory: nat,
               sections': seq<Section>, stack': Section, ghost child: PageTable)
    requires Holds(mem, source) && sourceRoot == source.root && Agrees(ViewOf(mem, source), sections, stack)
    requires AllFit(sections) && Fits(stack)
    modifies mem, mem.pool, mem.pool.link
    ensures status.Ok? || status.NoMemory?
    ensures birth.Born? <==> Enough(StockOf(old(mem.pool.free)), 3, 3)
    ensures birth.Refused? <==> !Enough(StockOf(old(mem.pool.free)), 3, 1)
    ensures birth.Refused? ==> mem.Valid() && Local(Unborn(old(ViewOf(mem, source))), Unborn(ViewOf(mem, source)))
    ensures birth.Refused? ==> Holds(mem, source) && Agrees(ViewOf(mem, source), sections, stack)
    ensures status.Ok? <==>
      birth.Born? && PagesSuffice(NewMeans(StockOf(old(mem.pool.free))), sections)
    ensures birth.Born? ==> mem.Valid()
    ensures var lost := LostPages(NewMeans(StockOf(old(mem.pool.free))), sections + [stack]); birth.Born? ==>
      (intact <==> lost == {}) && ParentAfter(ViewOf(mem, source), sections, stack, lost)
    ensures status.Ok? ==> Holds(mem, child) && root == child.root && sections' == sections && stack' == stack
    ensures status.Ok? && whole <==> EnoughToFork(StockOf(old(mem.pool.free)), source.trans.Keys)
    ensures status.Ok? ==> (whole <==> AllPages(sections) + PagesOf(stack) <= child.trans.Keys)
    ensures status.Ok? && whole ==> intact && Frames(ViewOf(mem, child), trapFrame, sharedMemory)
    ensures status.Ok? && whole ==>
      Agrees(ViewOf(mem, child), sections, stack) && Local(Unborn(old(ViewOf(mem, source))), ViewOf(mem, child))
    ensures status.Ok? && whole ==>
      && Twin(old(ViewOf(mem, source)), ViewOf(mem, child), AllPages(sections) + PagesOf(stack))
      && Stranger(ViewOf(mem, child), source)
    ensures var all, m := sections + [stack], NewMeans(StockOf(old(mem.pool.free))); birth.Born? ==>
      Astray(Unborn(old(ViewOf(mem, source))), if status.Ok? then ViewOf(mem, child) else Unborn(ViewOf(mem, source)),
             source, Gaps(m, all) + LostPages(m, all))
    ensures var all, m := sections + [stack], NewMeans(StockOf(old(mem.pool.free))); status.Ok? ==>
      if PagesSuffice(m, all) then
        && child.trans.Keys == Fixed() + ((AllPages(sections) + PagesOf(stack)) - Gaps(m, all))
        && Twin(old(ViewOf(mem, source)), ViewOf(mem, child), (AllPages(sections) + PagesOf(stack)) - Gaps(m, all))
      else child.trans.Keys == Fixed()
  {
    hide Gaps, Copying, Astray, Strays, Twin;
    hide StockOf, Enough, Spent, PagesSuffice, CanCopy, LostPages, ParentAfter, Represents, NewMeans, EnoughToFork;
    hide Partition, OwnPages, Frames, NewBorn, Forked;
    ghost var o, s0 := ViewOf(mem, source), StockOf(mem.pool.free);
    WholeIff(s0, source.trans.Keys, sections, stack);
    WholeSuffices(NewMeans(s0), sections, stack);
    whole, intact, sections', stack' := false, true, [], Section(0, 0);
    birth, root, trapFrame, sharedMemory, child := NewTask(mem, trampoline);
    if !birth.Born? {
      status := NoMemory;
      BirthNeeds(s0);
      RefusedParent(o, ViewOf(mem, source), source, sections, stack);
      return;
    }
    ghost var a := ViewOf(mem, child);
    BirthBeside(o, a, source, sections, stack);
    BornStrays(Unborn(o), a, trapFrame, RoundDown(trampoline), sharedMemory);
    status, whole, intact, sections', stack', child :=
      CopyAll(mem, sourceRoot, root, sections, stack, trapFrame, sharedMemory, source, child);
    if status.Ok? && whole {
      ForkDone(o, a, ViewOf(mem, child), source, sections, stack, trapFrame, sharedMemory);
    }
    AstraySince(Unborn(o), a, if status.Ok? then ViewOf(mem, child) else Unborn(ViewOf(mem, source)), source,
                Gaps(NewMeans(s0), sections + [stack]) + LostPages(NewMeans(s0), sections + [stack]));
    if status.Ok? && PagesSuffice(NewMeans(s0), sections + [stack]) {
      PartlyDone(o, a, ViewOf(mem, child), source, sections, stack, Gaps(NewMeans(s0), sections + [stack]));
    }
  }

  lemma BornStrays(o: View, a: View, trapFrame: nat, trampoline: nat, sharedMemory: nat)
    requires o == Unborn(o) && a.pt.trans == FixedPages(trapFrame, trampoline, sharedMemory)
    requires trapFrame !in o.pages && sharedMemory !in o.pages
    requires a.pages == o.pages[trapFrame := ZeroPage()][sharedMemory := ZeroPage()]
    ensures Strays(a) == Strays(o)
  {
    UnbornStrays(o);
    assert Private(a) == {TRAPFRAME_PAGE, SHARED_PAGE};
    assert FrameSet(a.pt.trans, Private(a)) == {trapFrame, sharedMemory} by {
      assert TRAPFRAME_PAGE in Private(a) && SHARED_PAGE in Private(a);
    }
    assert a.pages.Keys == o.pages.Keys + {trapFrame, sharedMemory};
  }

  lemma AstraySince(o: View, a: View, b: View, source: PageTable, s: set<nat>)
    requires Astray(a, b, source, s) && Strays(a) == Strays(o)
    ensures Astray(o, b, source, s)
  {}

  /** The pages that were copied, when some were skipped. */
  lemma PartlyDone(o: View, a: View, b: View, source: PageTable, sections: seq<Section>, stack: Section,
                   holes: set<nat>)
    requires o.pt == source && Local(Unborn(o), a) && Stranger(Unborn(o), source) && NewBorn(a, source, sections, stack)
    requires Agrees(o, sections, stack)
    requires Copying(a, b, source, AllPages(sections) + PagesOf(stack), holes)
    ensures b.pt.trans.Keys == Fixed() + ((AllPages(sections) + PagesOf(stack)) - holes)
    ensures Twin(o, b, (AllPages(sections) + PagesOf(stack)) - holes)
  {
    hide Astray, Extended, Represents;
    NewBornKeys(a, source, sections, stack);
    var s := (AllPages(sections) + PagesOf(stack)) - holes;
    assert Unborn(o).(pt := source) == o;
    forall w | w in s
      ensures TwinPage(o, b, w)
    {
      assert w in Private(o) && UserPage(o, w);
      StrangerReads(Unborn(o), a, source, w);
      assert TwinPage(a.(pt := source), b, w);
    }
  }

  /** A whole child leaves the parent whole. */
  lemma WholeSuffices(m: Means, sections: seq<Section>, stack: Section)
    ensures CanCopy(m, sections + [stack]) ==> PagesSuffice(m, sections) && LostPages(m, sections + [stack]) == {}
  {
    if CanCopy(m, sections + [stack]) {
      CanCopySuffices(m, sections + [stack]);
      NoneLost(m, sections + [stack]);
      LedgerNext(m, sections, stack);
    }
  }

  lemma BirthNeeds(s: Stock)
    ensures Enough(s, 3, 3) ==> Enough(s, 3, 1)
  {}

  /** `new_task` answered NULL: the parent is as it was. */
  lemma RefusedParent(o: View, b: View, source: PageTable, sections: seq<Section>, stack: Section)
    requires o.pt == source && b.pt == source && Taken(o) && Agrees(o, sections, stack) && Represents(o.tables, source)
    ensures Local(Unborn(o), Unborn(b)) ==> Represents(b.tables, source) && Agrees(b, sections, stack)
  {
    if Local(Unborn(o), Unborn(b)) {
      assert Unborn(o).(pt := source) == o && Unborn(b).(pt := source) == b;
      ParentIsStranger(Unborn(o), source);
      StrangerKept(Unborn(o), Unborn(b), source);
      StrangerAgrees(Unborn(o), Unborn(b), source, sections, stack);
    }
  }
}

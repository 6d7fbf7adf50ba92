/** The section ledger of a task: which virtual pages belong to its sections and its stack, and
    how the ledger agrees with the page table. */
module Ledger {
  import opened Sv39
  import opened PageTables
  import opened Ranges
  import opened Supply

  /** struct memory_section. */
  datatype Section = Section(start: nat, size: nat)

  predicate PageAligned(s: Section) {
    s.start % PGSIZE == 0 && s.size % PGSIZE == 0
  }

  ghost function PagesOf(s: Section): set<nat> {
    Stretch(s.start / PGSIZE, s.size / PGSIZE)
  }

  ghost function AllPages(sections: seq<Section>): set<nat> {
    if sections == [] then {} else PagesOf(sections[0]) + AllPages(sections[1..])
  }

  /** Page-aligned sections that do not overlap. */
  ghost predicate Apart(sections: seq<Section>) {
    sections != [] ==>
      PageAligned(sections[0]) && PagesOf(sections[0]) !! AllPages(sections[1..]) && Apart(sections[1..])
  }

  const TRAMPOLINE_PAGE: nat := 0x3FF_FFFF
  const TRAPFRAME_PAGE: nat := 0x3FF_FFFE
  const SHARED_PAGE: nat := 0x3FF_FFFD
  const MIN_STACK_PAGE: nat := 0x3FF_FBFD

  lemma Layout()
    ensures TRAMPOLINE_PAGE * PGSIZE == TRAMPOLINE && TRAPFRAME_PAGE * PGSIZE == TRAPFRAME
    ensures SHARED_PAGE * PGSIZE == SHARED_MEMORY && MIN_STACK_PAGE * PGSIZE == MIN_STACK_ADDR
    ensures
      && TRAMPOLINE / PGSIZE == TRAMPOLINE_PAGE
      && TRAPFRAME / PGSIZE == TRAPFRAME_PAGE
      && SHARED_MEMORY / PGSIZE == SHARED_PAGE
  {}

  /** The pages that `new_task` maps. */
  function Fixed(): set<nat> {
    {TRAMPOLINE_PAGE, TRAPFRAME_PAGE, SHARED_PAGE}
  }

  /** Sections, stack and fixed pages partition the mapped pages. */
  ghost predicate Partition(mapped: set<nat>, sections: seq<Section>, stack: Section) {
    && Apart(sections) && PageAligned(stack)
    && PagesOf(stack) !! AllPages(sections)
    && Fixed() !! AllPages(sections) + PagesOf(stack)
    && mapped == AllPages(sections) + PagesOf(stack) + Fixed()
  }

  /** Each of these virtual pages has a data page of its own. */
  ghost predicate OwnPages(m: View, s: set<nat>) {
    && (forall w :: w in s ==> UserPage(m, w))
    && (forall w, x :: w in s && x in s && w != x && w in m.pt.trans && x in m.pt.trans ==>
          m.pt.trans[w].pa != m.pt.trans[x].pa)
  }

  /** All mapped pages but the trampoline, which every task shares. */
  ghost function Private(m: View): set<nat> {
    m.pt.trans.Keys - {TRAMPOLINE_PAGE}
  }

  ghost predicate Agrees(m: View, sections: seq<Section>, stack: Section) {
    Partition(m.pt.trans.Keys, sections, stack) && OwnPages(m, Private(m))
  }

  /** Trap frame and shared memory of the task, and the flags of the fixed pages: user programs can
      access the shared memory alone. */
  ghost predicate Frames(m: View, trapFrame: nat, sharedMemory: nat) {
    && TRAPFRAME_PAGE in m.pt.trans && m.pt.trans[TRAPFRAME_PAGE] == Entry(trapFrame, WithValid(PTE_R + PTE_W))
    && SHARED_PAGE in m.pt.trans && m.pt.trans[SHARED_PAGE] == Entry(sharedMemory, WithValid(PTE_R + PTE_W + PTE_U))
    && TRAMPOLINE_PAGE in m.pt.trans && m.pt.trans[TRAMPOLINE_PAGE].flags == WithValid(PTE_R + PTE_X)
  }

  /** The section ends below MAXVA. */
  predicate Fits(s: Section) {
    s.start + s.size < MAXVA
  }

  predicate AllFit(sections: seq<Section>) {
    forall i :: 0 <= i < |sections| ==> Fits(sections[i])
  }

  lemma SectionFits(m: View, s: Section)
    requires PageAligned(s) && s.size > 0 && Represents(m.tables, m.pt)
    requires PagesOf(s) <= m.pt.trans.Keys && PagesOf(s) !! Fixed()
    ensures Fits(s)
  {
    var last: nat := s.start / PGSIZE + s.size / PGSIZE - 1;
    assert last in PagesOf(s) && last != TRAMPOLINE_PAGE;
    assert (last + 1) * PGSIZE == s.start + s.size;
  }

  // ----- Lists of sections -----

  lemma {:induction false} AllPagesAppend(sections: seq<Section>, s: Section)
    ensures AllPages(sections + [s]) == AllPages(sections) + PagesOf(s)
  {
    if sections != [] {
      AllPagesAppend(sections[1..], s);
      assert (sections + [s])[1..] == sections[1..] + [s];
    }
  }

  lemma {:induction false} ApartAppend(sections: seq<Section>, s: Section)
    requires Apart(sections) && PageAligned(s) && PagesOf(s) !! AllPages(sections)
    ensures Apart(sections + [s])
  {
    if sections != [] {
      ApartAppend(sections[1..], s);
      AllPagesAppend(sections[1..], s);
      assert (sections + [s])[1..] == sections[1..] + [s];
    }
  }

  lemma {:induction false} ApartAt(sections: seq<Section>, i: nat)
    requires Apart(sections) && i < |sections|
    ensures
      && PageAligned(sections[i])
      && PagesOf(sections[i]) <= AllPages(sections)
      && PagesOf(sections[i]) !! AllPages(sections[..i])
  {
    if i > 0 {
      ApartAt(sections[1..], i - 1);
      assert sections[1..][i - 1] == sections[i] && sections[1..][..i - 1] == sections[..i][1..];
    }
  }

  lemma {:induction false} ApartPrefix(sections: seq<Section>, i: nat)
    requires Apart(sections) && i <= |sections|
    ensures Apart(sections[..i])
    decreases i
  {
    if i > 0 {
      ApartPrefix(sections, i - 1);
      ApartAt(sections, i - 1);
      ApartAppend(sections[..i - 1], sections[i - 1]);
      assert sections[..i] == sections[..i - 1] + [sections[i - 1]];
    }
  }

  // ----- Pages of one's own -----

  /** Mapping fresh pages keeps them apart. */
  lemma OwnMapped(a: View, b: View, s: set<nat>, v: nat, frames: seq<nat>, contents: seq<seq<nat>>, flags: Permissions)
    requires OwnPages(a, s) && Mapped(a, b, v, frames, contents, flags) && NotBare(flags, v, |frames|)
    requires Stretch(v, |frames|) !! a.pt.trans.Keys
    ensures OwnPages(b, s + Stretch(v, |frames|))
  {
    AddRangeAt(a.pt.trans, v, frames, flags);
    forall w | w in s
      ensures UserPage(b, w) && b.pt.trans[w] == a.pt.trans[w]
    {
      assert UserPage(a, w);
    }
    forall w | w in Stretch(v, |frames|)
      ensures UserPage(b, w) && b.pt.trans[w].pa == frames[w - v]
    {
      assert b.pt.trans[v + (w - v)] == Entry(frames[w - v], FlagsAt(flags, w));
    }
    forall w, x | w in s && x in Stretch(v, |frames|)
      ensures b.pt.trans[w].pa != b.pt.trans[x].pa
    {
      assert UserPage(a, w);
    }
  }

  // ----- What the operations do to the ledger -----

  lemma PartitionAdd(mapped: set<nat>, sections: seq<Section>, stack: Section, s: Section)
    requires Partition(mapped, sections, stack) && PageAligned(s) && PagesOf(s) !! mapped
    ensures Partition(mapped + PagesOf(s), sections + [s], stack)
  {
    AllPagesAppend(sections, s);
    ApartAppend(sections, s);
  }

  lemma PartitionGrow(mapped: set<nat>, sections: seq<Section>, stack: Section, stack': Section, more: set<nat>)
    requires
      && Partition(mapped, sections, stack)
      && PageAligned(stack')
      && more !! mapped
      && PagesOf(stack') == PagesOf(stack) + more
    ensures Partition(mapped + more, sections, stack')
  {}

  /** What is mapped, and that it is one's own. */
  lemma OwnAfterMapping(a: View, b: View, v: nat, frames: seq<nat>, contents: seq<seq<nat>>, flags: Permissions)
    requires OwnPages(a, Private(a)) && Mapped(a, b, v, frames, contents, flags) && NotBare(flags, v, |frames|)
    requires Stretch(v, |frames|) !! a.pt.trans.Keys && TRAMPOLINE_PAGE in a.pt.trans
    ensures b.pt.trans.Keys == a.pt.trans.Keys + Stretch(v, |frames|) && OwnPages(b, Private(b))
  {
    AddRangeAt(a.pt.trans, v, frames, flags);
    OwnMapped(a, b, Private(a), v, frames, contents, flags);
    assert Private(b) == Private(a) + Stretch(v, |frames|);
  }

  /** A new section is registered. */
  lemma AddSection(a: View, b: View, sections: seq<Section>, stack: Section, s: Section,
                   frames: seq<nat>, contents: seq<seq<nat>>, flags: Permissions)
    requires Agrees(a, sections, stack) && PageAligned(s) && |frames| == s.size / PGSIZE
    requires Mapped(a, b, s.start / PGSIZE, frames, contents, flags) && NotBare(flags, s.start / PGSIZE, |frames|)
    requires PagesOf(s) !! a.pt.trans.Keys
    ensures Agrees(b, sections + [s], stack)
  {
    PartitionAdd(a.pt.trans.Keys, sections, stack, s);
    OwnAfterMapping(a, b, s.start / PGSIZE, frames, contents, flags);
  }

  /** The stack gets pages below it. */
  lemma GrowStack(a: View, b: View, sections: seq<Section>, stack: Section, stack': Section,
                  frames: seq<nat>, contents: seq<seq<nat>>, flags: Permissions)
    requires Agrees(a, sections, stack) && PageAligned(stack')
    requires PagesOf(stack') == PagesOf(stack) + Stretch(stack'.start / PGSIZE, |frames|)
    requires
      && Mapped(a, b, stack'.start / PGSIZE, frames, contents, flags)
      && NotBare(flags, stack'.start / PGSIZE, |frames|)
    requires Stretch(stack'.start / PGSIZE, |frames|) !! a.pt.trans.Keys
    ensures Agrees(b, sections, stack')
  {
    PartitionGrow(a.pt.trans.Keys, sections, stack, stack', Stretch(stack'.start / PGSIZE, |frames|));
    OwnAfterMapping(a, b, stack'.start / PGSIZE, frames, contents, flags);
  }

  // ----- Tearing down -----

  ghost function FrameSet(trans: Translation, s: set<nat>): set<nat> {
    set w | w in s && w in trans :: trans[w].pa
  }

  ghost function NumberSet(trans: Translation, s: set<nat>): set<int> {
    set w | w in s && w in trans :: PageNo(trans[w].pa)
  }

  /** From `b` to `c`, these pages were unmapped and their data pages were given back. */
  ghost predicate FreedAll(b: View, c: View, s: set<nat>) {
    && OwnTablesOnly(b, c)
    && c.pt.trans == b.pt.trans - s
    && c.pages == b.pages - FrameSet(b.pt.trans, s)
    && c.free == b.free + NumberSet(b.pt.trans, s)
  }

  /** The data pages that the page table has not got: those of other tasks and of nobody. */
  ghost function Strays(m: View): set<nat> {
    m.pages.Keys - FrameSet(m.pt.trans, Private(m))
  }

  /** There are so many more of them. */
  ghost predicate MoreStrays(a: View, b: View, n: nat) {
    Strays(a) <= Strays(b) && |Strays(b) - Strays(a)| == n
  }

  lemma StraysMapped(a: View, b: View, v: nat, frames: seq<nat>, contents: seq<seq<nat>>, flags: Permissions)
    requires Mapped(a, b, v, frames, contents, flags) && Stretch(v, |frames|) !! a.pt.trans.Keys + {TRAMPOLINE_PAGE}
    requires OwnPages(a, Private(a))
    ensures Strays(b) == Strays(a)
  {
    AddRangeAt(a.pt.trans, v, frames, flags);
    ElemsAre(frames);
    forall p
      ensures p in FrameSet(b.pt.trans, Private(b)) <==> p in FrameSet(a.pt.trans, Private(a)) || p in Elems(frames)
    {
      if w :| w in Private(b) && w in b.pt.trans && b.pt.trans[w].pa == p {
        assert w in Private(a) || b.pt.trans[v + (w - v)] == Entry(frames[w - v], FlagsAt(flags, w));
      }
      if i :| 0 <= i < |frames| && frames[i] == p {
        assert v + i in Private(b) && b.pt.trans[v + i].pa == p;
      }
      if w :| w in Private(a) && w in a.pt.trans && a.pt.trans[w].pa == p {
        assert w in Private(b) && b.pt.trans[w] == a.pt.trans[w];
      }
    }
    forall p | p in FrameSet(a.pt.trans, Private(a))
      ensures p !in Elems(frames)
    {
      var w :| w in Private(a) && w in a.pt.trans && a.pt.trans[w].pa == p;
      assert UserPage(a, w);
    }
  }

  lemma {:induction false} ElemsAre(s: seq<nat>)
    ensures forall p :: p in Elems(s) <==> exists i :: 0 <= i < |s| && s[i] == p
  {
    if s != [] {
      ElemsAre(s[..|s| - 1]);
    }
  }

  lemma StraysFreed(b: View, c: View, s: set<nat>)
    requires FreedAll(b, c, s) && OwnPages(b, Private(b)) && s !! {TRAMPOLINE_PAGE}
    ensures Strays(c) == Strays(b)
  {
    forall p | p in b.pages.Keys
      ensures p in Strays(c) <==> p in Strays(b)
    {
      if w :| w in Private(b) && b.pt.trans[w].pa == p {
        assert w in s || w in Private(c);
      }
    }
  }

  lemma {:induction false} FrameSetStretch(trans: Translation, v: nat, n: nat)
    ensures FramesOf(trans, v, n) == FrameSet(trans, Stretch(v, n))
    ensures NumbersOf(trans, v, n) == NumberSet(trans, Stretch(v, n))
  {
    if n > 0 {
      FrameSetStretch(trans, v, n - 1);
    }
  }

  lemma FreedRange(b: View, c: View, v: nat, n: nat)
    requires Freed(b, c, v, n)
    ensures FreedAll(b, c, Stretch(v, n))
  {
    FrameSetStretch(b.pt.trans, v, n);
  }

  lemma FreedNone(b: View)
    ensures FreedAll(b, b, {})
  {}

  lemma FreedBoth(b: View, c: View, d: View, s: set<nat>, t: set<nat>)
    requires FreedAll(b, c, s) && FreedAll(c, d, t) && s !! t
    ensures FreedAll(b, d, s + t)
  {}

  /** Freeing some pages leaves the others their data. */
  lemma OwnFreed(b: View, c: View, s: set<nat>, t: set<nat>)
    requires OwnPages(b, s) && FreedAll(b, c, t) && t <= s
    ensures OwnPages(c, s - t)
  {}

  /** Each of these pages that is mapped has a data page of its own. */
  ghost predicate OwnData(m: View, s: set<nat>) {
    OwnPages(m, s * m.pt.trans.Keys)
  }

  /** What teardown needs: sections and stack apart, and pages of one's own. */
  ghost predicate Owns(m: View, sections: seq<Section>, stack: Section) {
    && Apart(sections) && PageAligned(stack) && PagesOf(stack) !! AllPages(sections)
    && OwnData(m, AllPages(sections) + PagesOf(stack))
  }

  /** The ledger names what is mapped, and perhaps more. */
  ghost predicate Names(m: View, sections: seq<Section>, stack: Section) {
    && Owns(m, sections, stack) && OwnPages(m, Private(m))
    && Fixed() !! AllPages(sections) + PagesOf(stack)
    && Fixed() <= m.pt.trans.Keys <= AllPages(sections) + PagesOf(stack) + Fixed()
  }

  /** None of these pages makes `unmap_page` panic. */
  ghost predicate NoneStuck(pt: PageTable, s: set<nat>) {
    forall w :: w in s ==> !Stuck(pt, w)
  }

  /** The ledger, when some pages of sections and stack are missing, and their leaf tables too. */
  ghost predicate Covers(m: View, sections: seq<Section>, stack: Section) {
    && Names(m, sections, stack)
    && forall w :: w in AllPages(sections) + PagesOf(stack) && w !in m.pt.trans ==> Hole(m.pt, w)
  }

  lemma CoversUnstuck(m: View, sections: seq<Section>, stack: Section)
    requires Covers(m, sections, stack) && Represents(m.tables, m.pt)
    ensures NoneStuck(m.pt, AllPages(sections) + PagesOf(stack))
  {
    hide Apart;
    var s := AllPages(sections) + PagesOf(stack);
    forall w | w in s
      ensures !Stuck(m.pt, w)
    {
      assert w in m.pt.trans ==> w in s * m.pt.trans.Keys && UserPage(m, w);
    }
  }

  lemma StillStuck(b: View, c: View, s: set<nat>, t: set<nat>)
    requires FreedAll(b, c, t) && s !! t
    ensures NoneStuck(c.pt, s) <==> NoneStuck(b.pt, s)
  {
    forall w | w in s
      ensures Stuck(c.pt, w) <==> Stuck(b.pt, w)
    {}
  }

  lemma AgreesCovers(m: View, sections: seq<Section>, stack: Section)
    requires Agrees(m, sections, stack)
    ensures Covers(m, sections, stack)
  {
    var s := AllPages(sections) + PagesOf(stack);
    assert s * m.pt.trans.Keys == s;
  }

  /** The first section is freed. */
  lemma DropSection(b: View, c: View, sections: seq<Section>, stack: Section)
    requires Owns(b, sections, stack) && sections != [] && FreedAll(b, c, PagesOf(sections[0]))
    ensures Owns(c, sections[1..], stack)
  {
    var s, t := AllPages(sections) + PagesOf(stack), PagesOf(sections[0]);
    StillMapped(b, c, s, t);
    assert s - t == AllPages(sections[1..]) + PagesOf(stack);
  }

  lemma StillMapped(b: View, c: View, s: set<nat>, t: set<nat>)
    requires OwnData(b, s) && FreedAll(b, c, t) && t <= s
    ensures OwnData(c, s - t)
  {
    assert (s - t) * c.pt.trans.Keys == (s - t) * b.pt.trans.Keys;
    forall w | w in (s - t) * c.pt.trans.Keys
      ensures UserPage(c, w)
    {
      assert w in s * b.pt.trans.Keys && UserPage(b, w);
      assert forall x :: x in t && x in b.pt.trans ==> x in s * b.pt.trans.Keys;
    }
  }

  lemma EmptyLedger(b: View, c: View, sections: seq<Section>, stack: Section)
    requires Agrees(b, sections, stack) && FreedAll(b, c, AllPages(sections) + PagesOf(stack))
    ensures Agrees(c, [], Section(0, 0))
  {
    var s := AllPages(sections) + PagesOf(stack);
    OwnFreed(b, c, Private(b), s);
    assert Private(c) == Private(b) - s;
  }
}

/** fork_process and exit_process of kernel/process.c, as far as memory goes. */
module TaskSteps {
  import opened Sv39
  import opened PageTables
  import opened Ranges
  import opened Supply
  import opened Memory
  import opened AddressSpace
  import opened Ledger
  import opened Isolation
  import opened TaskMemory
  import opened Teardown
  import opened UserSpace
  import opened Fork
  import opened Shortage

  /** `fork_process`. What becomes of it depends on the free pages and the parent's ledger alone. With enough to
      fork, the child is `whole`: it has the parent's sections and stack, byte for byte and with the same flags, on
      pages of its own, and the parent is as it was. Otherwise `new_task` may refuse, which leaves the parent as it
      was; or a child that lacks pages is answered with its pid; or the copy fails and the parent's memory is freed.
      No task that was started makes fork panic. */
  method ForkProcess(mem: Memory, t: Space, trampoline: nat, ghost pt: PageTable)
      returns (status: Status, birth: Birth, whole: bool, intact: bool, child: Space, ghost childPt: PageTable)
    requires Holds(mem, pt) && Started(ViewOf(mem, pt), t)
    modifies mem, mem.pool, mem.pool.link
    ensures status.Ok? || status.NoMemory?
    ensures birth.Born? <==> Enough(StockOf(old(mem.pool.free)), 3, 3)
    ensures birth.Refused? <==> !Enough(StockOf(old(mem.pool.free)), 3, 1)
    ensures status.Ok? <==>
      birth.Born? && PagesSuffice(NewMeans(StockOf(old(mem.pool.free))), t.sections)
    ensures status.Ok? && whole <==> EnoughToFork(StockOf(old(mem.pool.free)), pt.trans.Keys)
    ensures status.Ok? ==>
      Holds(mem, childPt) && child.sections == t.sections && child.stack == t.stack && child.root == childPt.root
    ensures status.Ok? ==> (whole <==> ProgramPages(t) <= childPt.trans.Keys)
    ensures status.Ok? && whole ==>
      Started(ViewOf(mem, childPt), child) && child.stackPermission == PTE_U + PTE_R + PTE_W
    ensures status.Ok? && whole ==> Twin(old(ViewOf(mem, pt)), ViewOf(mem, childPt), ProgramPages(t))
    ensures status.Ok? && whole ==> Local(Unborn(old(ViewOf(mem, pt))), ViewOf(mem, childPt))
    ensures status.Ok? && whole ==>
      intact && Holds(mem, pt) && Started(ViewOf(mem, pt), t) && Stranger(ViewOf(mem, childPt), pt)
    ensures var lost := LostPages(NewMeans(StockOf(old(mem.pool.free))), t.sections + [t.stack]); birth.Born? ==>
      && (intact <==> lost == {})
      && Lost(ViewOf(mem, pt), pt, if status.NoMemory? && intact then Private(ViewOf(mem, pt)) else lost)
    ensures status.Ok? && intact ==> Holds(mem, pt) && Started(ViewOf(mem, pt), t)
    ensures status.NoMemory? && birth.Born? ==> !Agrees(ViewOf(mem, pt), t.sections, t.stack)
    ensures birth.Refused? ==> Holds(mem, pt) && Started(ViewOf(mem, pt), t)
    ensures birth.Refused? ==> Local(Unborn(old(ViewOf(mem, pt))), Unborn(ViewOf(mem, pt)))
    ensures status.Ok? && whole ==> forall w :: w in pt.trans && w < 0x3FF_FFFD ==>
      && w in childPt.trans && childPt.trans[w].flags == pt.trans[w].flags && childPt.trans[w].pa != pt.trans[w].pa
      && pt.trans[w].pa in old(mem.pages) && pt.trans[w].pa in mem.pages && childPt.trans[w].pa in mem.pages
      && old(mem.pages)[pt.trans[w].pa] == mem.pages[pt.trans[w].pa] == mem.pages[childPt.trans[w].pa]
    ensures var m, all := NewMeans(StockOf(old(mem.pool.free))), t.sections + [t.stack]; status.Ok? ==>
      if PagesSuffice(m, all) then
        && childPt.trans.Keys == Fixed() + (ProgramPages(t) - Gaps(m, all))
        && Twin(old(ViewOf(mem, pt)), ViewOf(mem, childPt), ProgramPages(t) - Gaps(m, all))
      else childPt.trans.Keys == Fixed()
    ensures var m, all := NewMeans(StockOf(old(mem.pool.free))), t.sections + [t.stack]; birth.Born? ==>
      Astray(Unborn(old(ViewOf(mem, pt))), if status.Ok? then ViewOf(mem, childPt) else Unborn(ViewOf(mem, pt)), pt,
             Gaps(m, all) + LostPages(m, all))
  {
    hide Gaps, Astray;
    hide StockOf, Enough, PagesSuffice, LostPages, EnoughToFork, NewMeans, Represents, Partition, OwnPages, Twin, Lost;
    Layout();
    var root, trapFrame, sharedMemory, sections, stack;
    status, birth, whole, intact, root, trapFrame, sharedMemory, sections, stack, childPt :=
      ForkMemory(mem, trampoline, t.root, t.sections, t.stack, pt);
    child := Space(root, sections, stack, PTE_U + PTE_R + PTE_W, trapFrame, sharedMemory);
    if birth.Born? {
      LostDisagrees(ViewOf(mem, pt), t.sections, t.stack,
                    LostPages(NewMeans(StockOf(old(mem.pool.free))), t.sections + [t.stack]));
    }
    if status.Ok? && whole {
      WholeTwin(old(ViewOf(mem, pt)), ViewOf(mem, childPt), t);
    }
    if status.NoMemory? && birth.Born? && intact {
      ghost var c := Unborn(ViewOf(mem, pt));
      FreeParent(mem, t, pt);
      ParentGone(Unborn(old(ViewOf(mem, pt))), c, Unborn(ViewOf(mem, pt)), pt,
                 Gaps(NewMeans(StockOf(old(mem.pool.free))), t.sections + [t.stack])
                   + LostPages(NewMeans(StockOf(old(mem.pool.free))), t.sections + [t.stack]));
    }
  }

  /** Page by page: what the child has, and that the parent still has it. */
  lemma WholeTwin(o: View, b: View, t: Space)
    requires Started(o, t) && Represents(o.tables, o.pt) && Twin(o, b, ProgramPages(t)) && Stranger(b, o.pt)
    requires Taken(o) && Local(Unborn(o), b)
    ensures forall w :: w in o.pt.trans && w < 0x3FF_FFFD ==>
      && w in b.pt.trans && b.pt.trans[w].flags == o.pt.trans[w].flags && b.pt.trans[w].pa != o.pt.trans[w].pa
      && o.pt.trans[w].pa in o.pages && o.pt.trans[w].pa in b.pages && b.pt.trans[w].pa in b.pages
      && o.pages[o.pt.trans[w].pa] == b.pages[o.pt.trans[w].pa] == b.pages[b.pt.trans[w].pa]
  {
    hide Represents, Local, Stranger, Claims, Apart;
    assert Unborn(o).(pt := o.pt) == o;
    ParentIsStranger(Unborn(o), o.pt);
    forall w | w in o.pt.trans && w < 0x3FF_FFFD
      ensures
        && w in b.pt.trans && b.pt.trans[w].flags == o.pt.trans[w].flags && b.pt.trans[w].pa != o.pt.trans[w].pa
        && o.pt.trans[w].pa in o.pages && o.pt.trans[w].pa in b.pages && b.pt.trans[w].pa in b.pages
        && o.pages[o.pt.trans[w].pa] == b.pages[o.pt.trans[w].pa] == b.pages[b.pt.trans[w].pa]
    {
      assert w in ProgramPages(t) && TwinPage(o, b, w) && w in Private(b);
      assert w in Private(o) && UserPage(o, w);
      NoSharedFrame(b, o.pt, w, w);
      StrangerReads(Unborn(o), b, o.pt, w);
    }
  }

  lemma ParentGone(o: View, c: View, d: View, pt: PageTable, s: set<nat>)
    requires Astray(o, c, pt, s) && c == Unborn(c) && d == Unborn(d)
    requires d.pages == c.pages - FrameSet(pt.trans, pt.trans.Keys - {TRAMPOLINE_PAGE})
    ensures Astray(o, d, pt, s)
  {
    UnbornStrays(c);
    UnbornStrays(d);
    assert Nobodys(d, pt) == Nobodys(c, pt);
  }

  /** `free_user_memory(task)` for the parent of a failed copy, when none of its pages is free yet: all of them are
      free then. Otherwise some page would be given back twice, and the model ends. */
  method FreeParent(mem: Memory, t: Space, ghost pt: PageTable)
    requires Holds(mem, pt) && Agrees(ViewOf(mem, pt), t.sections, t.stack) && t.root == pt.root
    requires Frames(ViewOf(mem, pt), t.trapFrame, t.sharedMemory)
    modifies mem, mem.pool, mem.pool.link
    ensures mem.Valid() && !Agrees(ViewOf(mem, pt), t.sections, t.stack)
    ensures Lost(ViewOf(mem, pt), pt, Private(ViewOf(mem, pt)))
    ensures mem.pages == old(mem.pages) - FrameSet(pt.trans, Private(ViewOf(mem, pt)))
  {
    ghost var a := ViewOf(mem, pt);
    AgreesCovers(a, t.sections, t.stack);
    CoversUnstuck(a, t.sections, t.stack);
    var status;
    ghost var c;
    status, c := FreeUserMemory(mem, t.root, t.sections, t.stack, t.trapFrame, t.sharedMemory, pt, t.stack);
    ReleasedDisagrees(a, c, ViewOf(mem, pt), t);
  }

  lemma ReleasedDisagrees(a: View, c: View, d: View, t: Space)
    requires AllReleased(a, c) && d.pages == c.pages && d.pt == a.pt && Frames(a, t.trapFrame, t.sharedMemory)
    requires c.free <= d.free
    ensures !Agrees(d, t.sections, t.stack) && Lost(d, d.pt, Private(d))
  {
    assert SHARED_PAGE in Private(a) && a.pt.trans[SHARED_PAGE].pa in FrameSet(a.pt.trans, Private(a));
    assert SHARED_PAGE in Private(d) && !UserPage(d, SHARED_PAGE);
    forall w | w in Private(d)
      ensures d.pt.trans[w].pa !in d.pages && PageNo(d.pt.trans[w].pa) in d.free
    {
      assert w in Private(a);
      assert a.pt.trans[w].pa in FrameSet(a.pt.trans, Private(a));
      assert PageNo(a.pt.trans[w].pa) in NumberSet(a.pt.trans, Private(a));
    }
  }

  lemma GoneIsStale(m: View, t: Space)
    requires Ready(m, t, Section(0, 0)) && StackIn(t.stack)
    ensures Stale(m, t.sections, t.stack)
  {}

  /** The memory half of `exit_process`: all data pages of the task are free, each given back once, and the
      other tasks' pages are untouched. It panics exactly when the stack that the task names is not there. */
  method ExitProcess(mem: Memory, t: Space, ghost pt: PageTable, ghost live: Section) returns (status: Status)
    requires Holds(mem, pt) && Ready(ViewOf(mem, pt), t, live) && StackIn(t.stack)
    requires live == t.stack || live == Section(0, 0)
    modifies mem, mem.pool, mem.pool.link
    ensures status.Ok? || status.Panic?
    ensures status.Panic? <==> live != t.stack
    ensures status.Ok? ==> mem.pages.Keys == old(Strays(ViewOf(mem, pt)))
    ensures status.Ok? ==> forall w :: w in pt.trans && w != 0x3FF_FFFF ==>
      pt.trans[w].pa !in mem.pages && PageNo(pt.trans[w].pa) in mem.pool.free
    ensures status.Ok? ==> mem.Valid() && Local(old(ViewOf(mem, pt)), Unborn(ViewOf(mem, pt)))
    ensures status.Ok? ==> mem.pages == old(mem.pages) - FrameSet(pt.trans, Private(old(ViewOf(mem, pt))))
    ensures status.Ok? ==>
      mem.pool.free == old(mem.pool.free) + NumberSet(pt.trans, Private(old(ViewOf(mem, pt)))) + Numbers(Upper(pt))
    ensures status.Ok? ==> forall p :: p in pt.shape && !p.Leaf? ==>
      pt.shape[p] !in mem.tables && PageNo(pt.shape[p]) in mem.pool.free
    ensures status.Ok? ==> forall p :: p in pt.shape && p.Leaf? ==>
      pt.shape[p] in mem.tables && PageNo(pt.shape[p]) !in mem.pool.free
  {
    hide FrameSet, NumberSet, Upper, Numbers, Agrees, Represents, Strays, NoneStuck, Local;
    if live != t.stack {
      GoneIsStale(ViewOf(mem, pt), t);
    }
    ghost var a := ViewOf(mem, pt);
    AgreesCovers(a, t.sections, live);
    CoversUnstuck(a, t.sections, live);
    ghost var c;
    status, c := FreeUserMemory(mem, t.root, t.sections, t.stack, t.trapFrame, t.sharedMemory, pt, live);
    if status.Ok? {
      AllGone(a, c, mem.pool.free);
    }
  }

  lemma AllGone(a: View, c: View, free: set<int>)
    requires AllReleased(a, c) && c.free <= free
    ensures c.pages.Keys == Strays(a)
    ensures forall w :: w in a.pt.trans && w != TRAMPOLINE_PAGE ==>
      a.pt.trans[w].pa !in c.pages && PageNo(a.pt.trans[w].pa) in free
  {
    forall w | w in a.pt.trans && w != TRAMPOLINE_PAGE
      ensures a.pt.trans[w].pa !in c.pages && PageNo(a.pt.trans[w].pa) in free
    {
      assert w in Private(a);
      assert a.pt.trans[w].pa in FrameSet(a.pt.trans, Private(a));
      assert PageNo(a.pt.trans[w].pa) in NumberSet(a.pt.trans, Private(a));
    }
  }

  /** `exit_process` of a task whose ledger may name pages that are not mapped: it panics exactly when
      `unmap_page` does on one of them. */
  method ExitPartly(mem: Memory, t: Space, ghost pt: PageTable) returns (status: Status)
    requires Holds(mem, pt) && Names(ViewOf(mem, pt), t.sections, t.stack) && t.root == pt.root
    requires Frames(ViewOf(mem, pt), t.trapFrame, t.sharedMemory)
    modifies mem, mem.pool, mem.pool.link
    ensures status.Ok? || status.Panic?
    ensures status.Panic? <==> !NoneStuck(pt, ProgramPages(t))
    ensures status.Ok? ==> mem.Valid() && Local(old(ViewOf(mem, pt)), Unborn(ViewOf(mem, pt)))
    ensures status.Ok? ==> mem.pages.Keys == old(Strays(ViewOf(mem, pt)))
    ensures status.Ok? ==> forall p :: p in pt.shape && !p.Leaf? ==>
      pt.shape[p] !in mem.tables && PageNo(pt.shape[p]) in mem.pool.free
  {
    ghost var c;
    status, c := FreeUserMemory(mem, t.root, t.sections, t.stack, t.trapFrame, t.sharedMemory, pt, t.stack);
  }

  // ----- Stores -----

  lemma StoredStarted(a: View, t: Space, w: nat, bytes: seq<nat>)
    requires Started(a, t) && w in Private(a) && UserPage(a, w)
    ensures Started(Stored(a, w, bytes), t) && Local(a, Stored(a, w, bytes))
  {
    StoreLocal(a, w, bytes);
    forall x | x in Private(a)
      ensures UserPage(Stored(a, w, bytes), x)
    {
      assert UserPage(a, x);
    }
  }

  /** Rewrites the data page behind a private virtual page. */
  method StorePage(mem: Memory, t: Space, frame: nat, bytes: seq<nat>, ghost pt: PageTable, ghost w: nat)
    requires Holds(mem, pt) && Started(ViewOf(mem, pt), t) && w in Private(ViewOf(mem, pt)) && |bytes| == PGSIZE
    requires w in pt.trans && frame == pt.trans[w].pa
    modifies mem`pages
    ensures Holds(mem, pt) && Started(ViewOf(mem, pt), t) && ViewOf(mem, pt) == Stored(old(ViewOf(mem, pt)), w, bytes)
    ensures Local(old(ViewOf(mem, pt)), ViewOf(mem, pt))
  {
    ghost var a := ViewOf(mem, pt);
    assert UserPage(a, w);
    StoredStarted(a, t, w, bytes);
    assert mem.pages[frame := bytes].Keys == mem.pages.Keys;
    mem.pages := mem.pages[frame := bytes];
  }

  /** The hardware's check for a store by a user program: valid, user-accessible and writable. */
  predicate UserWritable(flags: nat) {
    (flags / PTE_U) % 2 == 1 && (flags / PTE_W) % 2 == 1
  }

  ghost predicate CanStore(pt: PageTable, w: nat) {
    w in pt.trans && UserWritable(pt.trans[w].flags)
  }

  /** Neither the trampoline nor the trap frame can be stored to. */
  lemma StoreIsPrivate(m: View, t: Space, w: nat)
    requires Running(m, t) && CanStore(m.pt, w)
    ensures w in Private(m) && UserPage(m, w) && w != TRAPFRAME_PAGE
  {
    assert !UserWritable(WithValid(PTE_R + PTE_X)) && !UserWritable(WithValid(PTE_R + PTE_W));
  }

  /** A program can store to a segment if and only if its header says so. */
  lemma SegmentStores(m: View, ph: ProgramHeader, w: nat)
    requires SegmentAllows(m, ph) && ph.vaddr / 4096 <= w && w * 4096 < ph.vaddr + ph.memsz
    ensures CanStore(m.pt, w) <==> ph.writable
  {}

  /** A user program stores a byte, if its page table lets it. */
  method UserStore(mem: Memory, t: Space, va: nat, byte: nat, ghost pt: PageTable) returns (done: bool)
    requires Holds(mem, pt) && Started(ViewOf(mem, pt), t)
    modifies mem`pages
    ensures Holds(mem, pt) && Started(ViewOf(mem, pt), t) && Local(old(ViewOf(mem, pt)), ViewOf(mem, pt))
    ensures done <==> va < MAXVA && CanStore(pt, va / PGSIZE)
    ensures !done ==> mem.pages == old(mem.pages)
    ensures done ==> PageBehind(old(ViewOf(mem, pt)), va / PGSIZE).Some?
    ensures done ==>
      var page := PageBehind(old(ViewOf(mem, pt)), va / PGSIZE).value;
      |page| == PGSIZE && ViewOf(mem, pt) == Stored(old(ViewOf(mem, pt)), va / PGSIZE, page[va % PGSIZE := byte])
  {
    SelfLocal(ViewOf(mem, pt));
    if va >= MAXVA {
      return false;
    }
    var w: nat := va / PGSIZE;
    var start: nat := w * PGSIZE;
    PageStart(w, start);
    var frame := mem.PhysicalAddress(t.root, start, pt);
    if frame == NULL {
      Unmapped(ViewOf(mem, pt), t, w, mem.pool.kernelEnd);
      return false;
    }
    var flags := mem.FlagsOf(t.root, start, pt);
    if !UserWritable(flags) {
      return false;
    }
    StoreIsPrivate(ViewOf(mem, pt), t, w);
    var page := mem.pages[frame];
    StorePage(mem, t, frame, page[va % PGSIZE := byte], pt, w);
    return true;
  }

  lemma SelfLocal(a: View)
    ensures Local(a, a)
  {}

  /** Only the trampoline could be mapped to address 0, and nobody can store to it. */
  lemma Unmapped(m: View, t: Space, w: nat, kernelEnd: int)
    requires Running(m, t) && Placed(m.pages.Keys, m.free, kernelEnd) && (w in m.pt.trans ==> m.pt.trans[w].pa == NULL)
    ensures !CanStore(m.pt, w)
  {
    if CanStore(m.pt, w) {
      StoreIsPrivate(m, t, w);
    }
  }
}

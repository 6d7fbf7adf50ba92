/** free_pagetable of kernel/virtual_memory.c and free_user_memory of kernel/process.c. */
module Teardown {
  import opened Sv39
  import opened PageTables
  import opened Ranges
  import opened Memory
  import opened AddressSpace
  import opened Ledger
  import opened Isolation
  import opened TaskMemory

  /** The root and the tables directly below it: what `free_pagetable` gives back. */
  ghost function Upper(pt: PageTable): set<nat> {
    Mids(pt, ENTRIES) + {pt.root}
  }

  ghost function Mids(pt: PageTable, n: nat): set<nat> {
    if n == 0 then {} else Mids(pt, n - 1) + if Mid(n - 1) in pt.shape then {pt.shape[Mid(n - 1)]} else {}
  }

  ghost function Numbers(s: set<nat>): set<int> {
    set a | a in s :: PageNo(a)
  }

  /** The root table and the tables below it that are still to come are in place. */
  ghost predicate InPlace(tables: Tables, t0: Tables, pt: PageTable, n: nat) {
    && Tree(t0, pt)
    && pt.root in tables && tables[pt.root] == t0[pt.root]
    && forall i :: n <= i < ENTRIES && Mid(i) in pt.shape ==>
         pt.shape[Mid(i)] in tables && |tables[pt.shape[Mid(i)]]| == ENTRIES
  }

  lemma NextMid(tables: Tables, t0: Tables, pt: PageTable, i: nat)
    requires InPlace(tables, t0, pt, i) && i < ENTRIES
    ensures |tables[pt.root]| == ENTRIES && (IsValid(tables[pt.root][i]) <==> Mid(i) in pt.shape)
    ensures Mid(i) !in pt.shape ==> InPlace(tables, t0, pt, i + 1)
    ensures Mid(i) in pt.shape ==> Target(tables[pt.root][i]) == pt.shape[Mid(i)] && pt.shape[Mid(i)] != pt.root
    ensures Mid(i) in pt.shape ==> pt.shape[Mid(i)] in tables && |tables[pt.shape[Mid(i)]]| == ENTRIES
    ensures Mid(i) in pt.shape ==> InPlace(tables - {pt.shape[Mid(i)]}, t0, pt, i + 1)
  {
    assert Points(pt.shape, t0[pt.root][i], Child(Root, i));
  }

  lemma MoreGone(t0: Tables, t1: Tables, f0: set<int>, f1: set<int>, gone: set<nat>, t: nat)
    requires t1 == t0 - gone && f1 == f0 + Numbers(gone)
    ensures t1 - {t} == t0 - (gone + {t}) && f1 + {PageNo(t)} == f0 + Numbers(gone + {t})
  {}

  /** The tables that one call of `free_pagetable_internal` gives back. */
  ghost function Below(pt: PageTable, table: nat, level: nat): set<nat> {
    if level > 1 then Upper(pt) else {table}
  }

  lemma OneBelow(pt: PageTable, table: nat)
    ensures Below(pt, table, 1) == {table} && Numbers({table}) == {PageNo(table)}
  {}

  lemma NextMids(pt: PageTable, i: nat)
    ensures Mids(pt, i + 1) == if Mid(i) in pt.shape then Mids(pt, i) + {pt.shape[Mid(i)]} else Mids(pt, i)
  {}

  method FreePagetableInternal(mem: Memory, table: nat, level: nat, ghost pt: PageTable, ghost t0: Tables)
    requires mem.Valid() && 1 <= level <= 2 && table in mem.tables && |mem.tables[table]| == ENTRIES
    requires level == 2 ==> table == pt.root && InPlace(mem.tables, t0, pt, 0)
    modifies mem`tables, mem.pool, mem.pool.link
    ensures mem.Valid() && mem.tables == old(mem.tables) - Below(pt, table, level)
    ensures mem.pool.free == old(mem.pool.free) + Numbers(Below(pt, table, level))
    decreases level
  {
    ghost var gone: set<nat> := {};
    assert mem.tables == old(mem.tables) - {};
    if level > 0 {
      var i: nat := 0;
      while i < ENTRIES
        invariant i <= ENTRIES && mem.Valid()
        invariant table in mem.tables && mem.tables[table] == old(mem.tables)[table]
        invariant level == 2 ==> InPlace(mem.tables, t0, pt, i)
        invariant gone == if level == 2 then Mids(pt, i) else {}
        invariant mem.tables == old(mem.tables) - gone && mem.pool.free == old(mem.pool.free) + Numbers(gone)
      {
        if level > 1 {
          NextMid(mem.tables, t0, pt, i);
          NextMids(pt, i);
        }
        if IsValid(mem.tables[table][i]) && level > 1 {
          ghost var mid := pt.shape[Mid(i)];
          MoreGone(old(mem.tables), mem.tables, old(mem.pool.free), mem.pool.free, gone, mid);
          OneBelow(pt, mid);
          FreePagetableInternal(mem, Target(mem.tables[table][i]), level - 1, pt, t0);
          gone := gone + {mid};
        }
        i := i + 1;
      }
    }
    MoreGone(old(mem.tables), mem.tables, old(mem.pool.free), mem.pool.free, gone, table);
    mem.ReleaseTable(table);
  }

  ghost function WithoutFixed(b: View, trapFrame: nat, sharedMemory: nat): View {
    b.(pages := b.pages - {trapFrame} - {sharedMemory}, free := b.free + {PageNo(trapFrame)} + {PageNo(sharedMemory)})
  }

  lemma FixedReleased(b: View, sections: seq<Section>, stack: Section, trapFrame: nat, sharedMemory: nat)
    requires Names(b, sections, stack) && Frames(b, trapFrame, sharedMemory)
    ensures trapFrame in b.pages && sharedMemory in b.pages && trapFrame != sharedMemory
    ensures Owns(WithoutFixed(b, trapFrame, sharedMemory), sections, stack)
  {
    var c := WithoutFixed(b, trapFrame, sharedMemory);
    var s := (AllPages(sections) + PagesOf(stack)) * b.pt.trans.Keys;
    assert TRAPFRAME_PAGE in Private(b) && SHARED_PAGE in Private(b) && s <= Private(b);
    assert UserPage(b, TRAPFRAME_PAGE) && UserPage(b, SHARED_PAGE);
    forall w | w in s
      ensures UserPage(c, w)
    {
      assert UserPage(b, w) && w != TRAPFRAME_PAGE && w != SHARED_PAGE;
    }
  }

  /** All private pages are given back. */
  ghost predicate AllReleased(b: View, c: View) {
    && OwnTablesOnly(b, c)
    && c.pages == b.pages - FrameSet(b.pt.trans, Private(b))
    && c.free == b.free + NumberSet(b.pt.trans, Private(b))
  }

  lemma ReleasedStrays(b: View, c: View)
    requires AllReleased(b, c)
    ensures c.pages.Keys == Strays(b) && c.pages.Keys <= b.pages.Keys && b.free <= c.free
  {}

  lemma Released(b: View, c: View, sections: seq<Section>, stack: Section, trapFrame: nat, sharedMemory: nat)
    requires Names(b, sections, stack) && Frames(b, trapFrame, sharedMemory)
    requires FreedAll(WithoutFixed(b, trapFrame, sharedMemory), c, AllPages(sections) + PagesOf(stack))
    ensures AllReleased(b, c)
  {
    var s := AllPages(sections) + PagesOf(stack);
    RemovedInTwo(b.pages, trapFrame, sharedMemory, FrameSet(b.pt.trans, s));
    PrivatePages(b, sections, stack);
    FixedFrames(b, s, trapFrame, sharedMemory);
  }

  lemma FixedFrames(b: View, s: set<nat>, trapFrame: nat, sharedMemory: nat)
    requires Frames(b, trapFrame, sharedMemory)
    ensures var r := s + {TRAPFRAME_PAGE} + {SHARED_PAGE};
      && FrameSet(b.pt.trans, r) == FrameSet(b.pt.trans, s) + {trapFrame} + {sharedMemory}
      && NumberSet(b.pt.trans, r) == NumberSet(b.pt.trans, s) + {PageNo(trapFrame)} + {PageNo(sharedMemory)}
  {
    OneMore(b.pt.trans, s, TRAPFRAME_PAGE);
    OneMore(b.pt.trans, s + {TRAPFRAME_PAGE}, SHARED_PAGE);
  }

  lemma PrivatePages(b: View, sections: seq<Section>, stack: Section)
    requires Names(b, sections, stack)
    ensures var s := AllPages(sections) + PagesOf(stack) + {TRAPFRAME_PAGE} + {SHARED_PAGE};
      && FrameSet(b.pt.trans, Private(b)) == FrameSet(b.pt.trans, s)
      && NumberSet(b.pt.trans, Private(b)) == NumberSet(b.pt.trans, s)
  {
    var s := AllPages(sections) + PagesOf(stack) + {TRAPFRAME_PAGE} + {SHARED_PAGE};
    assert forall w :: w in b.pt.trans ==> (w in Private(b) <==> w in s);
  }

  lemma RemovedInTwo(pages: Pages, p: nat, q: nat, s: set<nat>)
    ensures pages - {p} - {q} - s == pages - (s + {p} + {q})
  {}

  lemma OneMore(trans: Translation, s: set<nat>, w: nat)
    requires w in trans
    ensures FrameSet(trans, s + {w}) == FrameSet(trans, s) + {trans[w].pa}
    ensures NumberSet(trans, s + {w}) == NumberSet(trans, s) + {PageNo(trans[w].pa)}
  {}

  /** Every data page of the task goes back exactly once, and so do the root table and the
      tables below it. Nothing is read after it was given back. It panics exactly when the stack
      that the task names is not there, or when `unmap_page` panics on some page of the ledger. */
  method FreeUserMemory(mem: Memory, root: nat, sections: seq<Section>, stack: Section, trapFrame: nat,
                        sharedMemory: nat, ghost pt: PageTable, ghost live: Section)
      returns (status: Status, ghost c: View)
    requires Holds(mem, pt) && root == pt.root && Names(ViewOf(mem, pt), sections, live)
    requires Frames(ViewOf(mem, pt), trapFrame, sharedMemory)
    requires live == stack || (live == Section(0, 0) && Stale(ViewOf(mem, pt), sections, stack))
    modifies mem, mem.pool, mem.pool.link
    ensures status.Ok? || status.Panic?
    ensures status.Panic? <==> live != stack || !NoneStuck(pt, AllPages(sections) + PagesOf(stack))
    ensures status.Ok? ==> mem.Valid() && AllReleased(old(ViewOf(mem, pt)), c) && mem.pages == c.pages
    ensures status.Ok? ==> mem.tables == c.tables - Upper(pt) && mem.pool.free == c.free + Numbers(Upper(pt))
    ensures status.Ok? ==> Local(old(ViewOf(mem, pt)), Unborn(ViewOf(mem, pt)))
    ensures status.Ok? ==> forall p :: p in pt.shape && !p.Leaf? ==>
      pt.shape[p] !in mem.tables && PageNo(pt.shape[p]) in mem.pool.free
    ensures status.Ok? ==> forall p :: p in pt.shape && p.Leaf? ==>
      pt.shape[p] in mem.tables && PageNo(pt.shape[p]) !in mem.pool.free
  {
    hide Stuck, Stale, FreedAll, Names, NoneStuck, Local, Owns, Points, At;
    ghost var b := ViewOf(mem, pt);
    FixedReleased(b, sections, live, trapFrame, sharedMemory);
    SameStale(b, WithoutFixed(b, trapFrame, sharedMemory), sections, stack);
    ReleaseFixed(mem, trapFrame, sharedMemory, pt);
    ghost var pt';
    status, pt' := ClearSpace(mem, root, sections, stack, pt, live);
    c := ViewOf(mem, pt');
    if status.Ok? {
      Released(b, c, sections, stack, trapFrame, sharedMemory);
      assert Root in pt.shape && pt.shape[Root] == pt.root;
      FreePagetable(mem, root, pt, pt');
      DeathLocal(b, c, Unborn(ViewOf(mem, pt)));
    }
  }

  method ReleaseFixed(mem: Memory, trapFrame: nat, sharedMemory: nat, ghost pt: PageTable)
    requires Holds(mem, pt) && trapFrame in mem.pages && sharedMemory in mem.pages && trapFrame != sharedMemory
    modifies mem`pages, mem.pool, mem.pool.link
    ensures Holds(mem, pt) && ViewOf(mem, pt) == WithoutFixed(old(ViewOf(mem, pt)), trapFrame, sharedMemory)
  {
    mem.ReleasePage(trapFrame);
    mem.ReleasePage(sharedMemory);
  }

  lemma SameStale(b: View, c: View, sections: seq<Section>, stack: Section)
    requires c.pt == b.pt
    ensures Stale(b, sections, stack) <==> Stale(c, sections, stack)
  {}

  lemma {:induction false} MidsAre(pt: PageTable, n: nat)
    ensures forall i :: 0 <= i < n && Mid(i) in pt.shape ==> pt.shape[Mid(i)] in Mids(pt, n)
    ensures forall f :: f in Mids(pt, n) ==> exists i :: 0 <= i < n && Mid(i) in pt.shape && f == pt.shape[Mid(i)]
  {
    if n > 0 {
      MidsAre(pt, n - 1);
    }
  }

  /** The tables that are given back are all but the leaf tables. */
  lemma UpperIs(tables: Tables, pt: PageTable)
    requires Tree(tables, pt)
    ensures forall p :: p in pt.shape ==> (pt.shape[p] in Upper(pt) <==> !p.Leaf?)
  {
    MidsAre(pt, ENTRIES);
    forall p | p in pt.shape
      ensures pt.shape[p] in Upper(pt) <==> !p.Leaf?
    {
      assert HasParent(pt.shape, p);
    }
  }

  lemma Given(tables: Tables, pt: PageTable, tables': Tables, free: set<int>, free': set<int>, kernelEnd: int)
    requires Tree(tables, pt) && tables' == tables - Upper(pt) && free' == free + Numbers(Upper(pt))
    requires Placed(tables'.Keys, free', kernelEnd)
    ensures forall p :: p in pt.shape && !p.Leaf? ==> pt.shape[p] !in tables' && PageNo(pt.shape[p]) in free'
    ensures forall p :: p in pt.shape && p.Leaf? ==> pt.shape[p] in tables' && PageNo(pt.shape[p]) !in free'
  {
    UpperIs(tables, pt);
    forall p | p in pt.shape
      ensures !p.Leaf? ==> PageNo(pt.shape[p]) in free'
    {
      if !p.Leaf? {
        assert pt.shape[p] in Upper(pt);
      }
    }
  }

  method FreePagetable(mem: Memory, root: nat, ghost pt: PageTable, ghost pt': PageTable)
    requires Holds(mem, pt') && root == pt'.root && pt.root == pt'.root && pt.shape == pt'.shape
    modifies mem`tables, mem.pool, mem.pool.link
    ensures
      && mem.Valid()
      && mem.tables == old(mem.tables) - Upper(pt)
      && mem.pool.free == old(mem.pool.free) + Numbers(Upper(pt))
    ensures forall p :: p in pt.shape && !p.Leaf? ==>
      pt.shape[p] !in mem.tables && PageNo(pt.shape[p]) in mem.pool.free
    ensures forall p :: p in pt.shape && p.Leaf? ==>
      pt.shape[p] in mem.tables && PageNo(pt.shape[p]) !in mem.pool.free
  {
    SameUpper(pt, pt', ENTRIES);
    FreePagetableInternal(mem, root, 2, pt', mem.tables);
    Given(old(mem.tables), pt', mem.tables, old(mem.pool.free), mem.pool.free, mem.pool.kernelEnd);
  }

  /** No table but the task's own is given back, and no page. */
  lemma DeathLocal(b: View, c: View, d: View)
    requires
      && AllReleased(b, c)
      && d.pages == c.pages
      && d.tables == c.tables - Upper(b.pt)
      && d.free == c.free + Numbers(Upper(b.pt))
    requires d == Unborn(d) && Root in b.pt.shape && b.pt.shape[Root] == b.pt.root
    ensures Local(b, d)
  {
    UpperClaimed(b, ENTRIES);
    assert PageNo(b.pt.root) in Claims(b);
    NoClaims(d);
    forall f | f in b.tables && PageNo(f) !in Claims(b)
      ensures f in d.tables && d.tables[f] == b.tables[f]
    {
      assert forall p :: p in b.pt.shape ==> PageNo(b.pt.shape[p]) in Claims(b);
      assert f !in b.pt.shape.Values;
    }
    forall p | p in b.pages && PageNo(p) !in Claims(b)
      ensures p in d.pages && d.pages[p] == b.pages[p]
    {
      assert forall w :: w in Private(b) && w in b.pt.trans ==> PageNo(b.pt.trans[w].pa) in Claims(b);
    }
  }

  lemma {:induction false} UpperClaimed(b: View, n: nat)
    ensures forall f :: f in Mids(b.pt, n) ==> PageNo(f) in Claims(b)
  {
    if n > 0 {
      UpperClaimed(b, n - 1);
    }
  }

  lemma {:induction false} SameUpper(pt: PageTable, pt': PageTable, n: nat)
    requires pt.shape == pt'.shape
    ensures Mids(pt, n) == Mids(pt', n)
  {
    if n > 0 {
      SameUpper(pt, pt', n - 1);
    }
  }
}

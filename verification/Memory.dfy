/** kernel/virtual_memory.c: page tables built and edited in place, on pages of the buddy
    allocator. */
module Memory {
  import opened Wrappers
  import opened Sv39
  import opened PageTables
  import opened BuddyBlocks
  import opened BuddyThreads
  import opened BuddyPool
  import opened Supply

  const NULL: nat := 0

  /** The pages in use are pages of the pool, and not free. */
  ghost predicate Placed(used: set<nat>, free: set<int>, kernelEnd: int) {
    forall a :: a in used ==> IsFrame(a) && kernelEnd <= PageNo(a) && PageNo(a) !in free
  }

  /** A table stands on the first page of a block of two. */
  ghost predicate InTable(tables: set<nat>, n: int) {
    exists t :: t in tables && (n == PageNo(t) || n == PageNo(t) + 1)
  }

  ghost predicate InPage(pages: set<nat>, n: int) {
    exists p :: p in pages && n == PageNo(p)
  }

  ghost function Unaccounted(kernelEnd: int, free: set<int>, tables: set<nat>, pages: set<nat>): set<int> {
    set n: int | kernelEnd <= n < PAGES && n !in free && !InTable(tables, n) && !InPage(pages, n)
  }

  lemma TableAccounted(kernelEnd: int, free: set<int>, tables: set<nat>, pages: set<nat>, t: nat)
    requires Range(PageNo(t), 1) <= free
    ensures Unaccounted(kernelEnd, free - Range(PageNo(t), 1), tables + {t}, pages)
         == Unaccounted(kernelEnd, free, tables, pages)
  {}

  lemma PageTaken(kernelEnd: int, free: set<int>, tables: set<nat>, pages: set<nat>, p: nat)
    requires PageNo(p) in free
    ensures Unaccounted(kernelEnd, free - {PageNo(p)}, tables, pages + {p})
         == Unaccounted(kernelEnd, free, tables, pages)
  {}

  lemma PageGiven(kernelEnd: int, free: set<int>, tables: set<nat>, pages: set<nat>, p: nat)
    requires p in pages
    ensures Unaccounted(kernelEnd, free + {PageNo(p)}, tables, pages - {p})
         == Unaccounted(kernelEnd, free, tables, pages)
  {}

  /** With the same data pages and nothing unaccounted for, a page can only be lost to a table. */
  lemma LostToTables(kernelEnd: int, free: set<int>, free': set<int>, tables: set<nat>, tables': set<nat>,
                     pages: set<nat>, n: int)
    requires Unaccounted(kernelEnd, free', tables', pages) == Unaccounted(kernelEnd, free, tables, pages)
    requires Placed(pages, free, kernelEnd) && kernelEnd <= n < PAGES && n in free && n !in free'
    ensures InTable(tables', n)
  {
    assert !InPage(pages, n);
    assert n !in Unaccounted(kernelEnd, free, tables, pages);
  }

  /** No two free pages side by side: no room for a table. */
  ghost predicate Barren(free: set<int>) {
    StockOf(free).pairs == 0
  }

  lemma BarrenLess(free: set<int>, less: set<int>)
    requires Barren(free) && less <= free
    ensures Barren(less)
  {
    NoPairs(free);
    forall n
      ensures !StartsPair(less, n)
    {
      assert !StartsPair(free, n);
    }
    NoPairs(less);
  }

  /** How a call ends: 0, -1 for want of memory, -1 because there is nothing to work on, or the kernel panics. */
  datatype Status = Ok | NoMemory | NotMapped | Panic

  class Memory {
    const pool: BuddyPool
    var tables: Tables                 // pages that hold page tables
    var pages: map<nat, seq<nat>>      // pages that hold data, byte by byte

    ghost predicate Valid()
      reads this, pool, pool.link
    {
      && pool.Valid()
      && Placed(tables.Keys, pool.free, pool.kernelEnd)
      && Placed(pages.Keys, pool.free, pool.kernelEnd)
      && tables.Keys !! pages.Keys
      && forall a :: a in pages ==> |pages[a]| == PGSIZE
    }

    /** The pages of the pool that are neither free nor hold a table or data. */
    ghost function Elsewhere(): set<int>
      reads this, pool
    {
      Unaccounted(pool.kernelEnd, pool.free, tables.Keys, pages.Keys)
    }

    /** What can be had for a page table. */
    ghost function MeansFor(pt: PageTable): Means
      reads this, pool
    {
      Means(StockOf(pool.free), pt.shape.Keys)
    }

    constructor (kernelPages: nat)
      requires 1 <= kernelPages <= PAGES
      ensures Valid() && fresh(pool) && fresh(pool.link) && tables == map[] && pages == map[]
      ensures pool.kernelEnd == kernelPages && pool.free == Span(kernelPages, PAGES - kernelPages)
    {
      pool := new BuddyPool(kernelPages);
      tables, pages := map[], map[];
    }

    /** `allocate`, by address. */
    method AllocateFrame(power: nat) returns (a: nat)
      requires Valid()
      modifies pool, pool.link
      ensures Valid()
      ensures a == NULL <==> forall n :: Aligned(n, power) ==> !WhollyFree(old(pool.free), n, power)
      ensures a == NULL ==> pool.free == old(pool.free)
      ensures power <= 1 ==> (a == NULL <==> !Enough(StockOf(old(pool.free)), 1 - power, power))
      ensures power <= 1 && a != NULL ==> StockOf(pool.free) == Spent(StockOf(old(pool.free)), 1 - power, power)
      ensures a != NULL ==> IsFrame(a) && pool.kernelEnd <= PageNo(a) && PageNo(a) in old(pool.free)
      ensures a != NULL ==> PageNo(a) !in pool.free && pool.free == old(pool.free) - Range(PageNo(a), power)
      ensures a != NULL ==> a !in tables && a !in pages && Range(PageNo(a), power) <= old(pool.free)
    {
      var n := TakePages(pool, power);
      if n == NIL {
        return NULL;
      }
      a := PageAddr(n);
      assert PageNo(a) == n;
    }

    // ----- pagetable_entry -----

    /** Finds the leaf table of a virtual address, and makes it if asked to. */
    method PagetableEntry(root: nat, va: nat, alloc: bool, ghost pt: PageTable)
        returns (table: nat, ghost pt': PageTable)
      requires Valid() && va < MAXVA && Represents(tables, pt) && root == pt.root
      modifies this`tables, pool, pool.link
      ensures Valid() && Widened(old(tables), old(pool.free), pt, tables, pool.free, pt')
      ensures table != NULL ==> LeafPath(va) in pt'.shape && table == pt'.shape[LeafPath(va)]
      ensures table == NULL ==> LeafPath(va) !in pt'.shape && (alloc ==> Barren(pool.free))
      ensures alloc ==> MeansFor(pt') == Built(old(MeansFor(pt)), va)
      ensures !alloc || Barren(old(pool.free)) ==>
        tables == old(tables) && pool.free == old(pool.free) && pt' == pt
      ensures Elsewhere() == old(Elsewhere())
    {
      table, pt' := root, pt;
      ghost var path, idle, m := Root, !alloc || Barren(pool.free), MeansFor(pt);
      var level := 2;
      while level > 0
        invariant 0 <= level <= 2 && Valid()
        invariant path == PathAt(va, level) && path in pt'.shape && table == pt'.shape[path]
        invariant Widened(old(tables), old(pool.free), pt, tables, pool.free, pt')
        invariant Elsewhere() == old(Elsewhere())
        invariant alloc ==> MeansFor(pt') == MeansAt(m, va, level)
        invariant idle ==> tables == old(tables) && pool.free == old(pool.free) && pt' == pt
      {
        var next;
        next, pt' := Descend(table, Px(level, va), alloc, path, pt', old(tables), old(pool.free), pt);
        if next == NULL {
          Missing(pt', va, level);
          return NULL, pt';
        }
        table := next;
        path := Child(path, Px(level, va));
        level := level - 1;
      }
    }

    /** One level of the walk. */
    method Descend(table: nat, i: nat, alloc: bool, ghost path: Path, ghost pt: PageTable,
                   ghost t0: Tables, ghost f0: set<int>, ghost p0: PageTable)
        returns (next: nat, ghost pt': PageTable)
      requires Valid() && Widened(t0, f0, p0, tables, pool.free, pt) && (forall f :: f in t0 ==> PageNo(f) !in f0)
      requires path in pt.shape && !path.Leaf? && table == pt.shape[path] && i < ENTRIES
      modifies this`tables, pool, pool.link
      ensures Valid() && Widened(t0, f0, p0, tables, pool.free, pt')
      ensures next != NULL ==> Child(path, i) in pt'.shape && next == pt'.shape[Child(path, i)]
      ensures next == NULL ==> Child(path, i) !in pt'.shape && (alloc ==> Barren(pool.free))
      ensures alloc ==> MeansFor(pt') == OneTable(old(MeansFor(pt)), Child(path, i))
      ensures !alloc || Barren(old(pool.free)) ==>
        tables == old(tables) && pool.free == old(pool.free) && pt' == pt
      ensures Elsewhere() == old(Elsewhere())
    {
      assert Points(pt.shape, tables[table][i], Child(path, i));
      if IsValid(tables[table][i]) {
        return Target(tables[table][i]), pt;
      }
      if !alloc {
        return NULL, pt;
      }
      ghost var t1, f1 := tables, pool.free;
      next, pt' := NewTable(table, i, path, pt);
      WidenedTwice(t0, f0, p0, t1, f1, pt, tables, pool.free, pt');
    }

    /** A cleared table from the pool, hung into entry `i` of `table`. */
    method NewTable(table: nat, i: nat, ghost path: Path, ghost pt: PageTable) returns (page: nat, ghost pt': PageTable)
      requires
        && Valid()
        && Represents(tables, pt)
        && path in pt.shape
        && !path.Leaf?
        && table == pt.shape[path]
        && i < ENTRIES
      requires !IsValid(tables[table][i])
      modifies this`tables, pool, pool.link
      ensures Valid() && Widened(old(tables), old(pool.free), pt, tables, pool.free, pt')
      ensures page == NULL <==> Barren(old(pool.free))
      ensures MeansFor(pt') == OneTable(old(MeansFor(pt)), Child(path, i))
      ensures page == NULL ==> pt' == pt && tables == old(tables) && pool.free == old(pool.free)
      ensures page != NULL ==> pt' == pt.(shape := pt.shape[Child(path, i) := page])
      ensures Elsewhere() == old(Elsewhere())
    {
      assert Child(path, i) !in pt.shape;
      page := AllocateFrame(1);
      pt' := pt;
      if page == NULL {
        return;
      }
      pt' := pt.(shape := pt.shape[Child(path, i) := page]);
      assert pt'.shape.Keys == pt.shape.Keys + {Child(path, i)};
      TableAccounted(pool.kernelEnd, old(pool.free), tables.Keys, pages.Keys, page);
      AddToTree(table, i, page, path, pt, old(pool.free));
    }

    method AddToTree(table: nat, i: nat, page: nat, ghost path: Path, ghost pt: PageTable, ghost f0: set<int>)
      requires Valid() && Represents(tables, pt) && path in pt.shape && !path.Leaf? && table == pt.shape[path]
      requires i < ENTRIES && !IsValid(tables[table][i]) && Child(path, i) !in pt.shape
      requires page !in tables && page !in pages && PageNo(page) in f0 && pool.free <= f0
      requires IsFrame(page) && pool.kernelEnd <= PageNo(page) && PageNo(page) !in pool.free
      modifies this`tables
      ensures Valid() && tables.Keys == old(tables).Keys + {page}
      ensures Widened(old(tables), f0, pt, tables, pool.free, pt.(shape := pt.shape[Child(path, i) := page]))
    {
      AddTableRepresents(tables, pt, path, i, page);
      AddTableGrows(tables, f0, pool.free, pt, path, i, page);
      HangTable(table, i, page);
    }

    /** `memset(page, 0, PGSIZE); *pte = PA2PTE(page) | PTE_V;` */
    method HangTable(table: nat, i: nat, page: nat)
      requires Valid() && table in tables && i < |tables[table]| && page !in tables && page !in pages
      requires IsFrame(page) && pool.kernelEnd <= PageNo(page) && PageNo(page) !in pool.free
      modifies this`tables
      ensures Valid() && tables == WithTable(old(tables), table, i, page)
    {
      var row: seq<nat> := tables[table];
      tables := tables[page := Zeros()];
      tables := tables[table := row[i := Pte(page, 0)]];
    }

    // ----- map_page, unmap_page, physical_address -----

    method MapPage(root: nat, va: nat, pa: nat, permission: nat, ghost pt: PageTable)
        returns (status: Status, ghost pt': PageTable)
      requires Valid() && Represents(tables, pt) && root == pt.root && permission < 1024
      modifies this`tables, pool, pool.link
      ensures Valid()
      ensures status.Panic? <==> va >= MAXVA || va / PGSIZE in pt.trans
      ensures !status.NotMapped?
      ensures status.Ok? ==> Edited(old(tables), old(pool.free), pt, tables, pool.free, pt',
                                    va / PGSIZE, Some(Entry(RoundDown(pa), WithValid(permission))))
      ensures !status.Ok? ==> Widened(old(tables), old(pool.free), pt, tables, pool.free, pt')
      ensures status.NoMemory? ==> Barren(pool.free) && Hole(pt', va / PGSIZE)
      ensures !status.Panic? ==> MeansFor(pt') == Built(old(MeansFor(pt)), RoundDown(va))
      ensures status.Ok? ==> HasLeaf(pt', va / PGSIZE)
      ensures Barren(old(pool.free)) ==> pt'.shape == pt.shape
      ensures Elsewhere() == old(Elsewhere())
    {
      pt' := pt;
      if va >= MAXVA {
        return Panic, pt';
      }
      var v := va / PGSIZE;
      var pte := Pte(RoundDown(pa), permission);
      DecodePte(pa, permission);
      status, pt' := MapEntry(root, v, pte, pt);
    }

    /** Makes the leaf table if needed, and writes the entry if it was not valid. */
    method MapEntry(root: nat, v: nat, pte: nat, ghost pt: PageTable) returns (status: Status, ghost pt': PageTable)
      requires Valid() && Represents(tables, pt) && root == pt.root && v < VPNS
      modifies this`tables, pool, pool.link
      ensures Valid()
      ensures status.Panic? <==> v in pt.trans
      ensures !status.NotMapped?
      ensures status.Ok? ==> Edited(old(tables), old(pool.free), pt, tables, pool.free, pt', v, Decode(pte))
      ensures !status.Ok? ==> Widened(old(tables), old(pool.free), pt, tables, pool.free, pt')
      ensures status.NoMemory? ==> Barren(pool.free) && Hole(pt', v)
      ensures MeansFor(pt') == Built(old(MeansFor(pt)), v * PGSIZE)
      ensures status.Ok? ==> HasLeaf(pt', v)
      ensures Barren(old(pool.free)) ==> pt'.shape == pt.shape
      ensures Elsewhere() == old(Elsewhere())
    {
      var table;
      assert At(tables, pt, v) == Look(pt.trans, v);
      table, pt' := PagetableEntry(root, v * PGSIZE, true, pt);
      assert At(tables, pt', v) == Look(pt.trans, v);
      if table == NULL {
        return NoMemory, pt';
      }
      if IsValid(tables[table][Px(0, v * PGSIZE)]) {
        return Panic, pt';
      }
      pt' := WriteEntry(table, v, pte, pt', old(tables), old(pool.free), pt);
      return Ok, pt';
    }

    /** `*pte = value` for the entry of virtual page `v`. */
    method WriteEntry(table: nat, v: nat, pte: nat, ghost pt: PageTable, ghost t0: Tables, ghost f0: set<int>,
                      ghost p0: PageTable)
        returns (ghost pt': PageTable)
      requires Valid() && v < VPNS && LeafPath(v * PGSIZE) in pt.shape && table == pt.shape[LeafPath(v * PGSIZE)]
      requires Widened(t0, f0, p0, tables, pool.free, pt) && (forall f :: f in t0 ==> PageNo(f) !in f0)
      modifies this`tables
      ensures Valid() && Edited(t0, f0, p0, tables, pool.free, pt', v, Decode(pte))
      ensures tables.Keys == old(tables).Keys && pt' == pt.(trans := Replace(pt.trans, v, Decode(pte)))
    {
      ghost var t1 := tables;
      var i := Px(0, v * PGSIZE);
      SetEntryRepresents(tables, pt, v, pte);
      var row: seq<nat> := tables[table];
      tables := tables[table := row[i := pte]];
      pt' := pt.(trans := Replace(pt.trans, v, Decode(pte)));
      assert table in pt.shape.Values;
      assert Grew(t1, pool.free, pt, tables, pool.free, pt');
      GrewTwice(t0, f0, p0, t1, pool.free, pt, tables, pool.free, pt');
    }

    /** Ok for a page that is mapped with more than the valid bit. */
    method UnmapPage(root: nat, va: nat, ghost pt: PageTable) returns (status: Status, ghost pt': PageTable)
      requires Valid() && Represents(tables, pt) && root == pt.root
      modifies this`tables
      ensures Valid() && !status.NoMemory? && tables.Keys == old(tables).Keys
      ensures status.Ok? <==> va / PGSIZE in pt.trans && pt.trans[va / PGSIZE].flags != PTE_V
      ensures status.Panic? <==> Stuck(pt, va / PGSIZE)
      ensures status.NotMapped? ==> va / PGSIZE !in pt.trans
      ensures status.Ok? ==> Edited(old(tables), pool.free, pt, tables, pool.free, pt', va / PGSIZE, None)
      ensures status.Ok? ==> pt'.shape == pt.shape
      ensures !status.Ok? ==> tables == old(tables) && pt' == pt
    {
      pt' := pt;
      if va >= MAXVA {
        return Panic, pt';
      }
      var v := va / PGSIZE;
      assert At(tables, pt, v) == Look(pt.trans, v);
      var table := FindLeaf(root, v * PGSIZE, pt);
      if table == NULL {
        return NotMapped, pt';
      }
      var pte := tables[table][Px(0, v * PGSIZE)];
      if !IsValid(pte) || Flags(pte) == PTE_V {
        return Panic, pt';
      }
      pt' := WriteEntry(table, v, 0, pt, tables, pool.free, pt);
      return Ok, pt';
    }

    /** `pagetable_entry` without allocation only reads. */
    method FindLeaf(root: nat, va: nat, ghost pt: PageTable) returns (table: nat)
      requires Valid() && va < MAXVA && Represents(tables, pt) && root == pt.root
      ensures table != NULL <==> LeafPath(va) in pt.shape
      ensures table != NULL ==> table == pt.shape[LeafPath(va)]
    {
      table := root;
      ghost var path := Root;
      var level := 2;
      while level > 0
        invariant 0 <= level <= 2 && path == PathAt(va, level) && path in pt.shape && table == pt.shape[path]
      {
        var i := Px(level, va);
        assert Points(pt.shape, tables[table][i], Child(path, i));
        if !IsValid(tables[table][i]) {
          Missing(pt, va, level);
          return NULL;
        }
        table := Target(tables[table][i]);
        path := Child(path, i);
        level := level - 1;
      }
    }

    /** The physical address behind a virtual one, or 0. */
    method PhysicalAddress(root: nat, va: nat, ghost pt: PageTable) returns (pa: nat)
      requires Valid() && va < MAXVA && Represents(tables, pt) && root == pt.root
      ensures pa == if va / PGSIZE in pt.trans then pt.trans[va / PGSIZE].pa + va % PGSIZE else NULL
    {
      TransIsAt(tables, pt, va);
      var table := FindLeaf(root, va, pt);
      if table == NULL || !IsValid(tables[table][Px(0, va)]) {
        return NULL;
      }
      return Target(tables[table][Px(0, va)]) + va % PGSIZE;
    }

    /** `PTE_FLAGS(*pagetable_entry(pagetable, va, 0))` of a mapped page. */
    method FlagsOf(root: nat, va: nat, ghost pt: PageTable) returns (flags: nat)
      requires Valid() && va < MAXVA && Represents(tables, pt) && root == pt.root && va / PGSIZE in pt.trans
      ensures flags == pt.trans[va / PGSIZE].flags && flags < 1024 && WithValid(flags) == flags
    {
      TransIsAt(tables, pt, va);
      var table := FindLeaf(root, va, pt);
      return Flags(tables[table][Px(0, va)]);
    }

    /** `create_void_pagetable`. */
    method CreateVoidPagetable() returns (root: nat, ghost pt: PageTable)
      requires Valid()
      modifies this`tables, pool, pool.link
      ensures Valid() && Elsewhere() == old(Elsewhere())
      ensures root == NULL <==> !Enough(StockOf(old(pool.free)), 0, 1)
      ensures root != NULL ==> StockOf(pool.free) == Spent(StockOf(old(pool.free)), 0, 1)
      ensures root == NULL ==> tables == old(tables) && pool.free == old(pool.free)
      ensures root != NULL ==>
        root !in old(tables) && tables == old(tables)[root := Zeros()] && PageNo(root) in old(pool.free)
      ensures root != NULL ==> pt == PageTable(root, map[Root := root], map[]) && Represents(tables, pt)
      ensures root != NULL ==> PageNo(root) + 1 in old(pool.free)
      ensures root != NULL ==> pool.free == old(pool.free) - {PageNo(root), PageNo(root) + 1}
    {
      pt := PageTable(NULL, map[], map[]);
      root := AllocateFrame(1);
      if root != NULL {
        Pairs(PageNo(root));
        TableAccounted(pool.kernelEnd, old(pool.free), tables.Keys, pages.Keys, root);
        tables := tables[root := Zeros()];
        assert tables.Keys == old(tables).Keys + {root};
        pt := PageTable(root, map[Root := root], map[]);
        EmptyRepresents(tables, root);
      }
    }

    lemma Pairs(n: int)
      ensures Range(n, 1) == {n, n + 1}
    {
      Single(n);
    }

    // ----- Kernel stacks -----

    /** `allocate(0)` for a page of the kernel's own. */
    method AllocateKernelPage() returns (page: nat)
      requires Valid()
      modifies pool, pool.link
      ensures Valid()
      ensures page == NULL <==> !Enough(StockOf(old(pool.free)), 1, 0)
      ensures page == NULL ==> pool.free == old(pool.free) && Elsewhere() == old(Elsewhere())
      ensures page != NULL ==> StockOf(pool.free) == Spent(StockOf(old(pool.free)), 1, 0)
      ensures page != NULL ==> PageNo(page) in old(pool.free) && pool.free == old(pool.free) - {PageNo(page)}
      ensures page != NULL ==> IsFrame(page) && pool.kernelEnd <= PageNo(page)
      ensures page != NULL ==> old(Elsewhere()) <= Elsewhere() <= old(Elsewhere()) + {PageNo(page)}
    {
      hide StockOf;
      page := AllocateFrame(0);
      if page != NULL {
        Single(PageNo(page));
      }
    }

    /** `deallocate` of such a page. */
    method ReleaseKernelPage(page: nat)
      requires Valid() && IsFrame(page) && pool.kernelEnd <= PageNo(page) && PageNo(page) !in pool.free
      requires forall a :: a in tables || a in pages ==> PageNo(a) != PageNo(page)
      modifies pool, pool.link
      ensures Valid() && pool.free == old(pool.free) + {PageNo(page)}
    {
      GivePage(pool, PageNo(page));
    }

    // ----- Data pages -----

    /** `allocate_for_user(0)`: a cleared data page. */
    method AllocateForUser() returns (page: nat)
      requires Valid()
      modifies this`pages, pool, pool.link
      ensures Valid() && pool.free <= old(pool.free)
      ensures page == NULL <==> !Enough(StockOf(old(pool.free)), 1, 0)
      ensures page != NULL ==> StockOf(pool.free) == Spent(StockOf(old(pool.free)), 1, 0)
      ensures page == NULL ==> pages == old(pages) && pool.free == old(pool.free)
      ensures page != NULL ==> pages == old(pages)[page := ZeroPage()]
      ensures page != NULL ==> page !in old(pages) && page !in tables && IsFrame(page) && PageNo(page) in old(pool.free)
      ensures page != NULL ==> pool.free == old(pool.free) - {PageNo(page)}
      ensures Elsewhere() == old(Elsewhere())
    {
      page := AllocateFrame(0);
      if page != NULL {
        assert Range(PageNo(page), 0) == {PageNo(page)};
        PageTaken(pool.kernelEnd, old(pool.free), tables.Keys, pages.Keys, page);
        assert pages[page := ZeroPage()].Keys == pages.Keys + {page};
        pages := pages[page := ZeroPage()];
      }
    }

    /** `allocate(1)`, seen as two pages. */
    method AllocatePairFrames() returns (page: nat)
      requires Valid()
      modifies pool, pool.link
      ensures Valid()
      ensures page == NULL ==> pool.free == old(pool.free)
      ensures page == NULL <==> !Enough(StockOf(old(pool.free)), 0, 1)
      ensures page != NULL ==> StockOf(pool.free) == Spent(StockOf(old(pool.free)), 0, 1)
      ensures page != NULL ==>
        && IsFrame(page) && IsFrame(page + PGSIZE)
        && page !in tables && page !in pages && page + PGSIZE !in tables && page + PGSIZE !in pages
      ensures page != NULL ==>
        && PageNo(page) in old(pool.free) && PageNo(page + PGSIZE) in old(pool.free)
        && PageNo(page) != PageNo(page + PGSIZE)
        && pool.free == old(pool.free) - {PageNo(page)} - {PageNo(page + PGSIZE)}
    {
      ghost var free := pool.free;
      assert Placed(tables.Keys, free, pool.kernelEnd) && Placed(pages.Keys, free, pool.kernelEnd);
      page := AllocateFrame(1);
      if page != NULL {
        PairFacts(page, free, tables.Keys, pages.Keys, pool.kernelEnd);
      }
    }

    /** `allocate_for_user(1)`: two cleared data pages side by side. */
    method AllocatePair() returns (page: nat)
      requires Valid()
      modifies this`pages, pool, pool.link
      ensures Valid() && pool.free <= old(pool.free)
      ensures page == NULL ==> pages == old(pages) && pool.free == old(pool.free)
      ensures page != NULL ==> pages == old(pages)[page := ZeroPage()][page + PGSIZE := ZeroPage()]
      ensures page != NULL ==> page !in old(pages) && page + PGSIZE !in old(pages)
      ensures page != NULL ==> PageNo(page) in old(pool.free) && PageNo(page + PGSIZE) in old(pool.free)
      ensures page != NULL ==> page % PGSIZE == 0
      ensures page == NULL <==> !Enough(StockOf(old(pool.free)), 0, 1)
      ensures page != NULL ==> StockOf(pool.free) == Spent(StockOf(old(pool.free)), 0, 1)
      ensures Elsewhere() == old(Elsewhere())
    {
      page := AllocatePairFrames();
      if page == NULL {
        return;
      }
      ghost var f0, f1 := old(pool.free), old(pool.free) - {PageNo(page)};
      PageTaken(pool.kernelEnd, f0, tables.Keys, pages.Keys, page);
      PageTaken(pool.kernelEnd, f1, tables.Keys, pages.Keys + {page}, page + PGSIZE);
      pages := pages[page := ZeroPage()][page + PGSIZE := ZeroPage()];
      assert pages.Keys == old(pages).Keys + {page} + {page + PGSIZE};
    }

    /** `deallocate(page, 0)` of a data page. */
    method ReleasePage(page: nat)
      requires Valid() && page in pages
      modifies this`pages, pool, pool.link
      ensures Valid() && pages == old(pages) - {page}
      ensures pool.free == old(pool.free) + {PageNo(page)}
      ensures Elsewhere() == old(Elsewhere())
    {
      assert forall a :: a in tables || (a in pages && a != page) ==> PageNo(a) != PageNo(page) by { SameNumber(page); }
      GivePage(pool, PageNo(page));
      PageGiven(pool.kernelEnd, old(pool.free), tables.Keys, pages.Keys, page);
      assert (pages - {page}).Keys == pages.Keys - {page};
      pages := pages - {page};
    }

    /** `deallocate(table, 0)`: the first page of the table's block. */
    method ReleaseTable(table: nat)
      requires Valid() && table in tables
      modifies this`tables, pool, pool.link
      ensures Valid() && tables == old(tables) - {table}
      ensures pool.free == old(pool.free) + {PageNo(table)}
    {
      assert forall a :: (a in tables && a != table) || a in pages ==> PageNo(a) != PageNo(table) by {
        SameNumber(table);
      }
      GivePage(pool, PageNo(table));
      tables := tables - {table};
    }

    method MapPageForUser(root: nat, va: nat, src: seq<nat>, size: nat, permission: nat, ghost pt: PageTable)
        returns (status: Status, ghost pt': PageTable, ghost frame: nat)
      requires Valid() && Represents(tables, pt) && root == pt.root && permission < 1024
      requires size <= |src| && size <= PGSIZE
      modifies this, pool, pool.link
      ensures Valid() && !status.NotMapped?
      ensures status.Ok? ==>
        && Edited(old(tables), old(pool.free), pt, tables, pool.free, pt', va / PGSIZE,
                  Some(Entry(frame, WithValid(permission))))
        && frame !in old(pages) && PageNo(frame) in old(pool.free)
        && pages == old(pages)[frame := src[..size] + ZeroPage()[size..]]
      ensures status.NoMemory? ==>
        pages == old(pages) && Widened(old(tables), old(pool.free), pt, tables, pool.free, pt')
      ensures status.Panic? ==> va >= MAXVA || va / PGSIZE in pt.trans
      ensures status.Ok? ==> va < MAXVA && va / PGSIZE !in pt.trans
      ensures !status.Panic? ==> (status.Ok? <==> CanMap(old(MeansFor(pt)), RoundDown(va)))
      ensures status.Ok? ==> MeansFor(pt') == WithPage(old(MeansFor(pt)), RoundDown(va))
      ensures Elsewhere() == old(Elsewhere())
    {
      pt', frame := pt, NULL;
      var page := CopyToNewPage(src, size);
      if page == NULL {
        return NoMemory, pt', frame;
      }
      frame := page;
      assert pages - {page} == old(pages);
      status, pt' := MapNewPage(root, va, page, permission, pt, old(pool.free));
    }

    /** A fresh page with the first `size` bytes of the source and zeros behind them. */
    method CopyToNewPage(src: seq<nat>, size: nat) returns (page: nat)
      requires Valid() && size <= |src| && size <= PGSIZE
      modifies this`pages, pool, pool.link
      ensures Valid() && (page == NULL <==> !Enough(StockOf(old(pool.free)), 1, 0))
      ensures page != NULL ==> StockOf(pool.free) == Spent(StockOf(old(pool.free)), 1, 0)
      ensures page == NULL ==> pages == old(pages) && pool.free == old(pool.free)
      ensures page != NULL ==>
        && page !in old(pages) && IsFrame(page) && PageNo(page) in old(pool.free)
        && pages == old(pages)[page := src[..size] + ZeroPage()[size..]]
        && pool.free == old(pool.free) - {PageNo(page)}
      ensures Elsewhere() == old(Elsewhere())
    {
      page := AllocateForUser();
      if page != NULL {
        assert pages[page := src[..size] + ZeroPage()[size..]].Keys == pages.Keys;
        pages := pages[page := src[..size] + ZeroPage()[size..]];
      }
    }

    /** Maps a page that was just taken; gives it back when there is no memory for a table. */
    method MapNewPage(root: nat, va: nat, page: nat, permission: nat, ghost pt: PageTable, ghost f0: set<int>)
        returns (status: Status, ghost pt': PageTable)
      requires Valid() && Represents(tables, pt) && root == pt.root && permission < 1024
      requires page in pages && PageNo(page) in f0 && pool.free <= f0
      modifies this, pool, pool.link
      ensures Valid() && !status.NotMapped?
      ensures status.Panic? <==> va >= MAXVA || va / PGSIZE in pt.trans
      ensures !status.Panic? ==> (status.Ok? <==> Reached(old(MeansFor(pt)), RoundDown(va)))
      ensures status.Ok? ==> pages == old(pages) && MeansFor(pt') == Built(old(MeansFor(pt)), RoundDown(va))
      ensures status.Ok? ==>
        Edited(old(tables), f0, pt, tables, pool.free, pt', va / PGSIZE, Some(Entry(page, WithValid(permission))))
      ensures status.NoMemory? ==> pages == old(pages) - {page} && Widened(old(tables), f0, pt, tables, pool.free, pt')
      ensures Elsewhere() == old(Elsewhere())
    {
      status, pt' := MapWithin(root, va, page, permission, pt, f0);
      if status.NoMemory? {
        ReleaseNewPage(page, pt', old(tables), f0, pt);
      }
    }

    method ReleaseNewPage(page: nat, ghost pt: PageTable, ghost t0: Tables, ghost f0: set<int>, ghost p0: PageTable)
      requires Valid() && Widened(t0, f0, p0, tables, pool.free, pt) && page in pages && PageNo(page) in f0
      modifies this`pages, pool, pool.link
      ensures Valid() && Widened(t0, f0, p0, tables, pool.free, pt) && pages == old(pages) - {page}
      ensures Elsewhere() == old(Elsewhere())
    {
      GrewBounds(t0, f0, p0, tables, pool.free, pt, f0, pool.free + {PageNo(page)});
      ReleasePage(page);
    }

    method MapWithin(root: nat, va: nat, page: nat, permission: nat, ghost pt: PageTable, ghost f0: set<int>)
        returns (status: Status, ghost pt': PageTable)
      requires Valid() && Represents(tables, pt) && root == pt.root && permission < 1024
      requires page in pages && pool.free <= f0
      modifies this`tables, pool, pool.link
      ensures Valid() && !status.NotMapped? && pool.free <= f0
      ensures status.Panic? <==> va >= MAXVA || va / PGSIZE in pt.trans
      ensures !status.Panic? ==> (status.Ok? <==> Reached(old(MeansFor(pt)), RoundDown(va)))
      ensures status.Ok? ==> MeansFor(pt') == Built(old(MeansFor(pt)), RoundDown(va))
      ensures status.Ok? ==>
        Edited(old(tables), f0, pt, tables, pool.free, pt', va / PGSIZE, Some(Entry(page, WithValid(permission))))
      ensures status.NoMemory? ==> Widened(old(tables), f0, pt, tables, pool.free, pt')
      ensures Elsewhere() == old(Elsewhere())
    {
      ghost var f1 := pool.free;
      assert RoundDown(page) == page;
      status, pt' := MapPage(root, va, page, permission, pt);
      if !status.Panic? {
        GrewBounds(old(tables), f1, pt, tables, pool.free, pt', f0, pool.free);
      }
    }
  }

  lemma RootedTables(tables: Tables, pt: PageTable)
    requires Represents(tables, pt)
    ensures Rooted(pt.shape.Keys)
  {
    forall p | p in pt.shape && p.Leaf?
      ensures Mid(p.i) in pt.shape
    {
      assert HasParent(pt.shape, p);
    }
  }

  /** The means when `level` levels are left. */
  function MeansAt(m: Means, va: nat, level: nat): Means {
    if level == 0 then Built(m, va) else if level == 1 then OneTable(m, Mid(Px(2, va))) else m
  }

  /** The table the walk has reached when `level` levels are left. */
  function PathAt(va: nat, level: nat): Path {
    if level == 0 then LeafPath(va) else if level == 1 then Mid(Px(2, va)) else Root
  }

  lemma DecodePte(pa: nat, permission: nat)
    requires permission < 1024
    ensures Decode(Pte(RoundDown(pa), permission)) == Some(Entry(RoundDown(pa), WithValid(permission)))
  {
    EntryRoundTrip(RoundDown(pa), permission);
  }

  lemma Missing(pt: PageTable, va: nat, level: nat)
    requires 1 <= level <= 2 && Child(PathAt(va, level), Px(level, va)) !in pt.shape
    requires forall p :: p in pt.shape ==> HasParent(pt.shape, p)
    ensures LeafPath(va) !in pt.shape
  {}

  function ZeroPage(): (z: seq<nat>)
    ensures |z| == PGSIZE && forall i :: 0 <= i < PGSIZE ==> z[i] == 0
  {
    seq(PGSIZE, _ => 0)
  }

  /** Different pages have different page numbers. */
  lemma SameNumber(page: nat)
    requires IsFrame(page)
    ensures forall a :: IsFrame(a) && a != page ==> PageNo(a) != PageNo(page)
  {}

  lemma PairFacts(page: nat, free: set<int>, tables: set<nat>, pages: set<nat>, kernelEnd: int)
    requires IsFrame(page) && Range(PageNo(page), 1) <= free && (forall n :: n in free ==> n < PAGES)
    requires Placed(tables, free, kernelEnd) && Placed(pages, free, kernelEnd)
    ensures PageNo(page + PGSIZE) == PageNo(page) + 1 && PageNo(page) in free && PageNo(page + PGSIZE) in free
    ensures free - Range(PageNo(page), 1) == free - {PageNo(page)} - {PageNo(page + PGSIZE)}
    ensures IsFrame(page + PGSIZE) && page + PGSIZE !in tables && page + PGSIZE !in pages
  {
    assert Range(PageNo(page), 1) == {PageNo(page), PageNo(page + PGSIZE)};
  }

  lemma StockTaken(free: set<int>, power: nat, n: int, level: nat)
    requires power <= 1 && BestFit(free, power, n, level) && Aligned(n, power) && WhollyFree(free, n, power)
    ensures StockOf(free - Range(n, power)) == Spent(StockOf(free), 1 - power, power)
  {
    if power == 0 {
      Single(n);
      PageRequest(free, n, level);
    } else {
      PairRequest(free, n);
    }
  }

  /** `allocate`, as far as its callers look. */
  method TakePages(pool: BuddyPool, power: nat) returns (n: int)
    requires pool.Valid()
    modifies pool, pool.link
    ensures pool.Valid()
    ensures n == NIL <==> forall p :: Aligned(p, power) ==> !WhollyFree(old(pool.free), p, power)
    ensures n == NIL ==> pool.free == old(pool.free)
    ensures power <= 1 ==> (n == NIL <==> !Enough(StockOf(old(pool.free)), 1 - power, power))
    ensures power <= 1 && n != NIL ==> StockOf(pool.free) == Spent(StockOf(old(pool.free)), 1 - power, power)
    ensures n != NIL ==> pool.kernelEnd <= n < PAGES && n in old(pool.free) && n !in pool.free
    ensures n != NIL ==> pool.free == old(pool.free) - Range(n, power) && Range(n, power) <= old(pool.free)
  {
    ghost var free := pool.free;
    Refused(free);
    n := pool.Allocate(power);
    assert n in Range(n, power);
    if n != NIL && power <= 1 {
      ghost var level: nat :| BestFit(free, power, n, level);
      StockTaken(free, power, n, level);
    }
  }

  /** `deallocate` of one page. */
  method GivePage(pool: BuddyPool, n: int)
    requires pool.Valid() && pool.kernelEnd <= n < PAGES && n !in pool.free
    modifies pool, pool.link
    ensures pool.Valid() && pool.free == old(pool.free) + {n}
  {
    assert Range(n, 0) == {n};
    pool.Deallocate(n, 0);
  }
}

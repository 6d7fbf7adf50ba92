/** Three-level page tables as they lie in physical memory (section 4.4 of the RISC-V
    Privileged Architecture, version 1.12), and the partial map they stand for. */
module PageTables {
  import opened Wrappers
  import opened Sv39

  /** The pages of physical memory that are used as tables, by address. */
  type Tables = map<nat, seq<nat>>

  datatype Entry = Entry(pa: nat, flags: nat)

  /** The place of a table in the tree: the root, entry `i` of the root, and so on. */
  datatype Path = Root | Mid(i: nat) | Leaf(i: nat, j: nat)

  /** Virtual page number to physical page and flags. */
  type Translation = map<nat, Entry>

  /** A page table: the address of its root, where in the tree its tables are, and the partial
      map it stands for. */
  datatype PageTable = PageTable(root: nat, shape: map<Path, nat>, trans: Translation)

  function Child(p: Path, i: nat): Path
    requires !p.Leaf?
  {
    match p
    case Root => Mid(i)
    case Mid(a) => Leaf(a, i)
  }

  ghost predicate HasParent(shape: map<Path, nat>, p: Path) {
    match p
    case Root => true
    case Mid(i) => i < ENTRIES && Root in shape
    case Leaf(i, j) => j < ENTRIES && Mid(i) in shape
  }

  /** The entry says whether the child exists, and where it is. */
  ghost predicate Points(shape: map<Path, nat>, pte: nat, child: Path) {
    && (IsValid(pte) <==> child in shape)
    && (child in shape ==> Target(pte) == shape[child])
  }

  /** The tables form a tree of distinct pages. */
  ghost predicate Tree(tables: Tables, pt: PageTable) {
    && Root in pt.shape && pt.shape[Root] == pt.root
    && (forall p :: p in pt.shape ==> HasParent(pt.shape, p))
    && (forall p :: p in pt.shape ==> pt.shape[p] in tables && |tables[pt.shape[p]]| == ENTRIES)
    && (forall p, q :: p in pt.shape && q in pt.shape && pt.shape[p] == pt.shape[q] ==> p == q)
    && (forall p, i {:trigger Child(p, i)} :: p in pt.shape && !p.Leaf? && 0 <= i < ENTRIES ==>
         Points(pt.shape, tables[pt.shape[p]][i], Child(p, i)))
  }

  function LeafPath(va: nat): Path {
    Leaf(Px(2, va), Px(1, va))
  }

  function Decode(pte: nat): Option<Entry> {
    if IsValid(pte) then Some(Entry(Target(pte), Flags(pte))) else None
  }

  /** The partial map: which page and flags a virtual address has. */
  ghost function Trans(tables: Tables, pt: PageTable, va: nat): Option<Entry>
    requires Tree(tables, pt)
  {
    var p := LeafPath(va);
    if p in pt.shape then Decode(tables[pt.shape[p]][Px(0, va)]) else None
  }

  const VPNS: nat := 0x400_0000        // virtual pages below MAXVA

  /** The same by virtual page number. */
  ghost function At(tables: Tables, pt: PageTable, v: nat): Option<Entry>
    requires Tree(tables, pt)
  {
    Trans(tables, pt, v * PGSIZE)
  }

  /** The tables are a tree, and translate as `pt.trans` says. */
  ghost predicate Represents(tables: Tables, pt: PageTable) {
    && Tree(tables, pt)
    && (forall v :: v in pt.trans ==> v < VPNS)
    && forall v: nat {:trigger At(tables, pt, v)} :: v < VPNS ==> At(tables, pt, v) == Look(pt.trans, v)
  }

  function Look(trans: Translation, v: nat): Option<Entry> {
    if v in trans then Some(trans[v]) else None
  }

  /** All addresses of a page are translated alike. */
  lemma TransIsAt(tables: Tables, pt: PageTable, va: nat)
    requires Tree(tables, pt)
    ensures Trans(tables, pt, va) == At(tables, pt, va / PGSIZE)
  {
    SameIndices(va, va / PGSIZE * PGSIZE);
  }

  // ----- The walk of the hardware, and of `physical_address` -----

  function Step(tables: Tables, table: nat, i: nat): Option<nat> {
    if table in tables && i < |tables[table]| && IsValid(tables[table][i]) then Some(Target(tables[table][i])) else None
  }

  /** Follows the entries from the root, as section 4.4.1 prescribes for 4 KiB pages. */
  function Walk(tables: Tables, root: nat, va: nat): Option<Entry> {
    match Step(tables, root, Px(2, va))
    case None => None
    case Some(mid) =>
      match Step(tables, mid, Px(1, va))
      case None => None
      case Some(leaf) => if leaf in tables && |tables[leaf]| == ENTRIES then Decode(tables[leaf][Px(0, va)]) else None
  }

  /** The walk computes the map. */
  lemma WalkIsTrans(tables: Tables, pt: PageTable, va: nat)
    requires Tree(tables, pt)
    ensures Walk(tables, pt.root, va) == Trans(tables, pt, va)
  {
    var mid := Child(Root, Px(2, va));
    assert LeafPath(va) in pt.shape ==> HasParent(pt.shape, LeafPath(va));
    if mid in pt.shape {
      assert Child(mid, Px(1, va)) == LeafPath(va);
    }
  }

  /** The hardware sees the partial map. */
  lemma WalkIsMap(tables: Tables, pt: PageTable, va: nat)
    requires Represents(tables, pt) && va < VPNS * PGSIZE
    ensures Walk(tables, pt.root, va) == Look(pt.trans, va / PGSIZE)
  {
    WalkIsTrans(tables, pt, va);
    TransIsAt(tables, pt, va);
  }

  // ----- Edits -----

  function Zeros(): (z: seq<nat>)
    ensures |z| == ENTRIES && forall i :: 0 <= i < ENTRIES ==> z[i] == 0
  {
    seq(ENTRIES, _ => 0)
  }

  /** A cleared root table maps nothing. */
  lemma EmptyRepresents(tables: Tables, root: nat)
    requires root in tables && tables[root] == Zeros()
    ensures Represents(tables, PageTable(root, map[Root := root], map[]))
  {}

  /** A cleared page hung into a free entry of a table. */
  function WithTable(tables: Tables, table: nat, i: nat, page: nat): Tables
    requires table in tables && i < |tables[table]|
  {
    var row: seq<nat> := tables[table];
    tables[page := Zeros()][table := row[i := Pte(page, 0)]]
  }

  lemma AddTable(tables: Tables, pt: PageTable, p: Path, i: nat, page: nat)
    requires Tree(tables, pt) && p in pt.shape && !p.Leaf? && i < ENTRIES && Child(p, i) !in pt.shape
    requires page !in tables && page % PGSIZE == 0
    ensures Tree(WithTable(tables, pt.shape[p], i, page), pt.(shape := pt.shape[Child(p, i) := page]))
  {
    var tables' := WithTable(tables, pt.shape[p], i, page);
    var pt' := pt.(shape := pt.shape[Child(p, i) := page]);
    EntryRoundTrip(page, 0);
    forall q, j {:trigger Child(q, j)} | q in pt'.shape && !q.Leaf? && 0 <= j < ENTRIES
      ensures Points(pt'.shape, tables'[pt'.shape[q]][j], Child(q, j))
    {
      if q == Child(p, i) {
        assert tables'[pt'.shape[q]][j] == 0;
        assert Child(q, j) in pt.shape ==> HasParent(pt.shape, Child(q, j));
      } else {
        assert Points(pt.shape, tables[pt.shape[q]][j], Child(q, j));
      }
    }
  }

  /** A new table changes no translation. */
  lemma AddTableRepresents(tables: Tables, pt: PageTable, p: Path, i: nat, page: nat)
    requires Represents(tables, pt) && p in pt.shape && !p.Leaf? && i < ENTRIES && Child(p, i) !in pt.shape
    requires page !in tables && page % PGSIZE == 0
    ensures Represents(WithTable(tables, pt.shape[p], i, page), pt.(shape := pt.shape[Child(p, i) := page]))
  {
    AddTable(tables, pt, p, i, page);
    var tables' := WithTable(tables, pt.shape[p], i, page);
    var pt' := pt.(shape := pt.shape[Child(p, i) := page]);
    forall v: nat | v < VPNS
      ensures At(tables', pt', v) == Look(pt'.trans, v)
    {
      assert At(tables, pt, v) == Look(pt.trans, v);
      var l := LeafPath(v * PGSIZE);
      assert l in pt.shape ==> pt.shape[l] != pt.shape[p];
    }
  }

  /** One entry of a leaf table rewritten. */
  function WithEntry(tables: Tables, table: nat, i: nat, pte: nat): Tables
    requires table in tables && i < |tables[table]|
  {
    var row: seq<nat> := tables[table];
    tables[table := row[i := pte]]
  }

  lemma SetEntry(tables: Tables, pt: PageTable, va: nat, pte: nat)
    requires Tree(tables, pt) && LeafPath(va) in pt.shape
    ensures Tree(WithEntry(tables, pt.shape[LeafPath(va)], Px(0, va), pte), pt)
  {}

  /** Rewriting the entry of one virtual page changes the translation of that page alone. */
  lemma SetEntryRepresents(tables: Tables, pt: PageTable, v: nat, pte: nat)
    requires Represents(tables, pt) && v < VPNS && LeafPath(v * PGSIZE) in pt.shape
    ensures Represents(WithEntry(tables, pt.shape[LeafPath(v * PGSIZE)], Px(0, v * PGSIZE), pte),
                       pt.(trans := Replace(pt.trans, v, Decode(pte))))
  {
    var tables' := WithEntry(tables, pt.shape[LeafPath(v * PGSIZE)], Px(0, v * PGSIZE), pte);
    var pt' := pt.(trans := Replace(pt.trans, v, Decode(pte)));
    SetEntry(tables, pt, v * PGSIZE, pte);
    assert Tree(tables', pt');
    forall w: nat | w < VPNS
      ensures At(tables', pt', w) == Look(pt'.trans, w)
    {
      SetEntryAt(tables, pt, v, pte, w);
      assert At(tables', pt', w) == At(tables', pt, w);
      assert At(tables, pt, w) == Look(pt.trans, w);
    }
  }

  lemma SetEntryAt(tables: Tables, pt: PageTable, v: nat, pte: nat, w: nat)
    requires Tree(tables, pt) && LeafPath(v * PGSIZE) in pt.shape && v < VPNS && w < VPNS
    requires Tree(WithEntry(tables, pt.shape[LeafPath(v * PGSIZE)], Px(0, v * PGSIZE), pte), pt)
    ensures At(WithEntry(tables, pt.shape[LeafPath(v * PGSIZE)], Px(0, v * PGSIZE), pte), pt, w)
         == if w == v then Decode(pte) else At(tables, pt, w)
  {
    PageFromIndices(v * PGSIZE);
    PageFromIndices(w * PGSIZE);
  }

  lemma SameIndices(va: nat, vb: nat)
    ensures va / PGSIZE == vb / PGSIZE ==> LeafPath(va) == LeafPath(vb) && Px(0, va) == Px(0, vb)
  {
    if va / PGSIZE == vb / PGSIZE {
      assert va / 0x20_0000 == va / 4096 / 512 && vb / 0x20_0000 == vb / 4096 / 512;
      assert va / 0x4000_0000 == va / 4096 / 0x4_0000 && vb / 0x4000_0000 == vb / 4096 / 0x4_0000;
    }
  }

  /** A page table depends on its own tables only. */
  ghost predicate SameTables(tables: Tables, tables': Tables, pt: PageTable) {
    forall p :: p in pt.shape ==>
      pt.shape[p] in tables && pt.shape[p] in tables' && tables'[pt.shape[p]] == tables[pt.shape[p]]
  }

  lemma Unaffected(tables: Tables, tables': Tables, pt: PageTable)
    requires Represents(tables, pt) && SameTables(tables, tables', pt)
    ensures Represents(tables', pt)
  {
    forall q, j {:trigger Child(q, j)} | q in pt.shape && !q.Leaf? && 0 <= j < ENTRIES
      ensures Points(pt.shape, tables'[pt.shape[q]][j], Child(q, j))
    {
      assert Points(pt.shape, tables[pt.shape[q]][j], Child(q, j));
    }
    assert Tree(tables', pt);
    forall v: nat | v < VPNS
      ensures At(tables', pt, v) == Look(pt.trans, v)
    {
      assert At(tables, pt, v) == Look(pt.trans, v);
    }
  }

  /** The table for the virtual page is there. */
  ghost predicate HasLeaf(pt: PageTable, w: nat) {
    LeafPath(w * PGSIZE) in pt.shape
  }

  /** `unmap_page` panics on this page: it is out of range, or its leaf table exists and the entry
      is not valid or is bare. */
  ghost predicate Stuck(pt: PageTable, w: nat) {
    w >= VPNS || (HasLeaf(pt, w) && (w !in pt.trans || pt.trans[w].flags == PTE_V))
  }

  /** `unmap_page` finds no leaf table for this page. */
  ghost predicate Hole(pt: PageTable, w: nat) {
    w < VPNS && w !in pt.trans && !HasLeaf(pt, w)
  }

  // ----- Growth -----

  /** Physical pages of the machine, and their page numbers. */
  predicate IsFrame(a: nat) {
    KERNEL_START <= a < KERNEL_START + 0x800_0000 && a % PGSIZE == 0
  }

  function PageNo(a: nat): int {
    (a - KERNEL_START) / PGSIZE
  }

  function PageAddr(n: nat): nat {
    KERNEL_START + PGSIZE * n
  }

  /** `pt` became `pt'` by taking pages from the free ones for new tables. Nothing outside
      `pt` changed. */
  ghost predicate Grew(tables: Tables, free: set<int>, pt: PageTable, tables': Tables, free': set<int>,
                       pt': PageTable) {
    && pt'.root == pt.root && free' <= free && tables.Keys <= tables'.Keys
    && (forall p :: p in pt.shape ==> p in pt'.shape && pt'.shape[p] == pt.shape[p])
    && (forall p :: p in pt'.shape ==> p in pt.shape || PageNo(pt'.shape[p]) in free)
    && (forall f :: f in tables && f !in pt.shape.Values ==> tables'[f] == tables[f])
    && (forall f :: f in tables' ==> f in tables || PageNo(f) in free)
  }

  lemma AddTableGrows(tables: Tables, free: set<int>, free': set<int>, pt: PageTable, p: Path, i: nat, page: nat)
    requires Tree(tables, pt) && p in pt.shape && !p.Leaf? && i < ENTRIES && Child(p, i) !in pt.shape
    requires page !in tables && PageNo(page) in free && free' <= free
    ensures Grew(tables, free, pt, WithTable(tables, pt.shape[p], i, page), free',
                 pt.(shape := pt.shape[Child(p, i) := page]))
  {}

  lemma GrewTwice(t0: Tables, f0: set<int>, p0: PageTable, t1: Tables, f1: set<int>, p1: PageTable,
                  t2: Tables, f2: set<int>, p2: PageTable)
    requires Grew(t0, f0, p0, t1, f1, p1) && Grew(t1, f1, p1, t2, f2, p2)
    requires forall f :: f in t0 ==> PageNo(f) !in f0
    ensures Grew(t0, f0, p0, t2, f2, p2)
  {}

  lemma GrewNothing(tables: Tables, free: set<int>, pt: PageTable)
    ensures Grew(tables, free, pt, tables, free, pt)
  {}

  /** Growth that changes no translation. */
  ghost predicate Widened(t0: Tables, f0: set<int>, p0: PageTable, t1: Tables, f1: set<int>, p1: PageTable) {
    Represents(t1, p1) && Grew(t0, f0, p0, t1, f1, p1) && p1.trans == p0.trans
  }

  /** Growth that changes the translation of virtual page `v` and of no other. */
  ghost predicate Edited(t0: Tables, f0: set<int>, p0: PageTable, t1: Tables, f1: set<int>, p1: PageTable,
                         v: nat, e: Option<Entry>) {
    Represents(t1, p1) && Grew(t0, f0, p0, t1, f1, p1) && p1.trans == Replace(p0.trans, v, e)
  }

  function Replace(trans: Translation, v: nat, e: Option<Entry>): Translation {
    match e
    case None => trans - {v}
    case Some(entry) => trans[v := entry]
  }

  lemma WidenedTwice(t0: Tables, f0: set<int>, p0: PageTable, t1: Tables, f1: set<int>, p1: PageTable,
                     t2: Tables, f2: set<int>, p2: PageTable)
    requires Widened(t0, f0, p0, t1, f1, p1) && Widened(t1, f1, p1, t2, f2, p2)
    requires forall f :: f in t0 ==> PageNo(f) !in f0
    ensures Widened(t0, f0, p0, t2, f2, p2)
  {}

  /** `unmap_page` after `map_page` brings the translation back. */
  lemma UnmapUndoesMap(t0: Tables, f0: set<int>, p0: PageTable, t1: Tables, f1: set<int>, p1: PageTable,
                       t2: Tables, f2: set<int>, p2: PageTable, v: nat, e: Entry)
    requires Edited(t0, f0, p0, t1, f1, p1, v, Some(e)) && v !in p0.trans && Edited(t1, f1, p1, t2, f2, p2, v, None)
    requires forall f :: f in t0 ==> PageNo(f) !in f0
    ensures Widened(t0, f0, p0, t2, f2, p2)
  {
    GrewTwice(t0, f0, p0, t1, f1, p1, t2, f2, p2);
    assert p0.trans[v := e] - {v} == p0.trans;
  }

  /** The two free sets only bound where new tables come from. */
  lemma GrewBounds(t0: Tables, f0: set<int>, p0: PageTable, t1: Tables, f1: set<int>, p1: PageTable, g0: set<int>,
                   g1: set<int>)
    requires Grew(t0, f0, p0, t1, f1, p1) && f0 <= g0 && g1 <= g0
    ensures Grew(t0, g0, p0, t1, g1, p1)
  {}
}

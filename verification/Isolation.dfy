/** Whatever one task does with its own memory, every other task keeps its own: page table,
    ledger and contents. */
module Isolation {
  import opened PageTables
  import opened Ranges
  import opened Supply
  import opened Ledger

  /** The numbers of the pages that a page table uses: its tables and its private data pages. */
  ghost function Claims(m: View): set<int> {
    (set p | p in m.pt.shape :: PageNo(m.pt.shape[p])) + NumberSet(m.pt.trans, Private(m))
  }

  /** Pages in use are not free. */
  ghost predicate Taken(m: View) {
    && (forall f :: f in m.tables ==> PageNo(f) !in m.free)
    && (forall p :: p in m.pages ==> PageNo(p) !in m.free)
  }

  /** From `a` to `b`, the owner of the page table touched nothing but its own pages and free ones. */
  ghost predicate Local(a: View, b: View) {
    && (forall f :: f in a.tables && PageNo(f) !in Claims(a) ==> f in b.tables && b.tables[f] == a.tables[f])
    && (forall p :: p in a.pages && PageNo(p) !in Claims(a) ==> p in b.pages && b.pages[p] == a.pages[p])
    && Claims(b) <= Claims(a) + a.free
    && b.free <= a.free + Claims(a)
  }

  lemma LocalTwice(a: View, b: View, c: View)
    requires Local(a, b) && Local(b, c) && Taken(a)
    ensures Local(a, c)
  {}

  /** No table and no page to start from. */
  ghost function Unborn(m: View): View {
    m.(pt := PageTable(0, map[], map[]))
  }

  // ----- The operations are local -----

  lemma LocalMapped(a: View, b: View, v: nat, frames: seq<nat>, contents: seq<seq<nat>>, flags: Permissions)
    requires Mapped(a, b, v, frames, contents, flags) && Stretch(v, |frames|) !! a.pt.trans.Keys
    ensures Local(a, b)
  {
    AddRangeAt(a.pt.trans, v, frames, flags);
    forall n | n in Claims(b)
      ensures n in Claims(a) + a.free
    {
      MappedClaim(a, b, v, frames, contents, flags, n);
    }
    ForeignTables(a, b);
  }

  lemma MappedClaim(a: View, b: View, v: nat, frames: seq<nat>, contents: seq<seq<nat>>, flags: Permissions, n: int)
    requires Mapped(a, b, v, frames, contents, flags) && Stretch(v, |frames|) !! a.pt.trans.Keys && n in Claims(b)
    ensures n in Claims(a) + a.free
  {
    AddRangeAt(a.pt.trans, v, frames, flags);
    if p :| p in b.pt.shape && PageNo(b.pt.shape[p]) == n {
      assert p in a.pt.shape || n in a.free;
    } else {
      var w :| w in Private(b) && w in b.pt.trans && PageNo(b.pt.trans[w].pa) == n;
      if w in a.pt.trans {
        assert w in Private(a) && a.pt.trans[w] == b.pt.trans[w];
      } else {
        assert b.pt.trans[v + (w - v)] == Entry(frames[w - v], FlagsAt(flags, w));
      }
    }
  }

  /** Tables with unclaimed numbers are not tables of the page table. */
  lemma ForeignTables(a: View, b: View)
    requires Grew(a.tables, a.free, a.pt, b.tables, b.free, b.pt)
    ensures forall f :: f in a.tables && PageNo(f) !in Claims(a) ==> f in b.tables && b.tables[f] == a.tables[f]
  {}

  lemma LocalWidened(a: View, b: View)
    requires Grew(a.tables, a.free, a.pt, b.tables, b.free, b.pt) && b.pt.trans == a.pt.trans && b.pages == a.pages
    ensures Local(a, b)
  {}

  lemma LocalFreed(b: View, c: View, s: set<nat>)
    requires FreedAll(b, c, s) && TRAMPOLINE_PAGE !in s
    ensures Local(b, c)
  {}

  /** What was mapped is as it was, with what it held; nothing of others was touched. */
  ghost predicate Extended(a: View, b: View) {
    && (forall w :: w in a.pt.trans ==> w in b.pt.trans && b.pt.trans[w] == a.pt.trans[w])
    && (forall p :: p in a.pages ==> p in b.pages && b.pages[p] == a.pages[p])
    && Local(a, b)
  }

  lemma ExtendedMapped(a: View, b: View, v: nat, frames: seq<nat>, contents: seq<seq<nat>>, flags: Permissions)
    requires Mapped(a, b, v, frames, contents, flags) && Stretch(v, |frames|) !! a.pt.trans.Keys
    ensures Extended(a, b)
  {
    AddRangeAt(a.pt.trans, v, frames, flags);
    LocalMapped(a, b, v, frames, contents, flags);
  }

  lemma ExtendedTwice(a: View, b: View, c: View)
    requires Extended(a, b) && Extended(b, c) && Taken(a)
    ensures Extended(a, c)
  {}

  lemma ExtendedReads(a: View, b: View, w: nat)
    requires Extended(a, b) && PageBehind(a, w).Some?
    ensures PageBehind(b, w) == PageBehind(a, w)
  {}

  /** A store of the user program through its own page table. */
  ghost function Stored(a: View, w: nat, bytes: seq<nat>): View
    requires w in a.pt.trans
  {
    a.(pages := a.pages[a.pt.trans[w].pa := bytes])
  }

  lemma StoreLocal(a: View, w: nat, bytes: seq<nat>)
    requires w in Private(a) && UserPage(a, w)
    ensures Local(a, Stored(a, w, bytes))
  {}

  // ----- What another task keeps -----

  /** Another page table in the same memory that shares no page with this one. */
  ghost predicate Stranger(a: View, other: PageTable) {
    && Represents(a.tables, other)
    && Claims(a.(pt := other)) !! Claims(a) + a.free
  }

  /** The other task keeps its page table and the contents of its pages, and stays a stranger. */
  lemma StrangerKept(a: View, b: View, other: PageTable)
    requires Local(a, b) && Stranger(a, other)
    ensures Stranger(b, other)
  {
    var o := a.(pt := other);
    assert SameTables(a.tables, b.tables, other) by {
      forall p | p in other.shape
        ensures
          && other.shape[p] in a.tables
          && other.shape[p] in b.tables
          && b.tables[other.shape[p]] == a.tables[other.shape[p]]
      {
        assert PageNo(other.shape[p]) in Claims(o);
      }
    }
    Unaffected(a.tables, b.tables, other);
    assert Claims(b.(pt := other)) == Claims(o);
  }

  lemma StrangerReads(a: View, b: View, other: PageTable, w: nat)
    requires Local(a, b) && Stranger(a, other) && w in Private(a.(pt := other)) && UserPage(a.(pt := other), w)
    ensures UserPage(b.(pt := other), w) && PageBehind(b.(pt := other), w) == PageBehind(a.(pt := other), w)
  {}

  lemma StrangerAgrees(a: View, b: View, other: PageTable, sections: seq<Section>, stack: Section)
    requires Local(a, b) && Stranger(a, other) && Agrees(a.(pt := other), sections, stack)
    ensures Agrees(b.(pt := other), sections, stack)
  {}

  lemma ClaimsTaken(m: View)
    requires Taken(m) && Represents(m.tables, m.pt) && OwnPages(m, Private(m))
    ensures Claims(m) !! m.free
  {}

  lemma NoClaims(m: View)
    requires m.pt.shape == map[] && m.pt.trans == map[]
    ensures Claims(m) == {}
  {}
}

/** Ranges of virtual pages mapped to pages of their own, and what mapping and freeing them
    does to the translation, the data pages and the free pages. */
module Ranges {
  import opened Wrappers
  import opened Sv39
  import opened PageTables
  import opened Supply

  type Pages = map<nat, seq<nat>>

  /** A page table together with the memory it lives in. */
  datatype View = View(tables: Tables, pages: Pages, free: set<int>, pt: PageTable)

  /** What can be had for the page table. */
  ghost function MeansOf(m: View): Means {
    Means(StockOf(m.free), m.pt.shape.Keys)
  }

  /** There is memory for so many single pages and pairs, and for the tables of these virtual pages. */
  ghost predicate CanPay(a: View, ones: nat, twos: nat, pages: set<nat>) {
    Affords(MeansOf(a), ones, twos, pages)
  }

  /** From `a` to `b`, this was taken and nothing else. */
  ghost predicate Paid(a: View, b: View, ones: nat, twos: nat, pages: set<nat>) {
    CanPay(a, ones, twos, pages) && MeansOf(b) == After(MeansOf(a), ones, twos, pages)
  }

  /** What is bought in two steps could be bought in one, and the other way round. */
  lemma PayTwice(a: View, b: View, m: nat, x: nat, s: set<nat>, n: nat, y: nat, t: set<nat>)
    requires Paid(a, b, m, x, s)
    ensures CanPay(a, m + n, x + y, s + t) <==> CanPay(b, n, y, t)
  {
    hide Affords, After, StockOf;
    AffordsTwice(MeansOf(a), m, x, s, n, y, t);
  }

  lemma PaidTwice(a: View, b: View, c: View, m: nat, x: nat, s: set<nat>, n: nat, y: nat, t: set<nat>)
    requires Paid(a, b, m, x, s) && Paid(b, c, n, y, t)
    ensures Paid(a, c, m + n, x + y, s + t)
  {
    hide Affords, After, StockOf;
    AffordsTwice(MeansOf(a), m, x, s, n, y, t);
  }

  lemma PaidIsCan(a: View, b: View, m: nat, x: nat, s: set<nat>)
    requires Paid(a, b, m, x, s)
    ensures CanPay(a, m, x, s)
  {
    hide CanPay;
  }

  lemma PayLess(a: View, m: nat, x: nat, s: set<nat>, n: nat, y: nat, t: set<nat>)
    requires CanPay(a, m + n, x + y, s + t)
    ensures CanPay(a, m, x, s)
  {
    hide Affords, After, StockOf;
    AffordsTwice(MeansOf(a), m, x, s, n, y, t);
  }

  lemma NothingPaid(a: View)
    ensures Paid(a, a, 0, 0, {})
  {
    NothingNeeded(MeansOf(a));
  }

  ghost predicate TablesTaken(m: View) {
    forall f :: f in m.tables ==> PageNo(f) !in m.free
  }

  /** If the page is mapped, then to a data page. */
  ghost predicate HasData(m: View, w: nat) {
    w in m.pt.trans ==> m.pt.trans[w].pa in m.pages
  }

  /** A page of user memory: it has a data page, and flags besides the valid bit. */
  ghost predicate UserPage(m: View, w: nat) {
    w in m.pt.trans && m.pt.trans[w].pa in m.pages && m.pt.trans[w].flags != PTE_V
  }

  /** Each mapped page of the range has a data page of its own. */
  ghost predicate Owned(m: View, v: nat, n: nat) {
    && (forall w: nat :: v <= w < v + n ==> HasData(m, w))
    && (forall w: nat, x: nat :: v <= w < x < v + n && w in m.pt.trans && x in m.pt.trans ==>
          m.pt.trans[w].pa != m.pt.trans[x].pa)
  }

  // ----- Sets and sequences of pages -----

  ghost function Elems(s: seq<nat>): set<nat> {
    if s == [] then {} else Elems(s[..|s| - 1]) + {s[|s| - 1]}
  }

  // ----- Mapping a range -----

  /** The data pages grew by fresh, distinct pages with these contents. */
  ghost predicate NewPages(pages: Pages, free: set<int>, pages': Pages, frames: seq<nat>, contents: seq<seq<nat>>) {
    && |frames| == |contents|
    && pages'.Keys == pages.Keys + Elems(frames)
    && (forall p :: p in pages ==> pages'[p] == pages[p])
    && (forall i :: 0 <= i < |frames| ==> frames[i] in pages' && pages'[frames[i]] == contents[i])
    && (forall i :: 0 <= i < |frames| ==> frames[i] !in pages && PageNo(frames[i]) in free)
    && (forall i, j :: 0 <= i < j < |frames| ==> frames[i] != frames[j])
  }

  lemma NewPagesNext(pages: Pages, free: set<int>, pages1: Pages, frames: seq<nat>, contents: seq<seq<nat>>, f: nat,
                     content: seq<nat>)
    requires NewPages(pages, free, pages1, frames, contents) && f !in pages1 && PageNo(f) in free
    ensures NewPages(pages, free, pages1[f := content], frames + [f], contents + [content])
  {}

  /** The flags of the pages of a range: the same for all, or those of another translation. */
  datatype Permissions = Uniform(flags: nat) | Like(trans: Translation)

  ghost function FlagsAt(flags: Permissions, w: nat): nat {
    match flags
    case Uniform(f) => f
    case Like(trans) => if w in trans then trans[w].flags else 0
  }

  /** More than the valid bit, so that `unmap_page` accepts the pages. */
  ghost predicate NotBare(flags: Permissions, v: nat, n: nat) {
    forall w: nat :: v <= w < v + n ==> FlagsAt(flags, w) != PTE_V
  }

  /** The translation with a range of pages added. */
  ghost function AddRange(trans: Translation, v: nat, frames: seq<nat>, flags: Permissions): Translation {
    if frames == [] then trans
    else
      var n := |frames| - 1;
      AddRange(trans, v, frames[..n], flags)[v + n := Entry(frames[n], FlagsAt(flags, v + n))]
  }

  lemma {:induction false} AddRangeAt(trans: Translation, v: nat, frames: seq<nat>, flags: Permissions)
    ensures AddRange(trans, v, frames, flags).Keys == trans.Keys + Stretch(v, |frames|)
    ensures forall w :: w in trans && !(v <= w < v + |frames|) ==> AddRange(trans, v, frames, flags)[w] == trans[w]
    ensures forall i :: 0 <= i < |frames| ==>
      v + i in AddRange(trans, v, frames, flags) && AddRange(trans, v, frames, flags)[v + i] == Entry(frames[i],
                                                             FlagsAt(flags, v + i))
  {
    if frames != [] {
      AddRangeAt(trans, v, frames[..|frames| - 1], flags);
    }
  }

  /** From `a` to `b`, the pages from `v` on were mapped to fresh pages with these contents.
      Nothing else changed, except that tables may have been added. */
  ghost predicate Mapped(a: View, b: View, v: nat, frames: seq<nat>, contents: seq<seq<nat>>, flags: Permissions) {
    && TablesTaken(a) && Grew(a.tables, a.free, a.pt, b.tables, b.free, b.pt)
    && NewPages(a.pages, a.free, b.pages, frames, contents)
    && b.pt.trans == AddRange(a.pt.trans, v, frames, flags)
  }

  /** One more page at the end of the range. */
  lemma MappedNext(a: View, b: View, c: View, v: nat, frames: seq<nat>, contents: seq<seq<nat>>, flags: Permissions,
                   f: nat, content: seq<nat>, w: nat)
    requires Mapped(a, b, v, frames, contents, flags) && w == v + |frames|
    requires Grew(b.tables, b.free, b.pt, c.tables, c.free, c.pt)
    requires c.pt.trans == b.pt.trans[w := Entry(f, FlagsAt(flags, w))]
    requires f !in b.pages && PageNo(f) in b.free && c.pages == b.pages[f := content]
    ensures Mapped(a, c, v, frames + [f], contents + [content], flags)
  {
    GrewTwice(a.tables, a.free, a.pt, b.tables, b.free, b.pt, c.tables, c.free, c.pt);
    NewPagesNext(a.pages, a.free, b.pages, frames, contents, f, content);
    assert (frames + [f])[..|frames|] == frames;
  }

  /** Growth without a new translation in between does not matter. */
  lemma MappedWidened(a: View, b: View, c: View, v: nat, frames: seq<nat>, contents: seq<seq<nat>>, flags: Permissions)
    requires Mapped(a, b, v, frames, contents, flags)
    requires Grew(b.tables, b.free, b.pt, c.tables, c.free, c.pt) && c.pt.trans == b.pt.trans && c.pages == b.pages
    ensures Mapped(a, c, v, frames, contents, flags)
  {}

  lemma MappedNothing(a: View, v: nat, flags: Permissions)
    requires TablesTaken(a)
    ensures Mapped(a, a, v, [], [], flags)
  {}

  /** The data page behind a virtual page. */
  ghost function PageBehind(m: View, w: nat): Option<seq<nat>> {
    if w in m.pt.trans && m.pt.trans[w].pa in m.pages then Some(m.pages[m.pt.trans[w].pa]) else None
  }

  /** The virtual page holds these bytes and has these flags. */
  ghost predicate PageIs(m: View, w: nat, page: seq<nat>, flags: nat) {
    PageBehind(m, w) == Some(page) && m.pt.trans[w].flags == flags
  }

  lemma MappedPage(a: View, b: View, v: nat, frames: seq<nat>, contents: seq<seq<nat>>, flags: Permissions, w: nat)
    requires Mapped(a, b, v, frames, contents, flags)
    ensures w in Stretch(v, |frames|) ==> PageIs(b, w, contents[w - v], FlagsAt(flags, w))
    ensures w !in Stretch(v, |frames|) && PageBehind(a, w).Some? ==> PageBehind(b, w) == PageBehind(a, w)
  {
    AddRangeAt(a.pt.trans, v, frames, flags);
    if w in Stretch(v, |frames|) {
      assert b.pt.trans[v + (w - v)] == Entry(frames[w - v], FlagsAt(flags, w));
    }
  }

  // ----- Freeing a range -----

  ghost function FramesOf(trans: Translation, v: nat, n: nat): set<nat> {
    if n == 0 then {}
    else FramesOf(trans, v, n - 1) + if v + n - 1 in trans then {trans[v + n - 1].pa} else {}
  }

  ghost function NumbersOf(trans: Translation, v: nat, n: nat): set<int> {
    if n == 0 then {}
    else NumbersOf(trans, v, n - 1) + if v + n - 1 in trans then {PageNo(trans[v + n - 1].pa)} else {}
  }

  /** Only tables of the page table itself were written. */
  ghost predicate OwnTablesOnly(b: View, c: View) {
    && c.pt.root == b.pt.root && c.pt.shape == b.pt.shape && c.tables.Keys == b.tables.Keys
    && forall f :: f in b.tables && f !in b.pt.shape.Values ==> c.tables[f] == b.tables[f]
  }

  /** From `b` to `c`, `n` pages were unmapped and their data pages were given back. */
  ghost predicate Freed(b: View, c: View, v: nat, n: nat) {
    && OwnTablesOnly(b, c)
    && c.pt.trans == b.pt.trans - Stretch(v, n)
    && c.pages == b.pages - FramesOf(b.pt.trans, v, n)
    && c.free == b.free + NumbersOf(b.pt.trans, v, n)
  }

  /** One page unmapped and its data page given back, if it was mapped at all. */
  ghost predicate FreedOne(b: View, c: View, w: nat) {
    && OwnTablesOnly(b, c)
    && c.pt.trans == b.pt.trans - {w}
    && c.pages == b.pages - (if w in b.pt.trans then {b.pt.trans[w].pa} else {})
    && c.free == b.free + (if w in b.pt.trans then {PageNo(b.pt.trans[w].pa)} else {})
  }

  lemma FreedNothing(b: View, v: nat)
    ensures Freed(b, b, v, 0)
  {}

  lemma FreedNext(b: View, c: View, d: View, v: nat, k: nat, w: nat)
    requires Freed(b, c, v, k) && w == v + k && FreedOne(c, d, w)
    ensures Freed(b, d, v, k + 1)
  {
    assert w in b.pt.trans <==> w in c.pt.trans;
  }

  lemma {:induction false} NotYetFreed(m: View, v: nat, n: nat, k: nat, w: nat)
    requires Owned(m, v, n) && k <= n && v + k <= w < v + n && w in m.pt.trans
    ensures m.pt.trans[w].pa in m.pages && m.pt.trans[w].pa !in FramesOf(m.pt.trans, v, k)
    decreases k
  {
    assert HasData(m, w);
    if k > 0 {
      NotYetFreed(m, v, n, k - 1, w);
    }
  }

  /** The next page of a range that is being freed is as it was. */
  lemma StillOwned(b: View, c: View, v: nat, n: nat, k: nat, w: nat)
    requires Freed(b, c, v, k) && Owned(b, v, n) && k < n && w == v + k
    ensures HasData(c, w) && (Stuck(c.pt, w) <==> Stuck(b.pt, w))
  {
    if w in b.pt.trans {
      NotYetFreed(b, v, n, k, w);
    }
  }

  // ----- Undoing a mapping -----

  lemma MappedIsOwned(a: View, b: View, v: nat, frames: seq<nat>, contents: seq<seq<nat>>, flags: Permissions)
    requires Mapped(a, b, v, frames, contents, flags)
    ensures Owned(b, v, |frames|)
    ensures forall w: nat :: v <= w < v + |frames| ==> w in b.pt.trans && b.pt.trans[w].flags == FlagsAt(flags, w)
  {
    AddRangeAt(a.pt.trans, v, frames, flags);
    forall w: nat | v <= w < v + |frames|
      ensures w in b.pt.trans && b.pt.trans[w].pa == frames[w - v] && b.pt.trans[w].flags == FlagsAt(flags, w)
    {
      assert b.pt.trans[v + (w - v)] == Entry(frames[w - v], FlagsAt(flags, w));
    }
  }

  ghost predicate RangeIs(trans: Translation, v: nat, frames: seq<nat>, free: set<int>) {
    forall i {:trigger frames[i]} :: 0 <= i < |frames| ==>
      v + i in trans && trans[v + i].pa == frames[i] && PageNo(frames[i]) in free
  }

  lemma {:induction false} FramesOfRange(trans: Translation, v: nat, frames: seq<nat>, free: set<int>, k: nat)
    requires k <= |frames|
    requires RangeIs(trans, v, frames, free)
    ensures FramesOf(trans, v, k) == Elems(frames[..k])
    ensures NumbersOf(trans, v, k) <= free
    decreases k
  {
    if k > 0 {
      var i := k - 1;
      var f := frames[i];
      FramesOfRange(trans, v, frames, free, i);
      assert v + i in trans && trans[v + i].pa == frames[i];
      assert frames[..k][..i] == frames[..i];
    }
  }

  /** Freeing what was just mapped restores the translation and the data pages. */
  lemma MappedThenFreed(a: View, b: View, c: View, v: nat, frames: seq<nat>, contents: seq<seq<nat>>,
                        flags: Permissions)
    requires Mapped(a, b, v, frames, contents, flags) && Freed(b, c, v, |frames|)
    requires Stretch(v, |frames|) !! a.pt.trans.Keys
    ensures c.pages == a.pages && c.pt.trans == a.pt.trans
    ensures Grew(a.tables, a.free, a.pt, c.tables, c.free, c.pt)
  {
    AddRangeAt(a.pt.trans, v, frames, flags);
    FramesOfRange(b.pt.trans, v, frames, a.free, |frames|);
    assert frames[..|frames|] == frames;
    FreshElems(a.pages, frames);
    RestoredTables(a, b, c);
    assert c.pt.trans.Keys == a.pt.trans.Keys;
  }

  lemma {:induction false} FreshElems(pages: Pages, frames: seq<nat>)
    requires forall i :: 0 <= i < |frames| ==> frames[i] !in pages
    ensures Elems(frames) !! pages.Keys
  {
    if frames != [] {
      FreshElems(pages, frames[..|frames| - 1]);
    }
  }

  lemma RestoredTables(a: View, b: View, c: View)
    requires TablesTaken(a) && Grew(a.tables, a.free, a.pt, b.tables, b.free, b.pt)
    requires OwnTablesOnly(b, c) && c.free <= a.free
    ensures Grew(a.tables, a.free, a.pt, c.tables, c.free, c.pt)
  {}
}

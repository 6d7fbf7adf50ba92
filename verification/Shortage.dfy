/** How far the free pages go when fork copies a ledger: which child is whole, and which pages of the parent are lost.
    All of it is decided before the call, by the stock of free pages. */
module Shortage {
  import opened Sv39
  import opened PageTables
  import opened Supply
  import opened Ledger
  import opened TaskMemory

  function LedgerSize(sections: seq<Section>): nat {
    if sections == [] then 0
    else
      var n := |sections| - 1;
      LedgerSize(sections[..n]) + sections[n].size / PGSIZE
  }

  /** What is left after the sections were copied page by page. */
  function LedgerMeans(m: Means, sections: seq<Section>): Means {
    if sections == [] then m
    else
      var n := |sections| - 1;
      RangeMeans(LedgerMeans(m, sections[..n]), sections[n].start / PGSIZE, sections[n].size / PGSIZE)
  }

  /** There is a page for every page. */
  predicate PagesSuffice(m: Means, sections: seq<Section>) {
    sections == [] ||
    var n := |sections| - 1;
    && PagesSuffice(m, sections[..n])
    && PagesLast(LedgerMeans(m, sections[..n]), sections[n].start / PGSIZE, sections[n].size / PGSIZE)
  }

  /** And for every table. */
  predicate CanCopy(m: Means, sections: seq<Section>) {
    sections == [] ||
    var n := |sections| - 1;
    && CanCopy(m, sections[..n])
    && CanMapRange(LedgerMeans(m, sections[..n]), sections[n].start / PGSIZE, sections[n].size / PGSIZE)
  }

  /** How many of the `n` pages there are pages for. */
  function Lasting(m: Means, v: nat, n: nat): nat {
    if n == 0 || PagesLast(m, v, n) then n else Lasting(m, v, n - 1)
  }

  /** The pages of the parent that the way back gives away: those of the first section that there are not enough
      pages for, as far as they were copied. */
  ghost function LostPages(m: Means, sections: seq<Section>): set<nat> {
    if sections == [] then {}
    else
      var n := |sections| - 1;
      if !PagesSuffice(m, sections[..n]) then LostPages(m, sections[..n])
      else
        var m', v, k := LedgerMeans(m, sections[..n]), sections[n].start / PGSIZE, sections[n].size / PGSIZE;
        if PagesLast(m', v, k) then {} else Stretch(v, Lasting(m', v, k))
  }

  /** Of the `n` pages, those that there is a page but no table for. */
  ghost function HolesIn(m: Means, v: nat, n: nat): set<nat> {
    if n == 0 then {}
    else
      var w: nat := v + n - 1;
      HolesIn(m, v, n - 1) + if CanMap(RangeMeans(m, v, n - 1), w * PGSIZE) then {} else {w}
  }

  /** The pages that the copy skips: the holes of the sections before the first one that pages run out in. */
  ghost function Gaps(m: Means, sections: seq<Section>): set<nat> {
    if sections == [] then {}
    else
      var n := |sections| - 1;
      var m', v, k := LedgerMeans(m, sections[..n]), sections[n].start / PGSIZE, sections[n].size / PGSIZE;
      Gaps(m, sections[..n]) +
      if PagesSuffice(m, sections[..n]) && PagesLast(m', v, k) then HolesIn(m', v, k) else {}
  }

  lemma GapsNext(m: Means, sections: seq<Section>, s: Section)
    requires PagesSuffice(m, sections)
    ensures var m', v, k := LedgerMeans(m, sections), s.start / PGSIZE, s.size / PGSIZE;
      Gaps(m, sections + [s])
        == if PagesLast(m', v, k) then Gaps(m, sections) + HolesIn(m', v, k) else Gaps(m, sections)
  {
    assert (sections + [s])[..|sections|] == sections;
  }

  lemma {:induction false} GapsBefore(m: Means, sections: seq<Section>, i: nat)
    requires i <= |sections| && !PagesSuffice(m, sections[..i])
    ensures Gaps(m, sections) == Gaps(m, sections[..i])
  {
    if i < |sections| {
      var n := |sections| - 1;
      assert sections[..n][..i] == sections[..i];
      FirstShortage(m, sections[..n], i);
      GapsBefore(m, sections[..n], i);
    } else {
      assert sections[..i] == sections;
    }
  }

  /** No page is skipped if and only if there is a table for each. */
  lemma {:induction false} NoHoles(m: Means, v: nat, n: nat)
    requires PagesLast(m, v, n)
    ensures HolesIn(m, v, n) == {} <==> CanMapRange(m, v, n)
    ensures HolesIn(m, v, n) <= Stretch(v, n)
  {
    if n > 0 {
      NoHoles(m, v, n - 1);
    }
  }

  lemma {:induction false} LastingIs(m: Means, v: nat, k: nat, n: nat)
    requires k < n && PagesLast(m, v, k) && !PagesLast(m, v, k + 1)
    ensures Lasting(m, v, n) == k && !PagesLast(m, v, n)
    decreases n
  {
    hide RangeMeans;
    if PagesLast(m, v, n) {
      LastsLess(m, v, k + 1, n);
    }
    if k < n - 1 {
      LastingIs(m, v, k, n - 1);
    }
  }

  lemma {:induction false} NoneLost(m: Means, sections: seq<Section>)
    requires PagesSuffice(m, sections)
    ensures LostPages(m, sections) == {}
  {}

  /** The first section with a shortage decides. */
  lemma {:induction false} FirstShortage(m: Means, sections: seq<Section>, i: nat)
    requires i <= |sections| && !PagesSuffice(m, sections[..i])
    ensures !PagesSuffice(m, sections) && LostPages(m, sections) == LostPages(m, sections[..i])
  {
    if i < |sections| {
      var n := |sections| - 1;
      assert sections[..n][..i] == sections[..i];
      FirstShortage(m, sections[..n], i);
    } else {
      assert sections[..i] == sections;
    }
  }

  lemma LedgerNext(m: Means, sections: seq<Section>, s: Section)
    ensures LedgerMeans(m, sections + [s]) == RangeMeans(LedgerMeans(m, sections), s.start / PGSIZE, s.size / PGSIZE)
    ensures PagesSuffice(m, sections + [s]) <==>
      PagesSuffice(m, sections) && PagesLast(LedgerMeans(m, sections), s.start / PGSIZE, s.size / PGSIZE)
    ensures CanCopy(m, sections + [s]) <==>
      CanCopy(m, sections) && CanMapRange(LedgerMeans(m, sections), s.start / PGSIZE, s.size / PGSIZE)
    ensures PagesSuffice(m, sections) && !PagesSuffice(m, sections + [s]) ==>
      LostPages(m, sections + [s])
        == Stretch(s.start / PGSIZE, Lasting(LedgerMeans(m, sections), s.start / PGSIZE, s.size / PGSIZE))
  {
    assert (sections + [s])[..|sections|] == sections;
  }

  lemma {:induction false} CanCopySuffices(m: Means, sections: seq<Section>)
    requires CanCopy(m, sections)
    ensures PagesSuffice(m, sections)
  {
    if sections != [] {
      var n := |sections| - 1;
      CanCopySuffices(m, sections[..n]);
      CanMapLasts(LedgerMeans(m, sections[..n]), sections[n].start / PGSIZE, sections[n].size / PGSIZE);
    }
  }

  /** Section by section and page by page is as good as all at once. */
  lemma {:induction false} CanCopyIff(m: Means, sections: seq<Section>)
    requires Rooted(m.tables)
    ensures CanCopy(m, sections) <==> Affords(m, LedgerSize(sections), 0, AllPages(sections))
    ensures CanCopy(m, sections) ==> LedgerMeans(m, sections) == After(m, LedgerSize(sections), 0, AllPages(sections))
  {
    hide Affords, After, CanMapRange, RangeMeans;
    if sections == [] {
      NothingNeeded(m);
    } else {
      var n := |sections| - 1;
      var s := sections[n];
      CanCopyIff(m, sections[..n]);
      assert sections == sections[..n] + [s];
      AllPagesAppend(sections[..n], s);
      AffordsTwice(m, LedgerSize(sections[..n]), 0, AllPages(sections[..n]), s.size / PGSIZE, 0, PagesOf(s));
      RootedAfter(m, LedgerSize(sections[..n]), 0, AllPages(sections[..n]));
      RangeIff(After(m, LedgerSize(sections[..n]), 0, AllPages(sections[..n])), s.start / PGSIZE, s.size / PGSIZE);
    }
  }

  // ----- Sizes -----

  lemma {:induction false} StretchSize(v: nat, n: nat)
    ensures |Stretch(v, n)| == n
  {
    if n > 0 {
      StretchSize(v, n - 1);
    }
  }

  lemma {:induction false} SizeIs(sections: seq<Section>)
    requires Apart(sections)
    ensures LedgerSize(sections) == |AllPages(sections)|
  {
    if sections != [] {
      var n := |sections| - 1;
      var s := sections[n];
      assert sections == sections[..n] + [s];
      ApartPrefix(sections, n);
      ApartAt(sections, n);
      SizeIs(sections[..n]);
      AllPagesAppend(sections[..n], s);
      StretchSize(s.start / PGSIZE, s.size / PGSIZE);
    }
  }

  /** The ledger of a task in order, as one list. */
  lemma WholeLedger(mapped: set<nat>, sections: seq<Section>, stack: Section)
    requires Partition(mapped, sections, stack)
    ensures mapped == AllPages(sections + [stack]) + Fixed() && |mapped| == LedgerSize(sections + [stack]) + 3
  {
    AllPagesAppend(sections, stack);
    ApartAppend(sections, stack);
    SizeIs(sections + [stack]);
    assert |Fixed()| == 3;
  }

  // ----- Fork -----

  /** What fork takes: a page for every mapped page, with the kernel stack in place of the trampoline, a root table,
      and the tables that the mapped pages need. */
  ghost predicate EnoughToFork(s: Stock, mapped: set<nat>) {
    Enough(s, |mapped|, 1 + |TablesFor(mapped)|)
  }

  lemma NewTables(s: Stock, more: set<nat>)
    ensures |TablesFor(Fixed() + more)| == 2 + TablesLacking(NewMeans(s), more)
  {
    hide Enough, Spent, TablesFor, Fixed;
    FixedTables();
    MissingTwice(Means(s, {Root}), Fixed(), more);
    NoRoot(Fixed() + more);
    assert TablesFor(Fixed() + more) - {Root} == TablesFor(Fixed() + more);
  }

  lemma NoRoot(pages: set<nat>)
    ensures Root !in TablesFor(pages)
  {}

  /** The child is whole if and only if there is enough to fork. */
  lemma WholeIff(s: Stock, mapped: set<nat>, sections: seq<Section>, stack: Section)
    requires Partition(mapped, sections, stack)
    ensures Enough(s, 3, 3) && CanCopy(NewMeans(s), sections + [stack]) <==> EnoughToFork(s, mapped)
  {
    hide Enough, Spent, CanCopy, Partition, TablesLacking, TablesFor, Fixed, AllPages, LedgerSize, Rooted;
    var all := sections + [stack];
    WholeLedger(mapped, sections, stack);
    NewRooted(s);
    CanCopyIff(NewMeans(s), all);
    NewTables(s, AllPages(all));
    assert Fixed() + AllPages(all) == mapped;
    EnoughTwice(s, 3, 3, LedgerSize(all), TablesLacking(NewMeans(s), AllPages(all)));
  }

  lemma NewRooted(s: Stock)
    ensures Rooted(NewMeans(s).tables)
  {
    FixedTables();
  }
}

/** Runs that fall short: a machine with few pages starts init, and init forks or calls exec. */
module SmallMachine {
  import opened BuddyBlocks
  import opened Sv39
  import opened PageTables
  import opened Ranges
  import opened Supply
  import opened Memory
  import opened AddressSpace
  import opened Ledger
  import opened Isolation
  import opened TaskMemory
  import opened UserSpace
  import opened Shortage
  import opened Fork
  import opened TaskSteps
  import opened Exec

  // ----- The machine at its start -----

  /** A free memory that begins with an even page number has pairs only. */
  lemma {:induction false} PairsOfSpan(p: nat, pairs: nat)
    requires p % 2 == 0
    ensures StockOf(Span(p, 2 * pairs)) == Stock(pairs, 0)
  {
    hide StockOf;
    if pairs == 0 {
      NothingInStock({});
    } else {
      var n: nat := p + 2 * pairs - 2;
      PairsOfSpan(p, pairs - 1);
      PairTaken(Span(p, 2 * pairs), n);
      assert Span(p, 2 * pairs) - {n} - {n + 1} == Span(p, 2 * (pairs - 1));
    }
  }

  // ----- A program of one page -----

  /** The number of its page: the second argument page is the first one of another table. */
  const CODE: nat := 510

  function File(): seq<nat> { [0x7f, 0x45, 0x4c, 0x46] }

  function Header(): seq<ProgramHeader> {
    [ProgramHeader(PT_LOAD, true, true, true, 0, CODE * PGSIZE, 4, PGSIZE)]
  }

  /** The sections and the stack of the task that runs it. */
  function Sections(): seq<Section> {
    [Section(CODE * PGSIZE, PGSIZE), Section((CODE + 1) * PGSIZE, 2 * PGSIZE)]
  }

  function StackSection(): Section { Section(SHARED_MEMORY - PGSIZE, PGSIZE) }

  lemma ProgramSections()
    ensures Loads(Header()) == Sections()[..1] && PageCount(Header()) == 1
    ensures EndOf(Loads(Header())) == (CODE + 1) * PGSIZE && ArgumentPage(Header()) == CODE + 1
    ensures Loads(Header()) + [Section(EndOf(Loads(Header())), 2 * PGSIZE)] == Sections()
  {
    var ph := Header()[0];
    assert Header()[..0] == [];
    assert Loads(Header()) == [] + [SectionOf(ph)];
    assert PageCount(Header()) == 0 + SectionOf(ph).size / PGSIZE;
    assert SectionOf(ph) == Sections()[0];
    assert Loads(Header())[..0] == [];
  }

  lemma ProgramPageSet()
    ensures AllPages(Sections()[..1]) == {CODE} && StackPages() == {SHARED_PAGE - 1}
    ensures Replaceable(Header())
  {
    ProgramSections();
    var s := Sections()[0];
    assert PagesOf(s) == {CODE};
    assert Sections()[..1][1..] == [];
    assert AllPages(Sections()[..1]) == PagesOf(s) + {};
    assert Header()[..0] == [] && Loads([]) == [];
    assert SectionOf(Header()[0]) == s;
    Layout();
    assert Loadable(Fixed(), []) && Vacant(Fixed() + AllPages([]), s);
  }

  /** The tables of the pages of the task. */
  lemma ProgramTables()
    ensures TablesTo(CODE) == {Mid(0), Leaf(0, 0)} && TablesTo(CODE + 1) == {Mid(0), Leaf(0, 0)}
    ensures TablesTo(CODE + 2) == {Mid(0), Leaf(0, 1)}
    ensures TablesTo(SHARED_PAGE - 1) == {Mid(255), Leaf(255, 511)}
  {
    Layout();
  }

  // ----- What the start leaves -----

  /** The tables of a task that was just made. */
  function NewTaskTables(): set<Path> { {Root, Mid(255), Leaf(255, 511)} }

  lemma NewMeansIs(s: Stock)
    ensures NewMeans(s) == Means(Spent(s, 3, 3), NewTaskTables())
  {
    FixedTables();
    assert {Root} + {Mid(255), Leaf(255, 511)} == NewTaskTables();
  }

  ghost function BootPages(): set<nat> {
    ImagePages(Header()) + Stretch(ArgumentPage(Header()), 2)
  }

  lemma BootPageSet()
    ensures BootPages() == {CODE, CODE + 1, CODE + 2, SHARED_PAGE - 1}
  {
    ProgramSections();
    ProgramPageSet();
  }

  lemma TablesForFour(a: nat, b: nat, c: nat, d: nat)
    ensures TablesFor({a, b, c, d}) == TablesTo(a) + TablesTo(b) + TablesTo(c) + TablesTo(d)
  {
    hide TablesTo;
    var pages := {a, b, c, d};
    assert a in pages && b in pages && c in pages && d in pages;
  }

  lemma BootTables(m: Means)
    requires m.tables == NewTaskTables()
    ensures TablesLacking(m, BootPages()) == 3
  {
    hide TablesFor, TablesTo, BootPages;
    BootPageSet();
    TablesForFour(CODE, CODE + 1, CODE + 2, SHARED_PAGE - 1);
    ProgramTables();
    assert TablesFor(BootPages()) - m.tables == {Mid(0), Leaf(0, 0), Leaf(0, 1)};
  }

  lemma BootLeaves(pairs: nat)
    requires pairs >= 10
    ensures CanBoot(Stock(pairs, 0), File(), Header())
    ensures After(NewMeans(Stock(pairs, 0)), PageCount(Header()) + 1, 1, BootPages()).stock == Stock(pairs - 10, 1)
  {
    hide ImagePages, Stretch, Loads, EndOf, ArgumentPage, TablesLacking, Replaceable, TablesFor, PageCount;
    var s := Stock(pairs, 0);
    ProgramSections();
    ProgramPageSet();
    NewMeansIs(s);
    BootTables(NewMeans(s));
    Layout();
  }

  // ----- What fork does with it -----

  lemma ProgramPaths()
    ensures Px(2, CODE * PGSIZE) == 0 && LeafPath(CODE * PGSIZE) == Leaf(0, 0)
    ensures Px(2, (CODE + 1) * PGSIZE) == 0 && LeafPath((CODE + 1) * PGSIZE) == Leaf(0, 0)
    ensures Px(2, (CODE + 2) * PGSIZE) == 0 && LeafPath((CODE + 2) * PGSIZE) == Leaf(0, 1)
    ensures Px(2, (SHARED_PAGE - 1) * PGSIZE) == 255 && LeafPath((SHARED_PAGE - 1) * PGSIZE) == Leaf(255, 511)
  {
    Layout();
  }

  /** The stretches of the task, page by page. */
  lemma PageByPage(m: Means, v: nat)
    ensures RangeMeans(m, v, 1) == WithPage(m, v * PGSIZE)
    ensures PagesLast(m, v, 1) <==> Enough(m.stock, 1, 0)
    ensures CanMapRange(m, v, 1) <==> CanMap(m, v * PGSIZE)
    ensures RangeMeans(m, v, 2) == WithPage(WithPage(m, v * PGSIZE), (v + 1) * PGSIZE)
    ensures PagesLast(m, v, 2) <==> Enough(m.stock, 1, 0) && Enough(WithPage(m, v * PGSIZE).stock, 1, 0)
    ensures CanMapRange(m, v, 2) <==> CanMap(m, v * PGSIZE) && CanMap(WithPage(m, v * PGSIZE), (v + 1) * PGSIZE)
  {
    hide WithPage, CanMap, Enough;
    assert RangeMeans(m, v, 0) == m;
  }

  /** The code page: with fewer than three pairs, a table is missing. */
  lemma CodeCopied(q: nat)
    requires 1 <= q
    ensures var m := Means(Stock(q, 0), NewTaskTables()); var m' := WithPage(m, CODE * PGSIZE);
      && m'.stock == Stock(if q >= 3 then q - 3 else 0, 1)
      && (q >= 3 ==> m'.tables == NewTaskTables() + {Mid(0), Leaf(0, 0)})
      && (CanMap(m, CODE * PGSIZE) <==> q >= 3)
  {
    ProgramPaths();
    var m := Means(Stock(q, 0), NewTaskTables());
    assert PageLess(m) == Means(Stock(q - 1, 1), NewTaskTables());
    assert NewTaskTables() + {Mid(0)} + {Leaf(0, 0)} == NewTaskTables() + {Mid(0), Leaf(0, 0)};
  }

  /** The argument page beside it takes the page that is left. */
  lemma TextCopied(m: Means)
    requires m.stock.lones == 1
    requires m.stock.pairs > 0 ==> m.tables == NewTaskTables() + {Mid(0), Leaf(0, 0)}
    ensures WithPage(m, (CODE + 1) * PGSIZE).stock == Stock(m.stock.pairs, 0)
    ensures m.stock.pairs > 0 ==>
      CanMap(m, (CODE + 1) * PGSIZE) && WithPage(m, (CODE + 1) * PGSIZE).tables == m.tables
  {
    ProgramPaths();
    assert PageLess(m) == Means(Stock(m.stock.pairs, 0), m.tables);
  }

  /** The page of pointers needs a table, too. */
  lemma TableCopied(m: Means)
    requires m.stock.lones == 0 && 0 < m.stock.pairs <= 2 && m.tables == NewTaskTables() + {Mid(0), Leaf(0, 0)}
    ensures WithPage(m, (CODE + 2) * PGSIZE).stock == Stock(0, 1)
    ensures CanMap(m, (CODE + 2) * PGSIZE) <==> m.stock.pairs == 2
    ensures NewTaskTables() <= WithPage(m, (CODE + 2) * PGSIZE).tables
  {
    ProgramPaths();
    assert PageLess(m) == Means(Stock(m.stock.pairs - 1, 1), m.tables);
  }

  lemma StackCopied(m: Means)
    requires m.stock == Stock(0, 1) && NewTaskTables() <= m.tables
    ensures CanMap(m, (SHARED_PAGE - 1) * PGSIZE)
  {
    ProgramPaths();
    assert PageLess(m) == Means(Stock(0, 0), m.tables);
  }

  /** One section after the other. */
  lemma Ledgers(m: Means)
    ensures var m1 := WithPage(m, CODE * PGSIZE); var m3 := RangeMeans(m1, CODE + 1, 2);
      && (PagesSuffice(m, Sections()) <==> Enough(m.stock, 1, 0) && PagesLast(m1, CODE + 1, 2))
      && (CanCopy(m, Sections() + [StackSection()]) <==>
            CanMap(m, CODE * PGSIZE) && CanMapRange(m1, CODE + 1, 2) && CanMap(m3, (SHARED_PAGE - 1) * PGSIZE))
      && (!Enough(m.stock, 1, 0) ==>
            LostPages(m, Sections() + [StackSection()]) == Stretch(CODE, Lasting(m, CODE, 1)))
      && (Enough(m.stock, 1, 0) && !PagesLast(m1, CODE + 1, 2) ==>
            LostPages(m, Sections() + [StackSection()]) == Stretch(CODE + 1, Lasting(m1, CODE + 1, 2)))
  {
    hide WithPage, CanMap, Enough, RangeMeans, PagesLast, CanMapRange, Stretch, Lasting, PagesSuffice;
    hide CanCopy, LostPages, LedgerMeans;
    var s0, s1 := Sections()[0], Sections()[1];
    var all := Sections() + [StackSection()];
    Layout();
    PageByPage(m, CODE);
    Nothing(m);
    LedgerNext(m, [], s0);
    LedgerNext(m, [s0], s1);
    LedgerNext(m, [s0, s1], StackSection());
    assert [] + [s0] == [s0] == all[..1] && [s0] + [s1] == [s0, s1] == Sections() == all[..2];
    PageByPage(RangeMeans(WithPage(m, CODE * PGSIZE), CODE + 1, 2), SHARED_PAGE - 1);
    if !Enough(m.stock, 1, 0) {
      FirstShortage(m, all, 1);
    } else if !PagesLast(WithPage(m, CODE * PGSIZE), CODE + 1, 2) {
      FirstShortage(m, all, 2);
    }
  }

  lemma Nothing(m: Means)
    ensures LedgerMeans(m, []) == m && PagesSuffice(m, []) && CanCopy(m, [])
  {}

  /** With `q` pairs left after `new_task`. */
  lemma Shares(q: nat)
    requires q <= 5
    ensures var m := Means(Stock(q, 0), NewTaskTables());
      && (PagesSuffice(m, Sections()) <==> q >= 4)
      && (CanCopy(m, Sections() + [StackSection()]) <==> q == 5)
      && (q == 0 ==> LostPages(m, Sections() + [StackSection()]) == {})
      && (1 <= q <= 3 ==> LostPages(m, Sections() + [StackSection()]) == {CODE + 1})
  {
    hide WithPage, CanMap, RangeMeans, PagesSuffice, CanCopy, LostPages, Lasting, PagesLast, CanMapRange;
    var m := Means(Stock(q, 0), NewTaskTables());
    Ledgers(m);
    if q == 0 {
      LastingNone(m, CODE);
    } else {
      CodeCopied(q);
      var m1 := WithPage(m, CODE * PGSIZE);
      TextCopied(m1);
      PageByPage(m1, CODE + 1);
      if q <= 3 {
        LastingIs(m1, CODE + 1, 1, 2);
        if CanMapRange(m1, CODE + 1, 2) {
          CanMapLasts(m1, CODE + 1, 2);
        }
      } else {
        var m2 := WithPage(m1, (CODE + 1) * PGSIZE);
        TableCopied(m2);
        StackCopied(WithPage(m2, (CODE + 2) * PGSIZE));
      }
    }
  }

  lemma LastingNone(m: Means, v: nat)
    requires !Enough(m.stock, 1, 0)
    ensures Lasting(m, v, 1) == 0 && !CanMap(m, v * PGSIZE)
  {
    PageByPage(m, v);
  }

  /** The task is mapped where its ledger says. */
  lemma WholeIs(s: Stock, m: View, t: Space)
    requires Started(m, t) && t.sections == Sections() && t.stack == StackSection()
    ensures EnoughToFork(s, m.pt.trans.Keys) <==> Enough(s, 3, 3) && CanCopy(NewMeans(s), Sections() + [StackSection()])
  {
    hide EnoughToFork, Enough, CanCopy, Represents, OwnPages, Sections, StackSection;
    WholeIff(s, m.pt.trans.Keys, t.sections, t.stack);
  }

  /** The start of such a machine. */
  method BootSmall(pairs: nat, trampoline: nat) returns (mem: Memory, init: Space, ghost pt: PageTable)
    requires 10 <= pairs <= 19
    ensures fresh(mem) && fresh(mem.pool) && fresh(mem.pool.link) && mem.pool.kernelEnd == PAGES - 2 * pairs
    ensures Holds(mem, pt) && Started(ViewOf(mem, pt), init)
    ensures init.sections == Sections() && init.stack == StackSection()
    ensures StockOf(mem.pool.free) == Stock(pairs - 10, 1)
  {
    hide StockOf, CanBoot, NewMeans, After, Represents, Started, AllFilled, FindsName, Local, ImageIs;
    mem := new Memory(PAGES - 2 * pairs);
    PairsOfSpan(PAGES - 2 * pairs, pairs);
    assert mem.pool.free == Span(PAGES - 2 * pairs, 2 * pairs);
    BootLeaves(pairs);
    var status, loaded, a1;
    status, init, loaded, a1, pt := StartInit(mem, trampoline, File(), Header(), "init");
    ProgramSections();
  }

  /** A machine that starts with 14 to 19 pairs of pages, all of them free. Init forks at once:
      - with 14, there is a task but no page for it, and all pages of init are freed;
      - with 15 to 17, pages run out in the second section, and a page of init, still mapped, is given back;
      - with 18, fork succeeds, and the child lacks a page;
      - with 19, the child is whole. */
  method ForkOnSmallMachine(pairs: nat, trampoline: nat)
      returns (mem: Memory, init: Space, status: Status, whole: bool, child: Space, ghost pt: PageTable,
               ghost childPt: PageTable, ghost before: View)
    requires 14 <= pairs <= 19
    ensures fresh(mem) && Started(before, init) && before.pt == pt
    ensures status.Ok? <==> pairs >= 18
    ensures status.Ok? ==> Holds(mem, childPt) && child.root == childPt.root && child.sections == init.sections
    ensures pairs == 14 ==> Lost(ViewOf(mem, pt), pt, Private(ViewOf(mem, pt)))
    ensures 15 <= pairs <= 17 ==> CODE + 1 in ProgramPages(init) && Lost(ViewOf(mem, pt), pt, {CODE + 1})
    ensures pairs == 18 ==> !(ProgramPages(init) <= childPt.trans.Keys)
    ensures whole <==> pairs == 19
    ensures pairs == 19 ==>
      Started(ViewOf(mem, childPt), child) && Twin(before, ViewOf(mem, childPt), ProgramPages(init))
  {
    hide StockOf, Enough, Spent, NewMeans, Represents, Started, PagesSuffice, CanCopy, LostPages, EnoughToFork, Twin,
      Lost, Local, Agrees, Gaps, Astray;
    var birth, intact;
    mem, init, pt := BootSmall(pairs, trampoline);
    before := ViewOf(mem, pt);
    NewMeansIs(Stock(pairs - 10, 1));
    Remains(pairs);
    Shares(pairs - 14);
    WholeIs(Stock(pairs - 10, 1), before, init);
    status, birth, whole, intact, child, childPt := ForkProcess(mem, init, trampoline, pt);
    whole := status.Ok? && whole;
  }

  lemma Remains(pairs: nat)
    requires 14 <= pairs
    ensures Enough(Stock(pairs - 10, 1), 3, 3) && Spent(Stock(pairs - 10, 1), 3, 3) == Stock(pairs - 14, 0)
  {}

  // ----- exec -----

  /** A program that no small machine has the pages for. */
  function BigHeader(): seq<ProgramHeader> {
    [ProgramHeader(PT_LOAD, true, true, true, 0, 0, 4, 100 * PGSIZE)]
  }

  lemma BigProgram()
    ensures PageCount(BigHeader()) == 100
  {
    var ph := BigHeader()[0];
    assert BigHeader()[..0] == [];
    assert PageCount(BigHeader()) == 0 + SectionOf(ph).size / PGSIZE;
  }

  lemma {:induction false} StockSize(free: set<int>)
    ensures |free| == StockOf(free).lones + 2 * StockOf(free).pairs
    decreases |free|
  {
    if n :| n in free {
      StockSize(free - {n});
      OneLess(free, n);
    } else {
      NothingInStock(free);
    }
  }

  lemma OneLess(free: set<int>, n: int)
    requires n in free
    ensures var s, s' := StockOf(free), StockOf(free - {n}); s.lones + 2 * s.pairs == s'.lones + 2 * s'.pairs + 1
  {
    hide StockOf;
    if Neighbour(n) !in free {
      LonePageTaken(free, n);
    } else {
      PairBroken(free, n);
    }
  }

  /** The free pages of a machine with so many pairs are not enough for the big program. */
  lemma TooBig(free: set<int>, pairs: nat, twos: nat)
    requires pairs <= 19 && free <= Span(PAGES - 2 * pairs, 2 * pairs)
    ensures !Enough(StockOf(free), 101, twos)
  {
    hide StockOf;
    hide Span;
    var all := Span(PAGES - 2 * pairs, 2 * pairs);
    StockSize(free);
    StockSize(all);
    PairsOfSpan(PAGES - 2 * pairs, pairs);
    SmallerSet(free, all);
  }

  lemma SmallerSet(s: set<int>, t: set<int>)
    requires s <= t
    ensures |s| <= |t|
  {
    assert t == s + (t - s);
  }

  /** Everything that exec gives back was in the pool. */
  lemma EmptiedInPool(mem: Memory, pt: PageTable, t: Space)
    requires Holds(mem, pt) && Started(ViewOf(mem, pt), t)
    ensures Emptied(ViewOf(mem, pt), ProgramPages(t)).free <= Span(mem.pool.kernelEnd, PAGES - mem.pool.kernelEnd)
  {
    var a := ViewOf(mem, pt);
    forall n | n in NumberSet(pt.trans, ProgramPages(t))
      ensures mem.pool.kernelEnd <= n < PAGES
    {
      var w :| w in ProgramPages(t) && w in pt.trans && n == PageNo(pt.trans[w].pa);
      assert w in Private(a) && UserPage(a, w);
    }
  }

  /** Init calls exec with an image that there is no memory for: its own program is gone by then, and the kernel
      panics. */
  method ExecOnSmallMachine(pairs: nat, trampoline: nat, argc: nat)
      returns (mem: Memory, init: Space, status: Status, ghost pt: PageTable, ghost before: View)
    requires 14 <= pairs <= 19
    ensures fresh(mem) && Started(before, init) && before.pt == pt
    ensures status.Panic?
  {
    hide StockOf, Enough, Represents, Started, AllFilled, Local, Agrees, Emptied, ProgramPages, TablesLacking,
      Replaceable, GoodArguments, PageCount, Strays, Remain, LostArguments, ImageIs, HasPair, CanGive, StuckArguments,
      Finds, ImagePages;
    mem, init, pt := BootSmall(pairs, trampoline);
    before := ViewOf(mem, pt);
    EmptiedInPool(mem, pt, init);
    BigProgram();
    ghost var e := Emptied(before, ProgramPages(init));
    TooBig(e.free, pairs, TablesLacking(MeansOf(e), ImagePages(BigHeader())));
    var space, vectors, va;
    ghost var childPt;
    status, space, vectors, va, childPt := ExecProcess(mem, init, File(), BigHeader(), argc, pt);
  }
}

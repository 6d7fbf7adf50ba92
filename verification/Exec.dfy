/** exec_process and init_scheduler of kernel/process.c: how a program gets its memory and finds its
    arguments in it. */
module Exec {
  import opened Wrappers
  import opened Sv39
  import opened PageTables
  import opened Ranges
  import opened Supply
  import opened Memory
  import opened AddressSpace
  import opened Ledger
  import opened Isolation
  import opened TaskMemory
  import opened UserSpace
  import opened TaskSteps
  import opened Words
  import CStrings
  import ExecArgs
  import Shell

  // ----- What the program reads -----

  /** The page that a user program can read, with the bits R and U of its entry. */
  ghost function ReadPage(m: View, v: nat): Option<seq<nat>> {
    if v in m.pt.trans && (m.pt.trans[v].flags / 2) % 2 == 1 && (m.pt.trans[v].flags / 16) % 2 == 1 then PageBehind(m,
                                                                 v)
    else None
  }

  lemma ArgumentPageIsRead(m: View, v: nat, page: seq<nat>)
    requires PageIs(m, v, page, ARGUMENT_FLAGS)
    ensures ReadPage(m, v) == Some(page)
  {}

  /** The word that a program reads at an address, through its page table. */
  ghost function UserWord(m: View, va: nat): Option<nat> {
    match ReadPage(m, va / PGSIZE)
    case None => None
    case Some(page) => if va % PGSIZE + 8 <= |page| then Some(WordAt(page, va % PGSIZE)) else None
  }

  /** The program reads this terminated string at an address. */
  ghost predicate UserString(m: View, va: nat, s: seq<char>) {
    match ReadPage(m, va / PGSIZE)
    case None => false
    case Some(page) => ExecArgs.StringAt(Text(page), va % PGSIZE, s)
  }

  /** The program reads a pointer to this string. */
  ghost predicate PointsTo(m: View, va: nat, s: seq<char>) {
    UserWord(m, va).Some? && UserString(m, UserWord(m, va).value, s)
  }

  /** The program finds these arguments behind its register a1, and a null pointer behind them. */
  ghost predicate Finds(m: View, a1: nat, argv: seq<seq<char>>) {
    && (forall k {:trigger argv[k]} :: 0 <= k < |argv| ==> PointsTo(m, a1 + 8 * k, argv[k]))
    && UserWord(m, a1 + 8 * |argv|) == Some(0)
  }

  lemma WordBehind(m: View, v: nat, table: seq<nat>, k: nat, va: nat)
    requires ReadPage(m, v) == Some(TableBytes(table)) && |table| == 512 && k < 512 && table[k] < Limit(8)
    requires va == v * PGSIZE + 8 * k
    ensures UserWord(m, va) == Some(table[k])
  {
    assert va / PGSIZE == v && va % PGSIZE == 8 * k;
    WordOfTable(table, k);
  }

  lemma StringBehind(m: View, v: nat, text: seq<nat>, p: nat, o: nat, s: seq<char>)
    requires ReadPage(m, v) == Some(text) && p == v * PGSIZE + o && o < PGSIZE
    requires ExecArgs.StringAt(Text(text), o, s)
    ensures UserString(m, p, s)
  {
    assert p / PGSIZE == v && p % PGSIZE == o;
  }

  /** One argument of the two pages that `exec_process` fills. */
  lemma ArgumentIsFollowed(m: View, v: nat, text: seq<nat>, table: seq<nat>, k: nat, va: nat, s: seq<char>, at: nat)
    requires ReadPage(m, v) == Some(text) && ReadPage(m, v + 1) == Some(TableBytes(table)) && |text| == PGSIZE
    requires |table| == 512 && k < 512 && va == v * PGSIZE && va + PGSIZE <= MAXVA && at == va + PGSIZE + 8 * k
    requires va <= table[k] < va + PGSIZE && ExecArgs.StringAt(Text(text), table[k] - va, s)
    ensures PointsTo(m, at, s)
  {
    WordLimit();
    var p := table[k];
    WordBehind(m, v + 1, table, k, at);
    StringBehind(m, v, text, p, p - va, s);
  }

  /** The two argument pages as `exec_process` fills them. */
  lemma TableIsFollowed(m: View, v: nat, text: seq<nat>, table: seq<nat>, va: nat, argv: seq<seq<char>>)
    requires ReadPage(m, v) == Some(text) && ReadPage(m, v + 1) == Some(TableBytes(table)) && |text| == PGSIZE
    requires |table| == 512 && va == v * PGSIZE && va + PGSIZE <= MAXVA && ExecArgs.Denotes(table, Text(text), va, argv)
    ensures Finds(m, va + PGSIZE, argv)
  {
    forall k {:trigger argv[k]} | 0 <= k < |argv|
      ensures PointsTo(m, va + PGSIZE + 8 * k, argv[k])
    {
      ArgumentIsFollowed(m, v, text, table, k, va, argv[k], va + PGSIZE + 8 * k);
    }
    WordLimit();
    WordBehind(m, v + 1, table, |argv|, va + PGSIZE + 8 * |argv|);
  }

  // ----- exec_process -----

  ghost function SharedPage(m: View): seq<nat> {
    match PageBehind(m, SHARED_PAGE)
    case Some(page) => page
    case None => []
  }

  /** The arguments that the kernel finds in the shared page. */
  ghost function Given(m: View, argc: nat): Option<seq<seq<char>>> {
    ExecArgs.Received(Text(SharedPage(m)), argc)
  }

  lemma SharedPageIs(m: View, t: Space)
    requires Running(m, t)
    ensures t.sharedMemory in m.pages && SharedPage(m) == m.pages[t.sharedMemory]
  {
    assert SHARED_PAGE in Private(m) && UserPage(m, SHARED_PAGE);
  }

  // ----- When exec succeeds -----

  function ArgumentPage(phdrs: seq<ProgramHeader>): nat {
    EndOf(Loads(phdrs)) / PGSIZE
  }

  /** The image is sound, and there is memory for it and for its first stack page. */
  ghost predicate CanLoadImage(e: View, file: seq<nat>, phdrs: seq<ProgramHeader>) {
    ElfMagic(file) && Replaceable(phdrs) && CanReplace(e, phdrs)
  }

  /** The arguments are within the shared page and their pointers within the table, and the argument pages do not
      reach the stack. */
  ghost predicate GoodArguments(o: View, phdrs: seq<ProgramHeader>, argc: nat) {
    Given(o, argc).Some? && argc + 1 < 512 && EndOf(Loads(phdrs)) + 2 * PGSIZE < SHARED_MEMORY
  }

  ghost predicate HasPair(e: View, phdrs: seq<ProgramHeader>) {
    CanPay(e, PageCount(phdrs) + 1, 1, ImagePages(phdrs))
  }

  ghost predicate CanGive(e: View, phdrs: seq<ProgramHeader>) {
    CanPay(e, PageCount(phdrs) + 1, 1, ImagePages(phdrs) + Stretch(ArgumentPage(phdrs), 2))
  }

  /** There is no table for the first argument page, but one for the second, which is not mapped then. */
  ghost predicate StuckArguments(e: View, phdrs: seq<ProgramHeader>) {
    && !CanPay(e, PageCount(phdrs) + 1, 1, ImagePages(phdrs) + Stretch(ArgumentPage(phdrs), 1))
    && LeafPath((ArgumentPage(phdrs) + 1) * PGSIZE) in e.pt.shape.Keys + TablesFor(ImagePages(phdrs))
  }

  /** How many of the two argument pages are lost, when exec ends the task: those that there is no table for. */
  ghost function LostArguments(e: View, phdrs: seq<ProgramHeader>): nat {
    if !HasPair(e, phdrs) then 0
    else if CanPay(e, PageCount(phdrs) + 1, 1, ImagePages(phdrs) + Stretch(ArgumentPage(phdrs), 1)) then 1
    else 2
  }

  /** exec succeeds. */
  ghost predicate CanExec(e: View, o: View, file: seq<nat>, phdrs: seq<ProgramHeader>, argc: nat) {
    CanLoadImage(e, file, phdrs) && GoodArguments(o, phdrs, argc) && CanGive(e, phdrs)
  }

  /** exec ends the task: there are no argument pages, or no tables for them. In all other cases it panics. */
  ghost predicate ExecExits(e: View, o: View, file: seq<nat>, phdrs: seq<ProgramHeader>, argc: nat) {
    && CanLoadImage(e, file, phdrs)
    && (!HasPair(e, phdrs) ||
        (GoodArguments(o, phdrs, argc) && !CanGive(e, phdrs) && !StuckArguments(e, phdrs)))
  }

  /** The second part of `exec_process`: from the shared page to the argument pages of the program. Leaving the
      page or the table counts as a panic. */
  method GiveArguments(mem: Memory, t: Space, argc: nat, ghost pt: PageTable)
      returns (status: Status, had: bool, t': Space, vectors: ExecArgs.Vectors, va: nat, ghost pt': PageTable)
    requires Holds(mem, pt) && Running(ViewOf(mem, pt), t) && t.stack.size == PGSIZE
    modifies mem, mem.pool, mem.pool.link
    ensures !status.NotMapped? && va == EndOf(t.sections) && va / PGSIZE * PGSIZE == va
    ensures had <==> Enough(StockOf(old(mem.pool.free)), 0, 1)
    ensures status.Ok? ==> had && old(ArgumentsFine(ViewOf(mem, pt), t, argc))
    ensures status.Panic? ==> had && !old(ArgumentsFine(ViewOf(mem, pt), t, argc))
    ensures status.NoMemory? && had ==> old(ArgumentsFine(ViewOf(mem, pt), t, argc))
    ensures status.Ok? ==> Paid(old(ViewOf(mem, pt)), ViewOf(mem, pt'), 0, 1, Stretch(va / PGSIZE, 2))
    ensures !status.Panic? ==> (status.Ok? <==> CanPay(old(ViewOf(mem, pt)), 0, 1, Stretch(va / PGSIZE, 2)))
    ensures status.Ok? ==>
      Holds(mem, pt') && Started(ViewOf(mem, pt'), t') && Extended(old(ViewOf(mem, pt)), ViewOf(mem, pt'))
    ensures t' == if had then WithArguments(t, va) else t
    ensures status.Ok? ==> vectors.argv == va + PGSIZE && Behind(t.sections, va)
    ensures status.Ok? ==> Finds(ViewOf(mem, pt'), vectors.argv, old(Given(ViewOf(mem, pt), argc)).value)
    ensures status.Ok? ==> UserWord(ViewOf(mem, pt'), vectors.envp) == Some(0)
    ensures status.NoMemory? ==> Holds(mem, pt') && Extended(old(ViewOf(mem, pt)), ViewOf(mem, pt'))
    ensures status.NoMemory? && !had ==> pt' == pt && ViewOf(mem, pt) == old(ViewOf(mem, pt))
    ensures status.NoMemory? && had ==>
      Names(ViewOf(mem, pt'), t'.sections, t'.stack) && Frames(ViewOf(mem, pt'), t.trapFrame, t.sharedMemory)
    ensures status.NoMemory? && had ==> pt'.root == t.root && (NoneStuck(pt', ProgramPages(t')) <==>
      CanPay(old(ViewOf(mem, pt)), 0, 1, Stretch(va / PGSIZE, 1)) || !HasLeaf(pt, va / PGSIZE + 1))
    ensures status.Ok? || (status.NoMemory? && !had) ==> Strays(ViewOf(mem, pt')) == old(Strays(ViewOf(mem, pt)))
    ensures status.NoMemory? && had ==>
      MoreStrays(old(ViewOf(mem, pt)), ViewOf(mem, pt'),
                 if CanPay(old(ViewOf(mem, pt)), 0, 1, Stretch(va / PGSIZE, 1)) then 1 else 2)
  {
    hide CanPay, Paid, Represents, Enough, StockOf, Names, Hole, Agrees, Finds, Frames, NoneStuck, Stretch, HasLeaf;
    hide Strays, MoreStrays;
    hide Local, ExecArgs.Received, Behind, EndOf, Given, ArgumentsFine, ProgramPages, Running;
    va := AvailableFrom(t.sections);
    BehindIsEnd(t.sections, va);
    ghost var v;
    status, had, t', vectors, pt', v := FillArguments(mem, t, argc, va, pt);
    PageStart(v, va);
  }

  method FillArguments(mem: Memory, t: Space, argc: nat, va: nat, ghost pt: PageTable)
      returns (status: Status, had: bool, t': Space, vectors: ExecArgs.Vectors, ghost pt': PageTable, ghost v: nat)
    requires Holds(mem, pt) && Running(ViewOf(mem, pt), t) && t.stack.size == PGSIZE
    requires Behind(t.sections, va) && va == EndOf(t.sections)
    modifies mem, mem.pool, mem.pool.link
    ensures !status.NotMapped? && va == v * PGSIZE
    ensures had <==> Enough(StockOf(old(mem.pool.free)), 0, 1)
    ensures status.Ok? ==> had && old(ArgumentsFine(ViewOf(mem, pt), t, argc))
    ensures status.Panic? ==> had && !old(ArgumentsFine(ViewOf(mem, pt), t, argc))
    ensures status.NoMemory? && had ==> old(ArgumentsFine(ViewOf(mem, pt), t, argc))
    ensures status.Ok? ==> Paid(old(ViewOf(mem, pt)), ViewOf(mem, pt'), 0, 1, Stretch(v, 2))
    ensures !status.Panic? ==> (status.Ok? <==> CanPay(old(ViewOf(mem, pt)), 0, 1, Stretch(v, 2)))
    ensures status.Ok? ==>
      Holds(mem, pt') && Started(ViewOf(mem, pt'), t') && Extended(old(ViewOf(mem, pt)), ViewOf(mem, pt'))
    ensures t' == if had then WithArguments(t, va) else t
    ensures status.Ok? ==> vectors.argv == va + PGSIZE && Behind(t.sections, va)
    ensures status.Ok? ==> Finds(ViewOf(mem, pt'), vectors.argv, old(Given(ViewOf(mem, pt), argc)).value)
    ensures status.Ok? ==> UserWord(ViewOf(mem, pt'), vectors.envp) == Some(0)
    ensures status.NoMemory? ==> Holds(mem, pt') && Extended(old(ViewOf(mem, pt)), ViewOf(mem, pt'))
    ensures status.NoMemory? && !had ==> pt' == pt && ViewOf(mem, pt) == old(ViewOf(mem, pt))
    ensures status.NoMemory? && had ==>
      Names(ViewOf(mem, pt'), t'.sections, t'.stack) && Frames(ViewOf(mem, pt'), t.trapFrame, t.sharedMemory)
    ensures status.NoMemory? && had ==> pt'.root == t.root && (NoneStuck(pt', ProgramPages(t')) <==>
      CanPay(old(ViewOf(mem, pt)), 0, 1, Stretch(v, 1)) || !HasLeaf(pt, v + 1))
    ensures status.Ok? || (status.NoMemory? && !had) ==> Strays(ViewOf(mem, pt')) == old(Strays(ViewOf(mem, pt)))
    ensures status.NoMemory? && had ==>
      MoreStrays(old(ViewOf(mem, pt)), ViewOf(mem, pt'),
                 if CanPay(old(ViewOf(mem, pt)), 0, 1, Stretch(v, 1)) then 1 else 2)
  {
    hide Paid, CanPay, Represents, Enough, StockOf, Names, Hole, Agrees, Finds, Frames, NoneStuck, Stretch, HasLeaf;
    hide Strays, MoreStrays;
    ghost var a := ViewOf(mem, pt);
    SharedPageIs(a, t);
    var page := mem.pages[t.sharedMemory];
    var unpacked, table := Unpack(page, argc, va);
    status, had, t', pt', v := SetArguments(mem, t, va, page, TableBytes(table), pt);
    vectors := ExecArgs.Vectors(0, 0);
    if had && unpacked.None? {
      return Panic, had, t', vectors, pt', v;
    }
    if status.Ok? {
      vectors := unpacked.value;
      ArgumentPageIsRead(ViewOf(mem, pt'), v, page);
      ArgumentPageIsRead(ViewOf(mem, pt'), v + 1, TableBytes(table));
      ArgumentsFound(ViewOf(mem, pt'), t', v, page, table, va, argc, unpacked);
    } else if status.NoMemory? && had {
      WhenStuck(a, ViewOf(mem, pt'), t, va, v);
    }
  }

  ghost predicate ArgumentsFine(o: View, t: Space, argc: nat) {
    Given(o, argc).Some? && argc + 1 < 512 && EndOf(t.sections) + PGSIZE < t.stack.start
  }

  /** Of a ledger with its argument pages not mapped, only the second can make `unmap_page` panic. */
  lemma WhenStuck(a: View, b: View, t: Space, va: nat, v: nat)
    requires Running(a, t) && Represents(a.tables, a.pt) && Represents(b.tables, b.pt) && Extended(a, b)
    requires va == v * PGSIZE && v !in a.pt.trans && v + 1 !in a.pt.trans
    requires Names(b, t.sections + [Section(va, 2 * PGSIZE)], t.stack) && v + 1 < VPNS && v + 1 !in b.pt.trans
    requires if v in b.pt.trans then Hole(b.pt, v + 1) else Hole(b.pt, v) && SameLeaves(a.pt, b.pt)
    ensures NoneStuck(b.pt, ProgramPages(WithArguments(t, va))) <==> v in b.pt.trans || !HasLeaf(a.pt, v + 1)
  {
    hide Represents, Agrees, Extended, Names, OwnPages;
    WithArgumentPages(t, va, v);
    OldUnstuck(a, b, t);
    FirstUnstuck(a, b, t, va, v);
    SecondStuck(a.pt, b.pt, v);
  }

  lemma WithArgumentPages(t: Space, va: nat, v: nat)
    requires va == v * PGSIZE
    ensures ProgramPages(WithArguments(t, va)) == ProgramPages(t) + {v, v + 1}
  {
    var s := Section(va, 2 * PGSIZE);
    assert s.start / PGSIZE == v && s.size / PGSIZE == 2 && PagesOf(s) == {v, v + 1};
    AllPagesAppend(t.sections, s);
  }

  lemma OldUnstuck(a: View, b: View, t: Space)
    requires Running(a, t) && Represents(a.tables, a.pt) && Extended(a, b)
    ensures NoneStuck(b.pt, ProgramPages(t))
  {
    hide Represents, Local, Apart;
    AgreesCovers(a, t.sections, t.stack);
    CoversUnstuck(a, t.sections, t.stack);
    forall w | w in ProgramPages(t)
      ensures !Stuck(b.pt, w)
    {
      assert w in a.pt.trans && !Stuck(a.pt, w);
    }
  }

  lemma FirstUnstuck(a: View, b: View, t: Space, va: nat, v: nat)
    requires Names(b, t.sections + [Section(va, 2 * PGSIZE)], t.stack) && v < VPNS && v != TRAMPOLINE_PAGE
    requires v !in b.pt.trans ==> Hole(b.pt, v)
    ensures !Stuck(b.pt, v)
  {
    hide Owns;
    assert v in b.pt.trans ==> v in Private(b) && UserPage(b, v);
  }

  lemma SecondStuck(p: PageTable, q: PageTable, v: nat)
    requires v + 1 < VPNS && v + 1 !in q.trans
    requires if v in q.trans then Hole(q, v + 1) else SameLeaves(p, q)
    ensures Stuck(q, v + 1) <==> v !in q.trans && HasLeaf(p, v + 1)
  {
    assert HasLeaf(q, v + 1) <==> LeafPath((v + 1) * PGSIZE) in q.shape.Keys;
    assert HasLeaf(p, v + 1) <==> LeafPath((v + 1) * PGSIZE) in p.shape.Keys;
  }

  method Unpack(page: seq<nat>, argc: nat, va: nat) returns (vectors: Option<ExecArgs.Vectors>, table: seq<nat>)
    requires |page| == PGSIZE
    ensures |table| == 512 && ExecArgs.UnpackedInto(table, Text(page), va, argc, vectors)
  {
    var shared := new char[PGSIZE](i requires 0 <= i < PGSIZE => CharOf(page[i]));
    var pointers := new nat[512](_ => 0);
    assert shared[..] == Text(page);
    vectors := ExecArgs.UnpackArgv(shared, argc, va, pointers);
    table := pointers[..];
  }

  lemma ArgumentsFound(m: View, t: Space, v: nat, text: seq<nat>, table: seq<nat>, va: nat, argc: nat,
                       unpacked: Option<ExecArgs.Vectors>)
    requires ReadPage(m, v) == Some(text) && ReadPage(m, v + 1) == Some(TableBytes(table)) && |text| == PGSIZE
    requires |table| == 512 && va == v * PGSIZE && unpacked.Some?
    requires ExecArgs.UnpackedInto(table, Text(text), va, argc, unpacked)
    requires AllFit(t.sections) && t.sections != [] && t.sections[|t.sections| - 1] == Section(va, 2 * PGSIZE)
    ensures Finds(m, unpacked.value.argv, ExecArgs.Received(Text(text), argc).value)
    ensures UserWord(m, unpacked.value.envp) == Some(0)
  {
    var argv := ExecArgs.Received(Text(text), argc).value;
    assert Fits(t.sections[|t.sections| - 1]);
    TableIsFollowed(m, v, text, table, va, argv);
    WordLimit();
    WordBehind(m, v + 1, table, argc + 1, va + PGSIZE + 8 * (argc + 1));
  }

  /** `exec_process` of an image, with any count of arguments. What becomes of it depends on the image, the shared
      page and the free pages alone: `Ok` when the program is replaced and finds its arguments, `NoMemory` when the
      task is made to exit, a panic otherwise: when the image cannot be loaded, the exit frees the old stack again. */
  method ExecProcess(mem: Memory, t: Space, file: seq<nat>, phdrs: seq<ProgramHeader>, argc: nat, ghost pt: PageTable)
      returns (status: Status, t': Space, vectors: ExecArgs.Vectors, va: nat, ghost pt': PageTable)
    requires Holds(mem, pt) && Started(ViewOf(mem, pt), t) && AllInFile(file, phdrs)
    modifies mem, mem.pool, mem.pool.link
    ensures !status.NotMapped?
    ensures status.Ok? <==>
      old(CanExec(Emptied(ViewOf(mem, pt), ProgramPages(t)), ViewOf(mem, pt), file, phdrs, argc))
    ensures status.NoMemory? <==>
      old(ExecExits(Emptied(ViewOf(mem, pt), ProgramPages(t)), ViewOf(mem, pt), file, phdrs, argc))
    ensures status.NoMemory? ==> mem.Valid() && Local(old(ViewOf(mem, pt)), Unborn(ViewOf(mem, pt)))
    ensures status.Ok? ==>
      Holds(mem, pt') && Started(ViewOf(mem, pt'), t') && Local(old(ViewOf(mem, pt)), ViewOf(mem, pt'))
    ensures status.Ok? ==> AllFilled(ViewOf(mem, pt'), file, phdrs)
    ensures status.Ok? ==> t' == WithArguments(Replaced(t, phdrs), va) && vectors.argv == va + PGSIZE
    ensures status.Ok? ==> va == EndOf(Loads(phdrs)) && old(Given(ViewOf(mem, pt), argc)).Some?
    ensures status.Ok? ==> Finds(ViewOf(mem, pt'), vectors.argv, old(Given(ViewOf(mem, pt), argc)).value)
    ensures status.Ok? ==> UserWord(ViewOf(mem, pt'), vectors.envp) == Some(0)
    ensures status.Ok? ==> ImageIs(ViewOf(mem, pt'), file, phdrs)
    ensures status.Ok? ==> Strays(ViewOf(mem, pt')) == old(Strays(ViewOf(mem, pt)))
    ensures status.NoMemory? ==> Remain(mem.pages.Keys, old(Strays(ViewOf(mem, pt))),
                                        old(LostArguments(Emptied(ViewOf(mem, pt), ProgramPages(t)), phdrs)))
  {
    hide CanReplace, Replaceable, HasPair, CanGive, StuckArguments, Represents, Agrees, AllFilled, Finds, Given;
    hide Emptied, ProgramPages, Local, Frames, Paid, ImagePages, Strays, Remain, LostArguments, ImageIs;
    ghost var a := ViewOf(mem, pt);
    ghost var e := Emptied(a, ProgramPages(t));
    vectors, va := ExecArgs.Vectors(0, 0), 0;
    status, t', pt' := LoadProgram(mem, t, file, phdrs, pt);
    if status.NoMemory? || status.NotMapped? {
      status := ExitProcess(mem, t', pt', Section(0, 0));
      return;
    }
    if status.Ok? {
      ghost var b := ViewOf(mem, pt');
      SamePage(a, b, argc);
      status, t', vectors, va, pt' := FinishExec(mem, t', phdrs, argc, pt', e);
      if status.Ok? {
        AllFilledKept(b, ViewOf(mem, pt'), file, phdrs);
        AllFilledMeans(ViewOf(mem, pt'), file, phdrs);
      }
      if !status.Panic? {
        LocalTwice(a, b, if status.Ok? then ViewOf(mem, pt') else Unborn(ViewOf(mem, pt)));
      }
    }
  }

  lemma SamePage(a: View, b: View, argc: nat)
    requires PageBehind(b, SHARED_PAGE) == PageBehind(a, SHARED_PAGE)
    ensures Given(b, argc) == Given(a, argc)
  {}

  /** The second part, and the exit when there is no memory for it. */
  method FinishExec(mem: Memory, t: Space, ghost phdrs: seq<ProgramHeader>, argc: nat, ghost pt: PageTable,
                    ghost e: View)
      returns (status: Status, t': Space, vectors: ExecArgs.Vectors, va: nat, ghost pt': PageTable)
    requires Holds(mem, pt) && Running(ViewOf(mem, pt), t) && t.sections == Loads(phdrs)
    requires t.stack == Section(SHARED_MEMORY - PGSIZE, PGSIZE)
    requires Paid(e, ViewOf(mem, pt), PageCount(phdrs) + 1, 0, ImagePages(phdrs))
    modifies mem, mem.pool, mem.pool.link
    ensures !status.NotMapped?
    ensures status.Ok? <==> old(GoodArguments(ViewOf(mem, pt), phdrs, argc)) && CanGive(e, phdrs)
    ensures status.NoMemory? <==>
      || !HasPair(e, phdrs)
      || (old(GoodArguments(ViewOf(mem, pt), phdrs, argc)) && !CanGive(e, phdrs) && !StuckArguments(e, phdrs))
    ensures status.NoMemory? ==> mem.Valid() && Local(old(ViewOf(mem, pt)), Unborn(ViewOf(mem, pt)))
    ensures status.Ok? ==>
      Holds(mem, pt') && Started(ViewOf(mem, pt'), t') && Extended(old(ViewOf(mem, pt)), ViewOf(mem, pt'))
    ensures status.Ok? ==> t' == WithArguments(t, va) && vectors.argv == va + PGSIZE && va == EndOf(Loads(phdrs))
    ensures status.Ok? ==> old(Given(ViewOf(mem, pt), argc)).Some?
    ensures status.Ok? ==> Finds(ViewOf(mem, pt'), vectors.argv, old(Given(ViewOf(mem, pt), argc)).value)
    ensures status.Ok? ==> UserWord(ViewOf(mem, pt'), vectors.envp) == Some(0)
    ensures status.Ok? ==> Strays(ViewOf(mem, pt')) == old(Strays(ViewOf(mem, pt)))
    ensures status.NoMemory? ==> Remain(mem.pages.Keys, old(Strays(ViewOf(mem, pt))), LostArguments(e, phdrs))
  {
    hide CanPay, Paid, Represents, Agrees, Finds, Frames, Names, Enough, StockOf, HasLeaf, NoneStuck, Given, Strays;
    ghost var b := ViewOf(mem, pt);
    var had;
    status, had, t', vectors, va, pt' := GiveArguments(mem, t, argc, pt);
    Accounts(e, b, phdrs, va);
    if status.NoMemory? {
      ghost var c := ViewOf(mem, pt');
      if !had {
        AgreesCovers(c, t'.sections, t'.stack);
        CoversUnstuck(c, t'.sections, t'.stack);
      }
      status := ExitPartly(mem, t', pt');
      if status.Ok? {
        LocalTwice(b, c, Unborn(ViewOf(mem, pt')));
        status := NoMemory;
      }
    }
  }

  /** These pages, and so many more. */
  ghost predicate Remain(pages: set<nat>, s: set<nat>, n: nat) {
    s <= pages && |pages - s| == n
  }

  /** What is left after the image decides about the arguments. */
  lemma Accounts(e: View, b: View, phdrs: seq<ProgramHeader>, va: nat)
    requires Paid(e, b, PageCount(phdrs) + 1, 0, ImagePages(phdrs)) && va == EndOf(Loads(phdrs))
    ensures HasPair(e, phdrs) <==> Enough(StockOf(b.free), 0, 1)
    ensures CanGive(e, phdrs) <==> CanPay(b, 0, 1, Stretch(va / PGSIZE, 2))
    ensures StuckArguments(e, phdrs) <==>
      !CanPay(b, 0, 1, Stretch(va / PGSIZE, 1)) && HasLeaf(b.pt, va / PGSIZE + 1)
    ensures CanGive(e, phdrs) ==> HasPair(e, phdrs)
    ensures LostArguments(e, phdrs) ==
      if !HasPair(e, phdrs) then 0 else if CanPay(b, 0, 1, Stretch(va / PGSIZE, 1)) then 1 else 2
    ensures CanPay(b, 0, 1, Stretch(va / PGSIZE, 2)) ==> CanPay(b, 0, 1, Stretch(va / PGSIZE, 1))
  {
    hide CanPay, Paid, ImagePages, Stretch, PageCount, Loads, StockOf, Enough;
    var v, m, s := va / PGSIZE, PageCount(phdrs) + 1, ImagePages(phdrs);
    PairOnly(b, Stretch(v, 2));
    PayTwice(e, b, m, 0, s, 0, 1, {});
    assert s + {} == s;
    PayTwice(e, b, m, 0, s, 0, 1, Stretch(v, 2));
    PayTwice(e, b, m, 0, s, 0, 1, Stretch(v, 1));
    TwoPagesSplit(v);
    if CanPay(b, 0, 1, Stretch(v, 2)) {
      PayLess(b, 0, 1, Stretch(v, 1), 0, 0, Stretch(v + 1, 1));
    }
    PaidTables(e, b, m, s);
    assert HasLeaf(b.pt, v + 1) <==> LeafPath((v + 1) * PGSIZE) in b.pt.shape.Keys;
  }

  lemma PairOnly(b: View, s: set<nat>)
    ensures CanPay(b, 0, 1, {}) <==> Enough(StockOf(b.free), 0, 1)
    ensures CanPay(b, 0, 1, s) ==> CanPay(b, 0, 1, {})
  {
    hide Affords, StockOf, Enough;
    NoTables(MeansOf(b), 0, 1);
    if CanPay(b, 0, 1, s) {
      assert {} + s == s;
      PayLess(b, 0, 1, {}, 0, 0, s);
    }
  }

  lemma PaidTables(e: View, b: View, m: nat, s: set<nat>)
    requires Paid(e, b, m, 0, s)
    ensures b.pt.shape.Keys == e.pt.shape.Keys + TablesFor(s)
  {
    hide Affords, StockOf, Spent;
  }

  // ----- exec from user space -----

  /** `exec` of user/system.c fills the shared page. */
  method PackArguments(mem: Memory, t: Space, name: seq<char>, argv: seq<seq<char>>, ghost pt: PageTable)
      returns (argc: nat)
    requires Holds(mem, pt) && Started(ViewOf(mem, pt), t) && CStrings.NulFree(name) && ExecArgs.AllNulFree(argv)
    modifies mem`pages
    ensures Holds(mem, pt) && Started(ViewOf(mem, pt), t) && Local(old(ViewOf(mem, pt)), ViewOf(mem, pt))
    ensures ExecArgs.PackedInto(Text(SharedPage(ViewOf(mem, pt))), argc, name, argv)
    ensures SHARED_PAGE in pt.trans
    ensures ViewOf(mem, pt) == Stored(old(ViewOf(mem, pt)), SHARED_PAGE, SharedPage(ViewOf(mem, pt)))
  {
    hide ExecArgs.PackedInto;
    ghost var a := ViewOf(mem, pt);
    SharedPageIs(a, t);
    var page;
    argc, page := Packed(name, argv);
    StorePage(mem, t, t.sharedMemory, page, pt, SHARED_PAGE);
    SharedPageIs(ViewOf(mem, pt), t);
  }

  method Packed(name: seq<char>, argv: seq<seq<char>>) returns (argc: nat, page: seq<nat>)
    requires CStrings.NulFree(name) && ExecArgs.AllNulFree(argv)
    ensures |page| == PGSIZE && ExecArgs.PackedInto(Text(page), argc, name, argv)
  {
    var shared := new char[PGSIZE](_ => '\0');
    argc := ExecArgs.PackProgram(name, argv, shared);
    page := Codes(shared[..]);
    TextOfCodes(shared[..]);
  }

  /** These arguments fit into the shared page and the table, and the first one is not lost. */
  predicate FittingArguments(name: seq<char>, argv: seq<seq<char>>) {
    argv != [] && argv[0] != [] && ExecArgs.ArgBytes(name, argv) < PGSIZE && |argv| + 1 < 512
  }

  /** What the image and the memory have to do with it. */
  ghost predicate CanStart(e: View, file: seq<nat>, phdrs: seq<ProgramHeader>) {
    CanLoadImage(e, file, phdrs) && EndOf(Loads(phdrs)) + 2 * PGSIZE < SHARED_MEMORY && CanGive(e, phdrs)
  }

  /** The two sides together: with arguments that fit, the program is started if and only if there is memory for a
      sound image, and then it finds exactly these arguments. */
  method ExecProgram(mem: Memory, t: Space, file: seq<nat>, phdrs: seq<ProgramHeader>, name: seq<char>,
                     argv: seq<seq<char>>, ghost pt: PageTable)
      returns (status: Status, t': Space, vectors: ExecArgs.Vectors, ghost pt': PageTable)
    requires Holds(mem, pt) && Started(ViewOf(mem, pt), t) && AllInFile(file, phdrs)
    requires CStrings.NulFree(name) && ExecArgs.AllNulFree(argv)
    modifies mem, mem.pool, mem.pool.link
    ensures !status.NotMapped?
    ensures FittingArguments(name, argv) ==>
      (status.Ok? <==> CanStart(Emptied(old(ViewOf(mem, pt)), ProgramPages(t)), file, phdrs))
    ensures status.Ok? ==>
      Holds(mem, pt') && Started(ViewOf(mem, pt'), t') && Local(old(ViewOf(mem, pt)), ViewOf(mem, pt'))
    ensures status.Ok? ==> AllFilled(ViewOf(mem, pt'), file, phdrs)
    ensures status.Ok? && FittingArguments(name, argv) ==> Finds(ViewOf(mem, pt'), vectors.argv, argv)
    ensures status.NoMemory? ==> mem.Valid() && Local(old(ViewOf(mem, pt)), Unborn(ViewOf(mem, pt)))
  {
    hide Represents, Agrees, AllFilled, Finds, Local, Frames, CanLoadImage, CanGive, ExecExits, ExecArgs.Received;
    ghost var a := ViewOf(mem, pt);
    var argc := PackArguments(mem, t, name, argv, pt);
    ghost var b := ViewOf(mem, pt);
    SameCosts(a, b, t, file, phdrs);
    var va;
    status, t', vectors, va, pt' := ExecProcess(mem, t, file, phdrs, argc, pt);
    if !status.Panic? {
      LocalTwice(a, b, if status.Ok? then ViewOf(mem, pt') else Unborn(ViewOf(mem, pt)));
    }
  }

  /** Stores change nothing about the free pages. */
  lemma SameCosts(a: View, b: View, t: Space, file: seq<nat>, phdrs: seq<ProgramHeader>)
    requires b.free == a.free && b.pt == a.pt
    ensures var e, e' := Emptied(a, ProgramPages(t)), Emptied(b, ProgramPages(t));
      && (CanLoadImage(e, file, phdrs) <==> CanLoadImage(e', file, phdrs))
      && (CanGive(e, phdrs) <==> CanGive(e', phdrs))
  {
    hide Affords, StockOf, ElfMagic, Replaceable;
    assert MeansOf(Emptied(a, ProgramPages(t))) == MeansOf(Emptied(b, ProgramPages(t)));
  }

  /** The whole way: the shell splits its line buffer, `exec` packs the words, the kernel replaces the program, and
      the program finds the words of the line behind a1, in order. */
  method RunLine(mem: Memory, t: Space, file: seq<nat>, phdrs: seq<ProgramHeader>, tok: Shell.Tokenizer,
                 ghost line: seq<char>, ghost pt: PageTable)
      returns (status: Status, t': Space, vectors: ExecArgs.Vectors, ghost pt': PageTable)
    requires Holds(mem, pt) && Started(ViewOf(mem, pt), t) && AllInFile(file, phdrs)
    requires Shell.Unread(tok.buf[..], line, 0)
    modifies mem, mem.pool, mem.pool.link, tok, tok.buf
    ensures !status.NotMapped?
    ensures CommandWords(line) == [] ==> status.Ok? && ViewOf(mem, pt') == old(ViewOf(mem, pt)) && t' == t
    ensures Fitting(line) ==>
      (status.Ok? <==> CanStart(Emptied(old(ViewOf(mem, pt)), ProgramPages(t)), file, phdrs))
    ensures status.Ok? ==>
      Holds(mem, pt') && Started(ViewOf(mem, pt'), t') && Local(old(ViewOf(mem, pt)), ViewOf(mem, pt'))
    ensures status.Ok? && Fitting(line) ==> Finds(ViewOf(mem, pt'), vectors.argv, CommandWords(line))
    ensures status.Ok? && Fitting(line) ==>
      exists words :: AreWords(line, words) && Finds(ViewOf(mem, pt'), vectors.argv, words)
  {
    hide Represents, Agrees, AllFilled, Finds, Local, Frames, CanStart, AreWords;
    ghost var a := ViewOf(mem, pt);
    var argv, path := ExecArgs.SplitLine(tok, Shell.DELIMITERS, line);
    t', vectors, pt' := t, ExecArgs.Vectors(0, 0), pt;
    assert ViewOf(mem, pt) == a && Holds(mem, pt);
    if argv == [] {
      SelfLocal(a);
      return Ok, t', vectors, pt';
    }
    status, t', vectors, pt' := ExecProgram(mem, t, file, phdrs, path, argv, pt);
  }

  function CommandWords(line: seq<char>): (words: seq<seq<char>>)
    ensures AreWords(line, words)
  {
    WordsAreRuns(line);
    CStrings.Words(line, Shell.Chars(Shell.DELIMITERS))
  }

  /** The characters that separate words on a line of the shell. */
  predicate Blank(c: char) {
    c == ' ' || c == '\t' || c == '\r' || c == '\n'
  }

  /** A run of other characters, as long as it gets. */
  ghost predicate Run(line: seq<char>, s: CStrings.Span) {
    && s.start < s.end <= |line|
    && (forall j :: s.start <= j < s.end ==> !Blank(line[j]))
    && (s.start > 0 ==> Blank(line[s.start - 1])) && (s.end < |line| ==> Blank(line[s.end]))
  }

  /** The words are all the runs of the line, in order. */
  ghost predicate AreRuns(line: seq<char>, words: seq<seq<char>>, spans: seq<CStrings.Span>) {
    && |words| == |spans| && (forall s :: s in spans <==> Run(line, s))
    && (forall k, l :: 0 <= k < l < |spans| ==> spans[k].end < spans[l].start)
    && forall k :: 0 <= k < |spans| ==> Run(line, spans[k]) && words[k] == line[spans[k].start..spans[k].end]
  }

  ghost predicate AreWords(line: seq<char>, words: seq<seq<char>>) {
    exists spans :: AreRuns(line, words, spans)
  }

  lemma WordsAreRuns(line: seq<char>)
    ensures AreWords(line, CStrings.Words(line, Shell.Chars(Shell.DELIMITERS)))
  {
    var delims := Shell.Chars(Shell.DELIMITERS);
    var spans := CStrings.Spans(line, delims, 0);
    CStrings.SpansAreMaximalRuns(line, delims, 0);
    forall c: char
      ensures c in delims <==> Blank(c)
    {
      BlankIsDelimiter(c);
    }
    forall s
      ensures Run(line, s) <==> CStrings.MaximalRun(line, delims, s)
    {}
    forall k | 0 <= k < |spans|
      ensures Run(line, spans[k])
    {
      assert spans[k] in spans;
    }
    assert AreRuns(line, CStrings.Words(line, delims), spans);
  }

  lemma BlankIsDelimiter(c: char)
    ensures c in Shell.Chars(Shell.DELIMITERS) <==> Blank(c)
  {
    assert Shell.DELIMITERS[0] == ' ' && Shell.DELIMITERS[1] == '\t';
    assert Shell.DELIMITERS[2] == '\r' && Shell.DELIMITERS[3] == '\n';
  }

  /** Every character of the line that is no blank is in some word. */
  lemma NothingDropped(line: seq<char>, spans: seq<CStrings.Span>, i: nat)
    requires AreRuns(line, CommandWords(line), spans) && i < |line| && !Blank(line[i])
    ensures exists k :: 0 <= k < |spans| && spans[k].start <= i < spans[k].end
  {
    var s := RunAround(line, i, i, i + 1);
    assert s in spans;
  }

  function RunAround(line: seq<char>, i: nat, start: nat, end: nat): (s: CStrings.Span)
    requires start <= i < end <= |line| && forall j :: start <= j < end ==> !Blank(line[j])
    ensures Run(line, s) && s.start <= i < s.end
    decreases start + |line| - end
  {
    if start > 0 && !Blank(line[start - 1]) then RunAround(line, i, start - 1, end)
    else if end < |line| && !Blank(line[end]) then RunAround(line, i, start, end + 1)
    else CStrings.Span(start, end)
  }

  /** The line has words, and path and words fit into the shared page and the table. */
  predicate Fitting(line: seq<char>) {
    var words := CommandWords(line);
    words != [] && ExecArgs.ArgBytes(['/'] + words[0], words) < PGSIZE && |words| + 1 < 512
  }

  // ----- init_scheduler -----

  /** The first task finds its name behind a1, and a null pointer behind it. */
  ghost predicate FindsName(m: View, a1: nat, name: seq<char>) {
    PointsTo(m, a1, name) && UserWord(m, a1 + 8) == Some(0)
  }

  function NameText(name: seq<char>): (page: seq<nat>)
    requires |name| < PGSIZE
    ensures |page| == PGSIZE
  {
    Codes(name) + ZeroPage()[|name|..]
  }

  function InitTable(va: nat): (table: seq<nat>)
    ensures |table| == 512
  {
    seq(512, i => if i == 0 then va else 0)
  }

  lemma NameString(name: seq<char>)
    requires |name| < PGSIZE && CStrings.NulFree(name)
    ensures ExecArgs.StringAt(Text(NameText(name)), 0, name)
  {
    var text := Text(NameText(name));
    assert text[..|name|] == name && text[|name|] == CStrings.NUL;
    assert CStrings.Holds(text, 0, name);
    CStrings.ReadBack(text, 0, name);
  }

  /** What the first task needs. */
  ghost predicate CanBoot(s: Stock, file: seq<nat>, phdrs: seq<ProgramHeader>) {
    && Enough(s, 3, 3) && ElfMagic(file) && Replaceable(phdrs) && EndOf(Loads(phdrs)) + 2 * PGSIZE < SHARED_MEMORY
    && Affords(NewMeans(s), PageCount(phdrs) + 1, 1, ImagePages(phdrs) + Stretch(ArgumentPage(phdrs), 2))
  }

  /** The fields of the first task. */
  ghost function InitSpace(t: Space, phdrs: seq<ProgramHeader>): Space {
    t.(sections := Loads(phdrs) + [Section(EndOf(Loads(phdrs)), 2 * PGSIZE)],
       stack := Section(SHARED_MEMORY - PGSIZE, PGSIZE))
  }

  /** The first task. A program that cannot be loaded is not noticed; `loaded` says whether it was. Every other
      failure is a panic. */
  method StartInit(mem: Memory, trampoline: nat, file: seq<nat>, phdrs: seq<ProgramHeader>, name: seq<char>)
      returns (status: Status, t: Space, loaded: bool, a1: nat, ghost pt: PageTable)
    requires mem.Valid() && AllInFile(file, phdrs) && |name| < PGSIZE && CStrings.NulFree(name)
    modifies mem, mem.pool, mem.pool.link
    ensures status.Ok? || status.Panic?
    ensures status.Ok? && loaded <==> CanBoot(StockOf(old(mem.pool.free)), file, phdrs)
    ensures status.Ok? ==>
      Holds(mem, pt) && Started(ViewOf(mem, pt), t) && Local(Unborn(old(ViewOf(mem, pt))), ViewOf(mem, pt))
    ensures status.Ok? && loaded ==> AllFilled(ViewOf(mem, pt), file, phdrs) && t == InitSpace(t, phdrs)
    ensures status.Ok? && loaded ==> MeansOf(ViewOf(mem, pt)) == After(NewMeans(StockOf(old(mem.pool.free))),
      PageCount(phdrs) + 1, 1, ImagePages(phdrs) + Stretch(ArgumentPage(phdrs), 2))
    ensures status.Ok? ==> FindsName(ViewOf(mem, pt), a1, name)
    ensures status.Ok? && loaded ==> ImageIs(ViewOf(mem, pt), file, phdrs)
  {
    hide ImageIs, StockOf, Enough, Affords, After, NewMeans, Represents, AllFilled, FindsName, Replaceable, Local;
    hide Started;
    hide CanGive, Paid, Ready, ImagePages, ElfMagic;
    loaded, a1, pt := false, 0, PageTable(NULL, map[], map[]);
    ghost var a, s := Unborn(ViewOf(mem, pt)), StockOf(mem.pool.free);
    var birth;
    birth, t, pt := NewSpace(mem, trampoline, a);
    if !birth.Born? {
      status := Panic;
      return;
    }
    ghost var b := ViewOf(mem, pt);
    status, t, loaded, a1, pt := LoadFirst(mem, t, file, phdrs, name, pt, a);
    BootCosts(s, b, ViewOf(mem, pt), phdrs);
    if status.Ok? && loaded {
      AllFilledMeans(ViewOf(mem, pt), file, phdrs);
    }
  }

  lemma BootCosts(s: Stock, b: View, c: View, phdrs: seq<ProgramHeader>)
    requires MeansOf(b) == NewMeans(s)
    ensures var pages := ImagePages(phdrs) + Stretch(ArgumentPage(phdrs), 2);
      && (CanGive(b, phdrs) <==> Affords(NewMeans(s), PageCount(phdrs) + 1, 1, pages))
      && (Paid(b, c, PageCount(phdrs) + 1, 1, pages) ==>
            MeansOf(c) == After(NewMeans(s), PageCount(phdrs) + 1, 1, pages))
  {
    hide Affords, After, NewMeans, MeansOf, ImagePages;
  }

  /** `new_task` for the first task. */
  method NewSpace(mem: Memory, trampoline: nat, ghost a: View) returns (birth: Birth, t: Space, ghost pt: PageTable)
    requires mem.Valid() && a.tables == mem.tables && a.pages == mem.pages && a.free == mem.pool.free && a == Unborn(a)
    modifies mem, mem.pool, mem.pool.link
    ensures birth.Born? <==> Enough(StockOf(a.free), 3, 3)
    ensures birth.Born? ==> Holds(mem, pt) && Ready(ViewOf(mem, pt), t, Section(0, 0)) && Local(a, ViewOf(mem, pt))
    ensures birth.Born? ==> t.sections == [] && pt.trans.Keys == Fixed()
    ensures birth.Born? ==> MeansOf(ViewOf(mem, pt)) == NewMeans(StockOf(a.free))
  {
    hide StockOf, Enough, NewMeans, Represents, Agrees, Frames, Local;
    var root, trapFrame, sharedMemory;
    birth, root, trapFrame, sharedMemory, pt := NewTask(mem, trampoline);
    t := Space(root, [], Section(0, 0), PTE_U + PTE_R + PTE_W, trapFrame, sharedMemory);
    assert birth.Born? ==> pt.trans.Keys == Fixed();
  }

  /** The first task's program, stack and arguments. */
  method LoadFirst(mem: Memory, t: Space, file: seq<nat>, phdrs: seq<ProgramHeader>, name: seq<char>,
                   ghost pt: PageTable, ghost a: View)
      returns (status: Status, t': Space, loaded: bool, a1: nat, ghost pt': PageTable)
    requires Holds(mem, pt) && Ready(ViewOf(mem, pt), t, Section(0, 0)) && AllInFile(file, phdrs)
    requires Local(a, ViewOf(mem, pt)) && Taken(a) && t.sections == [] && pt.trans.Keys == Fixed()
    requires |name| < PGSIZE && CStrings.NulFree(name)
    modifies mem, mem.pool, mem.pool.link
    ensures status.Ok? || status.Panic?
    ensures status.Ok? && loaded <==>
      && ElfMagic(file) && Replaceable(phdrs) && EndOf(Loads(phdrs)) + 2 * PGSIZE < SHARED_MEMORY
      && CanGive(old(ViewOf(mem, pt)), phdrs)
    ensures status.Ok? ==> Holds(mem, pt') && Started(ViewOf(mem, pt'), t') && Local(a, ViewOf(mem, pt'))
    ensures status.Ok? && loaded ==> AllFilled(ViewOf(mem, pt'), file, phdrs) && t' == InitSpace(t', phdrs)
    ensures status.Ok? && loaded ==> Paid(old(ViewOf(mem, pt)), ViewOf(mem, pt'), PageCount(phdrs) + 1, 1,
                                          ImagePages(phdrs) + Stretch(ArgumentPage(phdrs), 2))
    ensures status.Ok? ==> FindsName(ViewOf(mem, pt'), a1, name)
  {
    hide StockOf, Enough, CanPay, Paid, Represents, Agrees, AllFilled, FindsName, Frames, ImagePages, Replaceable;
    hide Local, Loads, StackIn;
    a1 := 0;
    ghost var e := ViewOf(mem, pt);
    status, t', loaded, pt' := LoadInit(mem, t, file, phdrs, pt, a);
    ghost var b := ViewOf(mem, pt');
    if status.Ok? && loaded {
      Accounts(e, b, phdrs, EndOf(Loads(phdrs)));
      PayTwice(e, b, PageCount(phdrs) + 1, 0, ImagePages(phdrs), 0, 1, Stretch(ArgumentPage(phdrs), 2));
    } else if CanGive(e, phdrs) {
      PayLess(e, PageCount(phdrs) + 1, 0, ImagePages(phdrs), 0, 1, Stretch(ArgumentPage(phdrs), 2));
    }
    if status.Ok? {
      status, t', a1, pt' := InitArguments(mem, t', name, file, phdrs, loaded, pt', a);
      if status.Ok? && loaded {
        PaidTwice(e, b, ViewOf(mem, pt'), PageCount(phdrs) + 1, 0, ImagePages(phdrs), 0, 1,
                  Stretch(ArgumentPage(phdrs), 2));
      }
    }
    status := if status.Ok? then Ok else Panic;
  }

  /** `load_elf`, whose result is not looked at, and `set_stack`. */
  method LoadInit(mem: Memory, t: Space, file: seq<nat>, phdrs: seq<ProgramHeader>, ghost pt: PageTable, ghost a: View)
      returns (status: Status, t': Space, loaded: bool, ghost pt': PageTable)
    requires Holds(mem, pt) && Ready(ViewOf(mem, pt), t, Section(0, 0)) && AllInFile(file, phdrs)
    requires Local(a, ViewOf(mem, pt)) && Taken(a) && t.sections == [] && pt.trans.Keys == Fixed()
    modifies mem, mem.pool, mem.pool.link
    ensures !status.NotMapped?
    ensures status.Ok? ==> Holds(mem, pt') && Running(ViewOf(mem, pt'), t') && Local(a, ViewOf(mem, pt'))
    ensures status.Ok? ==> t'.stack == Section(SHARED_MEMORY - PGSIZE, PGSIZE)
    ensures status.Ok? && loaded ==> AllFilled(ViewOf(mem, pt'), file, phdrs) && t'.sections == Loads(phdrs)
    ensures status.Ok? && loaded <==>
      ElfMagic(file) && Replaceable(phdrs) && CanReplace(old(ViewOf(mem, pt)), phdrs)
    ensures status.Ok? && loaded ==>
      Paid(old(ViewOf(mem, pt)), ViewOf(mem, pt'), PageCount(phdrs) + 1, 0, ImagePages(phdrs))
  {
    hide StockOf, CanPay, Paid, Represents, Agrees, AllFilled, Frames, Loadable, Local, PageIs, ElfMagic, StackIn;
    hide AllPages, Loads, StackPages, PageCount;
    ghost var b := ViewOf(mem, pt);
    NothingBefore(t.sections, Loads(phdrs));
    status, t', pt' := LoadElf(mem, t, file, phdrs, pt, Section(0, 0));
    loaded := status.Ok?;
    ghost var c := ViewOf(mem, pt');
    if !loaded && CanReplace(b, phdrs) {
      PayLess(b, PageCount(phdrs), 0, AllPages(Loads(phdrs)), 1, 0, StackPages());
    }
    if status.Panic? {
      return;
    }
    LocalTwice(a, b, c);
    if loaded {
      PayTwice(b, c, PageCount(phdrs), 0, AllPages(Loads(phdrs)), 1, 0, StackPages());
    }
    status, t', pt' := SetStack(mem, t', pt');
    if status.Ok? {
      LocalTwice(a, c, ViewOf(mem, pt'));
      if loaded {
        PaidTwice(b, c, ViewOf(mem, pt'), PageCount(phdrs), 0, AllPages(Loads(phdrs)), 1, 0, StackPages());
        PaidIsCan(b, ViewOf(mem, pt'), PageCount(phdrs) + 1, 0, ImagePages(phdrs));
        AllFilledKept(c, ViewOf(mem, pt'), file, phdrs);
      }
    }
  }

  method InitArguments(mem: Memory, t: Space, name: seq<char>, ghost file: seq<nat>, ghost phdrs: seq<ProgramHeader>,
                       ghost loaded: bool, ghost pt: PageTable, ghost a: View)
      returns (status: Status, t': Space, a1: nat, ghost pt': PageTable)
    requires Holds(mem, pt) && Running(ViewOf(mem, pt), t) && Local(a, ViewOf(mem, pt)) && Taken(a)
    requires AllInFile(file, phdrs) && (loaded ==> AllFilled(ViewOf(mem, pt), file, phdrs))
    requires |name| < PGSIZE && CStrings.NulFree(name)
    modifies mem, mem.pool, mem.pool.link
    ensures !status.NotMapped?
    ensures status.Ok? ==> Holds(mem, pt') && Started(ViewOf(mem, pt'), t') && Local(a, ViewOf(mem, pt'))
    ensures status.Ok? && loaded ==> AllFilled(ViewOf(mem, pt'), file, phdrs)
    ensures status.Ok? ==> FindsName(ViewOf(mem, pt'), a1, name)
    ensures status.Ok? ==> t' == WithArguments(t, EndOf(t.sections))
    ensures status.Ok? <==>
      && EndOf(t.sections) + PGSIZE < t.stack.start
      && CanPay(old(ViewOf(mem, pt)), 0, 1, Stretch(EndOf(t.sections) / PGSIZE, 2))
    ensures status.Ok? ==> Paid(old(ViewOf(mem, pt)), ViewOf(mem, pt'), 0, 1, Stretch(EndOf(t.sections) / PGSIZE, 2))
  {
    hide CanPay, Paid, Represents, Agrees, AllFilled, FindsName, Frames, Names, Hole, StockOf, Enough, Stretch, Local;
    hide Behind, EndOf, NameText, TableBytes, InitTable, SameLeaves;
    ghost var b, v := ViewOf(mem, pt), 0;
    var had;
    var va := AvailableFrom(t.sections);
    BehindIsEnd(t.sections, va);
    a1 := va + PGSIZE;
    status, had, t', pt', v := SetArguments(mem, t, va, NameText(name), TableBytes(InitTable(va)), pt);
    if status.Ok? {
      ghost var c := ViewOf(mem, pt');
      LocalTwice(a, b, c);
      if loaded {
        AllFilledKept(b, c, file, phdrs);
      }
      ArgumentPageIsRead(c, v, NameText(name));
      ArgumentPageIsRead(c, v + 1, TableBytes(InitTable(va)));
      InitFound(c, t', v, va, name, a1);
    }
  }

  lemma InitTableAt(va: nat)
    ensures InitTable(va)[0] == va && InitTable(va)[1] == 0
  {}

  lemma InitFound(m: View, t: Space, v: nat, va: nat, name: seq<char>, a1: nat)
    requires |name| < PGSIZE && CStrings.NulFree(name)
    requires ReadPage(m, v) == Some(NameText(name)) && ReadPage(m, v + 1) == Some(TableBytes(InitTable(va)))
    requires
      && a1 == va + PGSIZE
      && va == v * PGSIZE
      && AllFit(t.sections)
      && t.sections != []
      && t.sections[|t.sections| - 1] == Section(va, 2 * PGSIZE)
    ensures FindsName(m, a1, name)
  {
    hide TableBytes, NameText, InitTable, Text, ExecArgs.StringAt, UserWord, UserString;
    assert Fits(t.sections[|t.sections| - 1]);
    NameString(name);
    InitTableAt(va);
    ArgumentIsFollowed(m, v, NameText(name), InitTable(va), 0, va, name, a1);
    WordLimit();
    WordBehind(m, v + 1, InitTable(va), 1, a1 + 8);
  }
}

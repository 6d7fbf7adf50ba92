/** Every run of the machine: programs that fork, exec, fault, store and exit, in whatever order. */
module Machine {
  import opened Sv39
  import opened PageTables
  import opened Ranges
  import opened Supply
  import opened Memory
  import opened AddressSpace
  import opened Ledger
  import opened Isolation
  import opened TaskMemory
  import opened UserSpace
  import opened Shortage
  import opened Fork
  import opened TaskSteps
  import opened Exec
  import BuddyBlocks

  // ----- The machine and its tasks -----

  datatype Task = Task(pt: PageTable, space: Space)

  /** The memory of the machine and the tasks in it, by pid. */
  datatype World = World(tables: Tables, pages: Pages, free: set<int>, tasks: map<nat, Task>)

  ghost function ViewFor(w: World, pid: nat): View {
    View(w.tables, w.pages, w.free, if pid in w.tasks then w.tasks[pid].pt else PageTable(0, map[], map[]))
  }

  /** The task can run: ledger and page table agree, the stack is where it belongs, every section fits. */
  ghost predicate InOrder(w: World, pid: nat)
    requires pid in w.tasks
  {
    Represents(w.tables, w.tasks[pid].pt) && Started(ViewFor(w, pid), w.tasks[pid].space)
  }

  /** The tasks that are in order. */
  ghost function Sound(w: World): set<nat> {
    set i | i in w.tasks && InOrder(w, i)
  }

  /** Every task is in order, and no two tasks share a page but the trampoline. */
  ghost predicate Separate(w: World) {
    && Taken(ViewFor(w, 0))
    && Sound(w) == w.tasks.Keys
    && (forall i, j :: i in w.tasks && j in w.tasks && i != j ==> Claims(ViewFor(w, i)) !! Claims(ViewFor(w, j)))
  }

  /** The world after task `pid` went to `b`. */
  ghost function After(w: World, pid: nat, b: View, space: Space): World {
    World(b.tables, b.pages, b.free, w.tasks[pid := Task(b.pt, space)])
  }

  /** The world after task `pid` ended. */
  ghost function Without(w: World, pid: nat, b: View): World {
    World(b.tables, b.pages, b.free, w.tasks - {pid})
  }

  /** The task has the same page table and reads what it read. */
  ghost predicate Undisturbed(w: World, w': World, j: nat)
    requires j in w.tasks
  {
    && j in w'.tasks && w'.tasks[j] == w.tasks[j]
    && forall v :: v in Private(ViewFor(w, j)) ==> PageBehind(ViewFor(w', j), v) == PageBehind(ViewFor(w, j), v)
  }

  ghost predicate OthersUndisturbed(w: World, w': World, pid: nat) {
    forall j :: j in w.tasks && j != pid ==> Undisturbed(w, w', j)
  }

  // ----- One task acts -----

  lemma OtherIsStranger(w: World, pid: nat, j: nat)
    requires Separate(w) && j in w.tasks && j != pid
    ensures Stranger(ViewFor(w, pid), w.tasks[j].pt)
  {
    assert j in Sound(w);
    assert ViewFor(w, pid).(pt := w.tasks[j].pt) == ViewFor(w, j);
    ClaimsTaken(ViewFor(w, j));
    if pid !in w.tasks {
      NoClaims(ViewFor(w, pid));
    }
  }

  /** Memory went from the view of task `pid` to `b`; the other tasks are the same. */
  ghost predicate Moves(w: World, w': World, pid: nat, b: View) {
    && w'.tables == b.tables && w'.pages == b.pages && w'.free == b.free
    && Local(ViewFor(w, pid), b) && Taken(b)
    && forall j :: j != pid ==> (j in w'.tasks <==> j in w.tasks) && (j in w.tasks ==> w'.tasks[j] == w.tasks[j])
  }

  lemma OtherInOrder(w: World, w': World, pid: nat, b: View, j: nat)
    requires Separate(w) && Moves(w, w', pid, b) && j in w.tasks && j != pid
    ensures j in w'.tasks && InOrder(w', j)
    ensures Claims(ViewFor(w', j)) == Claims(ViewFor(w, j)) && Claims(ViewFor(w', j)) !! Claims(b)
  {
    var a, t := ViewFor(w, pid), w.tasks[j];
    OtherIsStranger(w, pid, j);
    assert a.(pt := t.pt) == ViewFor(w, j) && b.(pt := t.pt) == ViewFor(w', j);
    assert j in Sound(w);
    StrangerKept(a, b, t.pt);
    StrangerAgrees(a, b, t.pt, t.space.sections, t.space.stack);
  }

  lemma OtherUndisturbed(w: World, w': World, pid: nat, b: View, j: nat)
    requires Separate(w) && Moves(w, w', pid, b) && j in w.tasks && j != pid
    ensures Undisturbed(w, w', j)
  {
    var a, t := ViewFor(w, pid), w.tasks[j];
    OtherIsStranger(w, pid, j);
    assert a.(pt := t.pt) == ViewFor(w, j) && b.(pt := t.pt) == ViewFor(w', j);
    assert j in Sound(w);
    forall v | v in Private(ViewFor(w, j))
      ensures PageBehind(ViewFor(w', j), v) == PageBehind(ViewFor(w, j), v)
    {
      assert UserPage(ViewFor(w, j), v);
      StrangerReads(a, b, t.pt, v);
    }
  }

  /** No two tasks have a page in common: no table, and no data page but the trampoline. */
  lemma NothingShared(w: World, i: nat, j: nat)
    requires Separate(w) && i in w.tasks && j in w.tasks && i != j
    ensures forall p, q :: p in w.tasks[i].pt.shape && q in w.tasks[j].pt.shape ==>
      w.tasks[i].pt.shape[p] != w.tasks[j].pt.shape[q]
    ensures forall v, u ::
      v in w.tasks[i].pt.trans && v != 0x3FF_FFFF && u in w.tasks[j].pt.trans && u != 0x3FF_FFFF ==>
      w.tasks[i].pt.trans[v].pa != w.tasks[j].pt.trans[u].pa
  {
    var a, b := ViewFor(w, i), ViewFor(w, j);
    forall p, q | p in a.pt.shape && q in b.pt.shape
      ensures a.pt.shape[p] != b.pt.shape[q]
    {
      assert PageNo(a.pt.shape[p]) in Claims(a) && PageNo(b.pt.shape[q]) in Claims(b);
    }
    forall v, u | v in a.pt.trans && v != 0x3FF_FFFF && u in b.pt.trans && u != 0x3FF_FFFF
      ensures a.pt.trans[v].pa != b.pt.trans[u].pa
    {
      assert v in Private(a) && u in Private(b);
      assert PageNo(a.pt.trans[v].pa) in Claims(a) && PageNo(b.pt.trans[u].pa) in Claims(b);
    }
  }

  /** A local step keeps every task in order and separate, if it leaves its own task in order or ended. */
  lemma MoveKeepsSeparate(w: World, w': World, pid: nat, b: View)
    requires Separate(w) && Moves(w, w', pid, b) && ViewFor(w', pid) == b && (pid in w'.tasks ==> pid in Sound(w'))
    ensures Separate(w')
  {
    forall j | j in w'.tasks
      ensures j in Sound(w')
    {
      if j != pid {
        OtherInOrder(w, w', pid, b, j);
      }
    }
    forall i, j | i in w'.tasks && j in w'.tasks && i != j
      ensures Claims(ViewFor(w', i)) !! Claims(ViewFor(w', j))
    {
      if i != pid {
        OtherInOrder(w, w', pid, b, i);
      }
      if j != pid {
        OtherInOrder(w, w', pid, b, j);
      }
    }
  }

  lemma MoveKeepsOthers(w: World, w': World, pid: nat, b: View)
    requires Separate(w) && Moves(w, w', pid, b)
    ensures OthersUndisturbed(w, w', pid)
  {
    forall j | j in w.tasks && j != pid
      ensures Undisturbed(w, w', j)
    {
      OtherUndisturbed(w, w', pid, b, j);
    }
  }

  lemma StepKeeps(w: World, pid: nat, b: View, space: Space)
    requires Separate(w) && Local(ViewFor(w, pid), b) && Taken(b) && Represents(b.tables, b.pt) && Started(b, space)
    ensures Separate(After(w, pid, b, space)) && OthersUndisturbed(w, After(w, pid, b, space), pid)
  {
    AfterIs(w, pid, b, space);
    assert pid in Sound(After(w, pid, b, space));
    MoveKeepsSeparate(w, After(w, pid, b, space), pid, b);
    MoveKeepsOthers(w, After(w, pid, b, space), pid, b);
  }

  lemma AfterIs(w: World, pid: nat, b: View, space: Space)
    requires Local(ViewFor(w, pid), b) && Taken(b)
    ensures ViewFor(After(w, pid, b, space), pid) == b && Moves(w, After(w, pid, b, space), pid, b)
  {}

  lemma WithoutIs(w: World, pid: nat, b: View)
    requires Local(ViewFor(w, pid), b) && Taken(b) && b == Unborn(b)
    ensures
      && ViewFor(Without(w, pid, b), pid) == b
      && Moves(w, Without(w, pid, b), pid, b)
      && pid !in Without(w, pid, b).tasks
  {}

  lemma EndKeeps(w: World, pid: nat, b: View)
    requires Separate(w) && Local(ViewFor(w, pid), b) && Taken(b) && b == Unborn(b)
    ensures Separate(Without(w, pid, b)) && OthersUndisturbed(w, Without(w, pid, b), pid)
  {
    WithoutIs(w, pid, b);
    MoveKeepsSeparate(w, Without(w, pid, b), pid, b);
    MoveKeepsOthers(w, Without(w, pid, b), pid, b);
  }

  // ----- The operations of the kernel as steps -----

  ghost function Spaces(tasks: map<nat, Task>): map<nat, Space> {
    map i | i in tasks :: tasks[i].space
  }

  lemma SpacesUpdated(tasks: map<nat, Task>, pid: nat, t: Task)
    ensures Spaces(tasks[pid := t]) == Spaces(tasks)[pid := t.space] && Spaces(tasks - {pid}) == Spaces(tasks) - {pid}
  {}

  /** The kernel's fields of the tasks and the memory of the machine make a world in order. */
  ghost predicate Orderly(mem: Memory, tasks: map<nat, Space>, w: World)
    reads mem, mem.pool, mem.pool.link
  {
    && mem.Valid() && w.tables == mem.tables && w.pages == mem.pages && w.free == mem.pool.free
    && Separate(w) && tasks == Spaces(w.tasks)
  }

  /** What an operation on task `pid` can rely on. */
  lemma OneTask(mem: Memory, tasks: map<nat, Space>, w: World, pid: nat)
    requires Orderly(mem, tasks, w) && pid in tasks
    ensures pid in w.tasks && w.tasks[pid].space == tasks[pid] && ViewFor(w, pid) == ViewOf(mem, w.tasks[pid].pt)
    ensures Holds(mem, w.tasks[pid].pt) && Started(ViewOf(mem, w.tasks[pid].pt), tasks[pid])
  {
    assert pid in Sound(w);
  }

  /** What an operation has to leave. */
  lemma TaskAfter(mem: Memory, tasks: map<nat, Space>, w: World, pid: nat, pt: PageTable, space: Space)
    requires Separate(w) && tasks == Spaces(w.tasks)
    requires Holds(mem, pt) && Started(ViewOf(mem, pt), space) && Local(ViewFor(w, pid), ViewOf(mem, pt))
    ensures Orderly(mem, tasks[pid := space], After(w, pid, ViewOf(mem, pt), space))
    ensures OthersUndisturbed(w, After(w, pid, ViewOf(mem, pt), space), pid)
  {
    SpacesUpdated(w.tasks, pid, Task(pt, space));
    StepKeeps(w, pid, ViewOf(mem, pt), space);
  }

  /** No page table: the view of a task that is not there. */
  ghost function NoTask(mem: Memory): View
    reads mem, mem.pool
  {
    ViewOf(mem, PageTable(0, map[], map[]))
  }

  lemma TaskEnded(mem: Memory, tasks: map<nat, Space>, w: World, pid: nat)
    requires Separate(w) && tasks == Spaces(w.tasks) && mem.Valid() && Local(ViewFor(w, pid), NoTask(mem))
    ensures Orderly(mem, tasks - {pid}, Without(w, pid, NoTask(mem)))
    ensures OthersUndisturbed(w, Without(w, pid, NoTask(mem)), pid)
  {
    SpacesUpdated(w.tasks, pid, Task(PageTable(0, map[], map[]), Space(0, [], Section(0, 0), 0, 0, 0)));
    EndKeeps(w, pid, NoTask(mem));
  }

  const INIT: nat := 1

  /** The child is the parent's twin on sections and stack. */
  ghost predicate TwinTask(w: World, w': World, parent: nat, child: nat) {
    && parent in w.tasks && child in w'.tasks
    && w'.tasks[child].space.sections == w.tasks[parent].space.sections
    && w'.tasks[child].space.stack == w.tasks[parent].space.stack
    && Twin(ViewFor(w, parent), ViewFor(w', child),
            AllPages(w.tasks[parent].space.sections) + PagesOf(w.tasks[parent].space.stack))
  }

  /** There is enough to fork the task. */
  ghost predicate ForkFits(w: World, pid: nat)
    requires pid in w.tasks
  {
    EnoughToFork(StockOf(w.free), w.tasks[pid].pt.trans.Keys)
  }

  /** fork: the parent is one of the undisturbed. With enough memory there is a twin; with so little that `new_task`
      refuses, nothing happens to any task. In between, the run ends. */
  method ForkStep(mem: Memory, tasks: map<nat, Space>, pid: nat, child: nat, trampoline: nat, ghost w: World)
      returns (status: Status, tasks': map<nat, Space>, ghost w': World)
    requires Orderly(mem, tasks, w) && pid in tasks && child !in tasks
    modifies mem, mem.pool, mem.pool.link
    ensures status.Ok? || status.NoMemory?
    ensures pid in w.tasks && (status.Ok? <==> ForkFits(w, pid) || !Enough(StockOf(w.free), 3, 1))
    ensures status.Ok? ==> Orderly(mem, tasks', w') && OthersUndisturbed(w, w', child)
    ensures status.Ok? && ForkFits(w, pid) ==>
      child in tasks' && tasks' == tasks[child := tasks'[child]] && TwinTask(w, w', pid, child)
    ensures status.Ok? && ForkFits(w, pid) ==> child in w'.tasks && w'.tasks == w.tasks[child := w'.tasks[child]]
    ensures status.Ok? && !ForkFits(w, pid) ==> tasks' == tasks && w'.tasks == w.tasks
  {
    hide EnoughToFork, Enough, StockOf, Represents, PagesSuffice, LostPages, Lost, Twin, Separate, OthersUndisturbed;
    hide Gaps, Astray, Agrees, Local;
    OneTask(mem, tasks, w, pid);
    assert child !in w.tasks;
    ghost var pt := w.tasks[pid].pt;
    ghost var a := ViewOf(mem, pt);
    var birth, whole, intact, space;
    ghost var childPt;
    ForkNeeds(StockOf(w.free), pt.trans.Keys);
    status, birth, whole, intact, space, childPt := ForkProcess(mem, tasks[pid], trampoline, pt);
    assert ViewFor(w, child) == Unborn(a);
    if status.Ok? && whole {
      tasks', w' := tasks[child := space], After(w, child, ViewOf(mem, childPt), space);
      TaskAfter(mem, tasks, w, child, childPt, space);
    } else if birth.Refused? {
      status, tasks', w' := Ok, tasks, Without(w, child, NoTask(mem));
      TaskEnded(mem, tasks, w, child);
      assert tasks - {child} == tasks;
    } else {
      status, tasks', w' := NoMemory, tasks, w;
    }
  }

  lemma ForkNeeds(s: Stock, mapped: set<nat>)
    requires Fixed() <= mapped
    ensures EnoughToFork(s, mapped) ==> Enough(s, 3, 1)
  {
    assert Fixed() + (mapped - Fixed()) == mapped;
    NewTables(s, mapped - Fixed());
    assert |mapped| == |Fixed()| + |mapped - Fixed()|;
  }

  /** What exec of an image needs: the memory after the old program is gone, and the shared page. */
  ghost predicate ExecFits(w: World, pid: nat, file: seq<nat>, phdrs: seq<ProgramHeader>, argc: nat)
    requires pid in w.tasks
  {
    CanExec(Emptied(ViewFor(w, pid), ProgramPages(w.tasks[pid].space)), ViewFor(w, pid), file, phdrs, argc)
  }

  ghost predicate ExecEnds(w: World, pid: nat, file: seq<nat>, phdrs: seq<ProgramHeader>, argc: nat)
    requires pid in w.tasks
  {
    ExecExits(Emptied(ViewFor(w, pid), ProgramPages(w.tasks[pid].space)), ViewFor(w, pid), file, phdrs, argc)
  }

  /** The task has the image, its arguments and nothing else. */
  ghost predicate Execed(w: World, w': World, pid: nat, file: seq<nat>, phdrs: seq<ProgramHeader>, argc: nat)
    requires AllInFile(file, phdrs)
  {
    && pid in w.tasks && pid in w'.tasks && w'.tasks == w.tasks[pid := w'.tasks[pid]]
    && w'.tasks[pid].space == WithArguments(Replaced(w.tasks[pid].space, phdrs), EndOf(Loads(phdrs)))
    && ImageIs(ViewFor(w', pid), file, phdrs)
    && Given(ViewFor(w, pid), argc).Some?
    && Finds(ViewFor(w', pid), EndOf(Loads(phdrs)) + PGSIZE, Given(ViewFor(w, pid), argc).value)
    && Strays(ViewFor(w', pid)) == Strays(ViewFor(w, pid))
  }

  lemma ExecedIf(w: World, w': World, pid: nat, b: View, space: Space, file: seq<nat>, phdrs: seq<ProgramHeader>,
                 argc: nat, va: nat)
    requires AllInFile(file, phdrs) && pid in w.tasks && w' == After(w, pid, b, space)
    requires space == WithArguments(Replaced(w.tasks[pid].space, phdrs), va) && va == EndOf(Loads(phdrs))
    requires ImageIs(b, file, phdrs) && Given(ViewFor(w, pid), argc).Some?
    requires Finds(b, va + PGSIZE, Given(ViewFor(w, pid), argc).value) && Strays(b) == Strays(ViewFor(w, pid))
    ensures Execed(w, w', pid, file, phdrs, argc)
  {
    hide ImageIs, Finds, Given, Strays, Loads, EndOf, Replaced;
    assert ViewFor(w', pid) == b;
  }

  /** The task is gone, and all its data pages; `lost` pages are nobody's. */
  ghost predicate Gone(w: World, w': World, pid: nat, lost: nat) {
    w'.tasks == w.tasks - {pid} && Remain(w'.pages.Keys, Strays(ViewFor(w, pid)), lost)
  }

  lemma GoneAfter(w: World, w': World, pid: nat, b: View, lost: nat)
    requires w' == Without(w, pid, b) && Remain(b.pages.Keys, Strays(ViewFor(w, pid)), lost)
    ensures Gone(w, w', pid, lost)
  {}

  lemma GoneIf(w: World, w': World, pid: nat)
    requires w'.tasks == w.tasks - {pid} && w'.pages.Keys == Strays(ViewFor(w, pid))
    ensures Gone(w, w', pid, 0)
  {
    assert w'.pages.Keys - Strays(ViewFor(w, pid)) == {};
  }

  /** exec by system call, whatever the shared page holds: the program is replaced, or the task ends. */
  method ExecStep(mem: Memory, tasks: map<nat, Space>, pid: nat, file: seq<nat>, phdrs: seq<ProgramHeader>,
                  argc: nat, ghost w: World)
      returns (status: Status, tasks': map<nat, Space>, ghost w': World)
    requires Orderly(mem, tasks, w) && pid in tasks && AllInFile(file, phdrs)
    modifies mem, mem.pool, mem.pool.link
    ensures status.Ok? || status.Panic?
    ensures pid in w.tasks && (status.Ok? <==>
      ExecFits(w, pid, file, phdrs, argc) || (ExecEnds(w, pid, file, phdrs, argc) && pid != INIT))
    ensures status.Ok? ==> Orderly(mem, tasks', w') && OthersUndisturbed(w, w', pid)
    ensures status.Ok? && ExecFits(w, pid, file, phdrs, argc) ==>
      pid in tasks' && tasks' == tasks[pid := tasks'[pid]] && Execed(w, w', pid, file, phdrs, argc)
    ensures status.Ok? && !ExecFits(w, pid, file, phdrs, argc) ==>
      && tasks' == tasks - {pid}
      && Gone(w, w', pid, LostArguments(Emptied(ViewFor(w, pid), ProgramPages(w.tasks[pid].space)), phdrs))
  {
    hide CanExec, ExecExits, Represents, AllFilled, Finds, Separate, OthersUndisturbed, Emptied, ProgramPages;
    hide ImageIs, Strays, Remain, LostArguments, Given, Execed, Gone, Replaced, Loads;
    OneTask(mem, tasks, w, pid);
    ghost var pt := w.tasks[pid].pt;
    ghost var a := ViewOf(mem, pt);
    OneOrTheOther(Emptied(a, ProgramPages(tasks[pid])), a, file, phdrs, argc);
    var space, vectors, va;
    status, space, vectors, va, pt := ExecProcess(mem, tasks[pid], file, phdrs, argc, pt);
    if status.Ok? {
      tasks', w' := tasks[pid := space], After(w, pid, ViewOf(mem, pt), space);
      TaskAfter(mem, tasks, w, pid, pt, space);
      ExecedIf(w, w', pid, ViewOf(mem, pt), space, file, phdrs, argc, va);
    } else if status.NoMemory? && pid != INIT {
      status, tasks', w' := Ok, tasks - {pid}, Without(w, pid, NoTask(mem));
      TaskEnded(mem, tasks, w, pid);
      GoneAfter(w, w', pid, NoTask(mem), LostArguments(Emptied(ViewFor(w, pid), ProgramPages(tasks[pid])), phdrs));
    } else {
      status, tasks', w' := Panic, tasks, w;
    }
  }

  lemma OneOrTheOther(e: View, o: View, file: seq<nat>, phdrs: seq<ProgramHeader>, argc: nat)
    ensures !(CanExec(e, o, file, phdrs, argc) && ExecExits(e, o, file, phdrs, argc))
  {
    hide CanPay, CanLoadImage, GoodArguments, Stretch, ImagePages;
    if CanGive(e, phdrs) {
      var s := Stretch(ArgumentPage(phdrs), 2);
      assert ImagePages(phdrs) + s == ImagePages(phdrs) + s + {};
      PayLess(e, PageCount(phdrs) + 1, 1, ImagePages(phdrs), 0, 0, s);
    }
  }

  lemma SameTasks(tasks: map<nat, Space>, pid: nat)
    requires pid in tasks
    ensures tasks[pid := tasks[pid]] == tasks
  {}

  /** The page table lets the program store there: the address is below MAXVA, and the entry has the bits W and U. */
  ghost predicate MayStore(w: World, pid: nat, va: nat)
    requires pid in w.tasks
  {
    var trans := w.tasks[pid].pt.trans;
    && va < 0x40_0000_0000 && va / 4096 in trans
    && (trans[va / 4096].flags / 4) % 2 == 1 && (trans[va / 4096].flags / 16) % 2 == 1
  }

  /** One byte of the page behind the address is the one stored; everything else is as it was. */
  ghost predicate ByteStored(w: World, w': World, pid: nat, va: nat, byte: nat)
    requires pid in w.tasks && va / 4096 in w.tasks[pid].pt.trans
  {
    var frame := w.tasks[pid].pt.trans[va / 4096].pa;
    && frame in w.pages && |w.pages[frame]| == 4096
    && var page: seq<nat> := w.pages[frame][va % 4096 := byte];
      w' == w.(pages := w.pages[frame := page])
  }

  /** A user program stores a byte, if its page table lets it. */
  method StoreStep(mem: Memory, tasks: map<nat, Space>, pid: nat, va: nat, byte: nat, ghost w: World)
      returns (done: bool, ghost w': World)
    requires Orderly(mem, tasks, w) && pid in tasks
    modifies mem`pages
    ensures Orderly(mem, tasks, w') && OthersUndisturbed(w, w', pid)
    ensures pid in w.tasks && (done <==> MayStore(w, pid, va))
    ensures if done then ByteStored(w, w', pid, va, byte) else w' == w
  {
    hide Represents, Separate, OthersUndisturbed, Agrees;
    OneTask(mem, tasks, w, pid);
    ghost var pt := w.tasks[pid].pt;
    done := UserStore(mem, tasks[pid], va, byte, pt);
    w' := After(w, pid, ViewOf(mem, pt), tasks[pid]);
    SameTasks(tasks, pid);
    TaskAfter(mem, tasks, w, pid, pt, tasks[pid]);
  }

  /** The tables of the task are free again, but for its leaf tables. */
  ghost predicate TablesGone(w: World, w': World, pid: nat) {
    && pid in w.tasks
    && forall p :: p in w.tasks[pid].pt.shape && !p.Leaf? ==>
      w.tasks[pid].pt.shape[p] !in w'.tables && PageNo(w.tasks[pid].pt.shape[p]) in w'.free
  }

  /** The end of a task. The end of init is a panic. */
  method ExitStep(mem: Memory, tasks: map<nat, Space>, pid: nat, ghost w: World)
      returns (status: Status, tasks': map<nat, Space>, ghost w': World)
    requires Orderly(mem, tasks, w) && pid in tasks
    modifies mem, mem.pool, mem.pool.link
    ensures status.Ok? || status.Panic?
    ensures status.Panic? <==> pid == INIT
    ensures status.Ok? ==> Orderly(mem, tasks', w') && tasks' == tasks - {pid} && OthersUndisturbed(w, w', pid)
    ensures status.Ok? ==> Gone(w, w', pid, 0) && TablesGone(w, w', pid)
  {
    hide Strays, Remain, Represents, Separate, OthersUndisturbed, Agrees, FrameSet, NumberSet;
    tasks', w' := tasks, w;
    if pid == INIT {
      return Panic, tasks', w';
    }
    OneTask(mem, tasks, w, pid);
    ghost var pt := w.tasks[pid].pt;
    status := ExitProcess(mem, tasks[pid], pt, tasks[pid].stack);
    tasks', w' := tasks - {pid}, Without(w, pid, NoTask(mem));
    TaskEnded(mem, tasks, w, pid);
    GoneIf(w, w', pid);
  }

  /** The stack would have to grow over a section. */
  ghost predicate Collides(w: World, pid: nat, addr: nat) {
    pid in w.tasks && InTheWayOfStack(w.tasks[pid].pt.trans, w.tasks[pid].space.stack, addr)
  }

  /** The stack can be grown to cover the address. */
  ghost predicate FaultFits(w: World, pid: nat, addr: nat)
    requires pid in w.tasks
  {
    && WithinStackRange(addr) && CanEnlarge(ViewFor(w, pid), w.tasks[pid].space.stack, addr) && !Collides(w, pid, addr)
  }

  /** The stack reaches down to the page of the address, if it did not before; the new pages are cleared, and
      everything else is as it was. */
  ghost predicate Grown(w: World, w': World, pid: nat, addr: nat) {
    && pid in w.tasks && pid in w'.tasks && w'.tasks == w.tasks[pid := w'.tasks[pid]]
    && var t, t' := w.tasks[pid].space, w'.tasks[pid].space;
      && t' == t.(stack := t'.stack)
      && t'.stack.start == (if addr / 4096 * 4096 < t.stack.start then addr / 4096 * 4096 else t.stack.start)
      && addr / 4096 in w'.tasks[pid].pt.trans
      && NewlyCleared(ViewFor(w', pid), t', t.stack.start) && Extended(ViewFor(w, pid), ViewFor(w', pid))
      && Strays(ViewFor(w', pid)) == Strays(ViewFor(w, pid))
  }

  /** A page fault: the stack grows, or the task is made to exit. */
  method FaultStep(mem: Memory, tasks: map<nat, Space>, pid: nat, addr: nat, ghost w: World)
      returns (status: Status, tasks': map<nat, Space>, ghost w': World)
    requires Orderly(mem, tasks, w) && pid in tasks
    modifies mem, mem.pool, mem.pool.link
    ensures status.Ok? || status.Panic?
    ensures status.Ok? ==> Orderly(mem, tasks', w') && tasks'.Keys <= tasks.Keys && OthersUndisturbed(w, w', pid)
    ensures status.Ok? && pid in tasks' ==> Grown(w, w', pid, addr)
    ensures status.Ok? && pid !in tasks' ==> Gone(w, w', pid, 0)
    ensures pid in w.tasks && (status.Ok? && pid in tasks' <==> FaultFits(w, pid, addr))
    ensures status.Panic? ==> !FaultFits(w, pid, addr) && (pid == INIT || Collides(w, pid, addr))
  {
    hide Represents, Separate, OthersUndisturbed, Enlarged, CanEnlarge, InTheWayOfStack, Agrees, Strays, Extended;
    hide NewlyCleared, Gone, Grown;
    OneTask(mem, tasks, w, pid);
    ghost var pt := w.tasks[pid].pt;
    var space;
    status, space, pt := LoadFault(mem, tasks[pid], addr, pt);
    if status.Ok? {
      EnlargedIsCan(ViewFor(w, pid), ViewOf(mem, pt), tasks[pid].stack, addr);
    }
    tasks', w' := tasks[pid := space], After(w, pid, ViewOf(mem, pt), space);
    if status.Panic? {
      return;
    }
    ExtendedIsLocal(ViewFor(w, pid), ViewOf(mem, pt));
    TaskAfter(mem, tasks, w, pid, pt, space);
    if status.Ok? {
      GrownIf(w, w', pid, ViewOf(mem, pt), space, addr);
    } else {
      ghost var w1 := w';
      status, tasks', w' := ExitAfter(mem, tasks', pid, w, w');
      if status.Ok? {
        SameGone(w, w1, w', pid);
      }
    }
  }

  lemma ExtendedIsLocal(a: View, b: View)
    requires Extended(a, b)
    ensures Local(a, b)
  {}

  lemma GrownIf(w: World, w': World, pid: nat, b: View, space: Space, addr: nat)
    requires pid in w.tasks && w' == After(w, pid, b, space)
    requires var t := w.tasks[pid].space;
      && space == t.(stack := space.stack)
      && space.stack.start == (if RoundDown(addr) < t.stack.start then RoundDown(addr) else t.stack.start)
      && NewlyCleared(b, space, t.stack.start)
    requires addr / PGSIZE in b.pt.trans && Extended(ViewFor(w, pid), b) && Strays(b) == Strays(ViewFor(w, pid))
    ensures Grown(w, w', pid, addr)
  {
    hide NewlyCleared, Extended, Strays;
    assert ViewFor(w', pid) == b;
  }

  lemma EnlargedIsCan(a: View, b: View, stack: Section, addr: nat)
    requires Enlarged(a, b, stack, addr)
    ensures CanEnlarge(a, stack, addr) && !InTheWayOfStack(a.pt.trans, stack, addr)
  {
    hide Paid, CanPay;
    PaidIsCan(a, b, PagesToAdd(stack, addr), 0, SpanToAdd(stack, addr));
  }

  method ExitAfter(mem: Memory, tasks: map<nat, Space>, pid: nat, ghost w0: World, ghost w: World)
      returns (status: Status, tasks': map<nat, Space>, ghost w': World)
    requires Orderly(mem, tasks, w) && pid in tasks && OthersUndisturbed(w0, w, pid)
    modifies mem, mem.pool, mem.pool.link
    ensures status.Ok? || status.Panic?
    ensures status.Panic? ==> pid == INIT
    ensures status.Ok? ==> Orderly(mem, tasks', w') && tasks' == tasks - {pid} && OthersUndisturbed(w0, w', pid)
    ensures status.Ok? ==> Gone(w, w', pid, 0)
  {
    hide Separate, OthersUndisturbed, Gone;
    status, tasks', w' := ExitStep(mem, tasks, pid, w);
    if status.Ok? {
      UndisturbedTwice(w0, w, w', pid);
    }
  }

  lemma SameGone(w0: World, w1: World, w2: World, pid: nat)
    requires w1.tasks - {pid} == w0.tasks - {pid} && Strays(ViewFor(w1, pid)) == Strays(ViewFor(w0, pid))
    requires Gone(w1, w2, pid, 0)
    ensures Gone(w0, w2, pid, 0)
  {}

  lemma UndisturbedTwice(w0: World, w1: World, w2: World, pid: nat)
    requires OthersUndisturbed(w0, w1, pid) && OthersUndisturbed(w1, w2, pid)
    ensures OthersUndisturbed(w0, w2, pid)
  {
    forall j | j in w0.tasks && j != pid
      ensures Undisturbed(w0, w2, j)
    {
      assert Undisturbed(w0, w1, j) && Undisturbed(w1, w2, j);
    }
  }

  // ----- Runs -----

  datatype Request =
    | Fork(pid: nat)
    | Exec(pid: nat, file: seq<nat>, phdrs: seq<ProgramHeader>, argc: nat)
    | Fault(pid: nat, addr: nat)
    | Store(pid: nat, va: nat, byte: nat)
    | Exit(pid: nat)

  /** Files have the bytes that their headers name. */
  predicate WellFormed(r: Request) {
    r.Exec? ==> AllInFile(r.file, r.phdrs)
  }

  /** Pids are handed out in order. */
  ghost predicate PidsBelow(tasks: map<nat, Space>, next: nat) {
    forall i :: i in tasks ==> i < next
  }

  lemma MorePids(tasks: map<nat, Space>, tasks': map<nat, Space>, pid: nat, next: nat)
    requires pid < next && PidsBelow(tasks, next)
    ensures tasks'.Keys <= tasks.Keys + {pid} ==> PidsBelow(tasks', next)
  {}

  /** The task whose memory a request changes. */
  function Actor(r: Request, nextPid: nat): nat {
    if r.Fork? then nextPid else r.pid
  }

  /** The kernel survives the request, and fork does what it promises or nothing. */
  ghost predicate Bearable(w: World, r: Request)
    requires r.pid in w.tasks
  {
    match r
    case Fork(pid) => ForkFits(w, pid) || !Enough(StockOf(w.free), 3, 1)
    case Exec(pid, file, phdrs, argc) =>
      ExecFits(w, pid, file, phdrs, argc) || (ExecEnds(w, pid, file, phdrs, argc) && pid != INIT)
    case Fault(pid, addr) => FaultFits(w, pid, addr) || (pid != INIT && !Collides(w, pid, addr))
    case Store(_, _, _) => true
    case Exit(pid) => pid != INIT
  }

  /** What a request that the kernel survives has done. */
  ghost predicate Served(w: World, r: Request, next: nat, w': World)
    requires WellFormed(r) && r.pid in w.tasks
  {
    match r
    case Fork(pid) =>
      if ForkFits(w, pid) then
        next in w'.tasks && w'.tasks == w.tasks[next := w'.tasks[next]] && TwinTask(w, w', pid, next)
      else w'.tasks == w.tasks
    case Exec(pid, file, phdrs, argc) =>
      if ExecFits(w, pid, file, phdrs, argc) then Execed(w, w', pid, file, phdrs, argc)
      else Gone(w, w', pid, LostArguments(Emptied(ViewFor(w, pid), ProgramPages(w.tasks[pid].space)), phdrs))
    case Fault(pid, addr) => if FaultFits(w, pid, addr) then Grown(w, w', pid, addr) else Gone(w, w', pid, 0)
    case Store(pid, va, byte) => if MayStore(w, pid, va) then ByteStored(w, w', pid, va, byte) else w' == w
    case Exit(pid) => Gone(w, w', pid, 0) && TablesGone(w, w', pid)
  }

  /** One request of a task. Every other task is undisturbed. */
  method ServeOne(mem: Memory, tasks: map<nat, Space>, nextPid: nat, trampoline: nat, r: Request, ghost w: World)
      returns (status: Status, tasks': map<nat, Space>, nextPid': nat, ghost w': World)
    requires Orderly(mem, tasks, w) && PidsBelow(tasks, nextPid) && WellFormed(r) && r.pid in tasks
    modifies mem, mem.pool, mem.pool.link
    ensures status.Ok? ==> Orderly(mem, tasks', w') && PidsBelow(tasks', nextPid')
    ensures status.Ok? ==> OthersUndisturbed(w, w', Actor(r, nextPid))
    ensures r.pid in w.tasks && (Bearable(w, r) ==> status.Ok?)
    ensures status.Ok? && !r.Fault? ==> Bearable(w, r)
    ensures status.Ok? ==> Served(w, r, nextPid, w')
  {
    hide Separate, OthersUndisturbed, ForkFits, ExecFits, ExecEnds, FaultFits, Enough, StockOf, Collides;
    hide Execed, Gone, Grown, TwinTask, ByteStored, MayStore, TablesGone, LostArguments, Emptied, ProgramPages;
    status, tasks', nextPid', w' := Ok, tasks, nextPid, w;
    match r {
      case Fork(pid) =>
        status, tasks', w' := ForkStep(mem, tasks, pid, nextPid, trampoline, w);
        nextPid' := nextPid + 1;
        MorePids(tasks, tasks', nextPid, nextPid');
      case Exec(pid, file, phdrs, argc) =>
        status, tasks', w' := ExecStep(mem, tasks, pid, file, phdrs, argc, w);
        MorePids(tasks, tasks', pid, nextPid);
      case Fault(pid, addr) =>
        status, tasks', w' := FaultStep(mem, tasks, pid, addr, w);
      case Store(pid, va, byte) =>
        var done;
        done, w' := StoreStep(mem, tasks, pid, va, byte, w);
      case Exit(pid) =>
        status, tasks', w' := ExitStep(mem, tasks, pid, w);
    }
  }

  /** A request of a task that is not there is skipped. */
  ghost predicate Follows(w: World, r: Request, w': World)
    requires WellFormed(r)
  {
    if r.pid in w.tasks then exists next :: Served(w, r, next, w') && OthersUndisturbed(w, w', Actor(r, next))
    else w' == w
  }

  /** The machine from its start through any requests of its tasks; `run` has the worlds in between. The run ends
      early when the kernel panics, or when fork has enough to begin but not to finish. */
  method Serve(kernelPages: nat, trampoline: nat, file: seq<nat>, phdrs: seq<ProgramHeader>, requests: seq<Request>)
      returns (status: Status, mem: Memory, tasks: map<nat, Space>, ghost w: World, ghost run: seq<World>)
    requires 1 <= kernelPages <= BuddyBlocks.PAGES && AllInFile(file, phdrs)
    requires forall i :: 0 <= i < |requests| ==> WellFormed(requests[i])
    ensures fresh(mem) && (status.Ok? ==> Orderly(mem, tasks, w))
    ensures status.Ok? ==> |run| == |requests| + 1 && run[0].tasks.Keys == {INIT} && run[|requests|] == w
    ensures status.Ok? ==> forall i :: 0 <= i < |requests| ==> Follows(run[i], requests[i], run[i + 1])
  {
    hide Follows, Separate;
    var nextPid: nat := INIT + 1;
    status, mem, tasks, w := Start(kernelPages, trampoline, file, phdrs);
    run := [w];
    var i: nat := 0;
    while i < |requests| && status.Ok?
      invariant i <= |requests|
      invariant status.Ok? ==> Orderly(mem, tasks, w) && PidsBelow(tasks, nextPid)
      invariant status.Ok? ==> |run| == i + 1 && run[0].tasks.Keys == {INIT} && run[i] == w
      invariant status.Ok? ==> forall k :: 0 <= k < i ==> Follows(run[k], requests[k], run[k + 1])
      invariant fresh(mem) && fresh(mem.pool) && fresh(mem.pool.link)
    {
      status, tasks, nextPid, w := ServeAny(mem, tasks, nextPid, trampoline, requests[i], w);
      run := run + [w];
      i := i + 1;
    }
  }

  method ServeAny(mem: Memory, tasks: map<nat, Space>, nextPid: nat, trampoline: nat, r: Request, ghost w: World)
      returns (status: Status, tasks': map<nat, Space>, nextPid': nat, ghost w': World)
    requires Orderly(mem, tasks, w) && PidsBelow(tasks, nextPid) && WellFormed(r)
    modifies mem, mem.pool, mem.pool.link
    ensures status.Ok? ==> Orderly(mem, tasks', w') && PidsBelow(tasks', nextPid') && Follows(w, r, w')
  {
    hide Served, OthersUndisturbed, Separate;
    status, tasks', nextPid', w' := Ok, tasks, nextPid, w;
    if r.pid in tasks {
      status, tasks', nextPid', w' := ServeOne(mem, tasks, nextPid, trampoline, r, w);
    }
  }

  /** Init alone. */
  method Start(kernelPages: nat, trampoline: nat, file: seq<nat>, phdrs: seq<ProgramHeader>)
      returns (status: Status, mem: Memory, tasks: map<nat, Space>, ghost w: World)
    requires 1 <= kernelPages <= BuddyBlocks.PAGES && AllInFile(file, phdrs)
    ensures fresh(mem) && fresh(mem.pool) && fresh(mem.pool.link)
    ensures status.Ok? ==> Orderly(mem, tasks, w) && PidsBelow(tasks, INIT + 1) && w.tasks.Keys == {INIT}
  {
    mem := new Memory(kernelPages);
    ghost var w0 := World(mem.tables, mem.pages, mem.pool.free, map[]);
    var t, loaded, a1;
    ghost var pt;
    status, t, loaded, a1, pt := StartInit(mem, trampoline, file, phdrs, "init");
    tasks, w := map[INIT := t], After(w0, INIT, ViewOf(mem, pt), t);
    if status.Ok? {
      NobodyYet(w0);
      TaskAfter(mem, map[], w0, INIT, pt, t);
      assert map[][INIT := t] == map[INIT := t];
    }
  }

  lemma NobodyYet(w: World)
    requires w.tasks == map[] && Taken(ViewFor(w, 0))
    ensures Separate(w) && Spaces(w.tasks) == map[]
  {}
}

/** The memory half of struct task_struct: page table, section ledger and stack
    (kernel/process.c and kernel/elf.c). */
module UserSpace {
  import opened Sv39
  import opened PageTables
  import opened Ranges
  import opened Supply
  import opened Memory
  import opened AddressSpace
  import opened Ledger
  import opened Isolation
  import opened TaskMemory

  /** The fields of struct task_struct that describe its memory. */
  datatype Space = Space(root: nat, sections: seq<Section>, stack: Section, stackPermission: nat, trapFrame: nat,
                         sharedMemory: nat)

  predicate StackFlags(permission: nat) {
    permission == PTE_U + PTE_R + PTE_W || permission == PTE_U + PTE_R + PTE_W + PTE_X
  }

  /** The fields agree with the page table; `live` is the mapped part of the stack. */
  ghost predicate Ready(m: View, t: Space, live: Section) {
    && t.root == m.pt.root && Agrees(m, t.sections, live)
    && Frames(m, t.trapFrame, t.sharedMemory) && StackFlags(t.stackPermission)
  }

  /** As a user program runs: the whole stack is mapped, and where it belongs. */
  ghost predicate Running(m: View, t: Space) {
    Ready(m, t, t.stack) && StackIn(t.stack)
  }

  /** As exec and init_scheduler start a program, and fork copies one: with every section below MAXVA,
      empty ones included. */
  ghost predicate Started(m: View, t: Space) {
    Running(m, t) && AllFit(t.sections)
  }

  lemma ReadyKept(a: View, b: View, t: Space, t': Space, live: Section, live': Section)
    requires Ready(a, t, live) && Extended(a, b) && Agrees(b, t'.sections, live') && b.pt.root == a.pt.root
    requires t' == t.(sections := t'.sections, stack := t'.stack)
    ensures Ready(b, t', live')
  {}

  // ----- Stack growth -----

  function Lowered(stack: Section): Section
    requires stack.start >= PGSIZE
  {
    Section(stack.start - PGSIZE, stack.size + PGSIZE)
  }

  lemma LoweredStack(stack: Section)
    requires StackIn(stack) && MIN_STACK_ADDR < stack.start
    ensures stack.start >= PGSIZE && StackIn(Lowered(stack)) && Lower(stack, Lowered(stack), Lowered(stack).start)
  {}

  method EnlargeStackByAPage(mem: Memory, t: Space, ghost pt: PageTable)
      returns (status: Status, t': Space, ghost pt': PageTable)
    requires Holds(mem, pt) && Running(ViewOf(mem, pt), t) && MIN_STACK_ADDR < t.stack.start
    modifies mem, mem.pool, mem.pool.link
    ensures mem.Valid() && !status.NotMapped? && mem.Elsewhere() == old(mem.Elsewhere())
    ensures !status.Panic? ==>
      Holds(mem, pt') && Running(ViewOf(mem, pt'), t') && Extended(old(ViewOf(mem, pt)), ViewOf(mem, pt'))
    ensures status.Ok? ==> t.stack.start >= PGSIZE && t' == t.(stack := Lowered(t.stack))
    ensures status.Ok? ==> PageIs(ViewOf(mem, pt'), t'.stack.start / PGSIZE, ZeroPage(), WithValid(t.stackPermission))
    ensures status.NoMemory? ==> t' == t
    ensures status.Panic? ==> t.stack.start >= PGSIZE && Lowered(t.stack).start / PGSIZE in pt.trans
    ensures t.stack.start >= PGSIZE
    ensures status.Ok? ==> Lowered(t.stack).start / PGSIZE !in pt.trans
    ensures status.Ok? ==>
      Paid(old(ViewOf(mem, pt)), ViewOf(mem, pt'), 1, 0, Stretch(Lowered(t.stack).start / PGSIZE, 1))
    ensures status.NoMemory? ==> !CanPay(old(ViewOf(mem, pt)), 1, 0, Stretch(Lowered(t.stack).start / PGSIZE, 1))
    ensures status.Ok? ==>
      && t'.stack.start / 4096 in pt'.trans
      && Grants(pt'.trans[t'.stack.start / 4096].flags, true, true, (t.stackPermission / 8) % 2 == 1, true)
    ensures !status.Panic? ==> Strays(ViewOf(mem, pt')) == old(Strays(ViewOf(mem, pt)))
  {
    hide Paid, CanPay, Represents, Stretch, Strays;
    ghost var a := ViewOf(mem, pt);
    LoweredStack(t.stack);
    StackGrants(t.stackPermission);
    var stack' := Lowered(t.stack);
    status, pt' := AddStackPage(mem, t.root, stack'.start, t.stackPermission, pt, t.sections, t.stack, stack');
    t' := if status.Ok? then t.(stack := stack') else t;
    if !status.Panic? {
      ReadyKept(a, ViewOf(mem, pt'), t, t', t.stack, t'.stack);
    }
  }

  predicate WithinStackRange(addr: nat) {
    MIN_STACK_ADDR <= addr < SHARED_MEMORY
  }

  /** The stack has `i` pages more than it had. */
  predicate Deeper(stack: Section, stack': Section, i: nat) {
    stack'.start + i * PGSIZE == stack.start && stack'.size == stack.size + i * PGSIZE
  }

  /** The last page to add, and the ones before it, are above the limit. */
  lemma RoomBelow(stack: Section, stack': Section, addr: nat, i: nat)
    requires StackIn(stack) && Deeper(stack, stack', i) && WithinStackRange(addr) && RoundDown(addr) < stack.start
    requires i < (stack.start - RoundDown(addr)) / PGSIZE
    ensures MIN_STACK_ADDR < stack'.start && stack'.start >= PGSIZE && Deeper(stack, Lowered(stack'), i + 1)
    ensures RoundDown(addr) / PGSIZE <= Lowered(stack').start / PGSIZE < stack.start / PGSIZE
  {}

  lemma Reached(stack: Section, stack': Section, addr: nat, times: nat)
    requires StackIn(stack) && StackIn(stack') && WithinStackRange(addr) && Deeper(stack, stack', times)
    requires RoundDown(addr) < stack.start && times == (stack.start - RoundDown(addr)) / PGSIZE
    ensures addr / PGSIZE in PagesOf(stack') && stack'.start == RoundDown(addr)
  {}

  lemma InStack(stack: Section, addr: nat)
    requires StackIn(stack) && WithinStackRange(addr) && stack.start <= RoundDown(addr)
    ensures addr / PGSIZE in PagesOf(stack)
  {}

  /** Some page from the address up to the stack is mapped already. */
  ghost predicate InTheWayOfStack(trans: Translation, stack: Section, addr: nat) {
    exists w :: w in trans && RoundDown(addr) / PGSIZE <= w < stack.start / PGSIZE
  }

  /** The pages that the stack lacks to cover an address. */
  function PagesToAdd(stack: Section, addr: nat): nat {
    if RoundDown(addr) < stack.start then (stack.start - RoundDown(addr)) / PGSIZE else 0
  }

  ghost function SpanToAdd(stack: Section, addr: nat): set<nat> {
    Stretch(RoundDown(addr) / PGSIZE, PagesToAdd(stack, addr))
  }

  lemma NothingToAdd(a: View, stack: Section, addr: nat)
    requires RoundDown(addr) >= stack.start
    ensures Paid(a, a, PagesToAdd(stack, addr), 0, SpanToAdd(stack, addr)) && !InTheWayOfStack(a.pt.trans, stack, addr)
  {
    hide Paid;
    NothingPaid(a);
    assert SpanToAdd(stack, addr) == {};
    assert RoundDown(addr) / PGSIZE >= stack.start / PGSIZE;
  }

  /** What enlarging the stack costs, and whether it is possible. */
  ghost predicate Enlarged(a: View, b: View, stack: Section, addr: nat) {
    && Paid(a, b, PagesToAdd(stack, addr), 0, SpanToAdd(stack, addr)) && !InTheWayOfStack(a.pt.trans, stack, addr)
  }

  ghost predicate CanEnlarge(a: View, stack: Section, addr: nat) {
    CanPay(a, PagesToAdd(stack, addr), 0, SpanToAdd(stack, addr))
  }

  method TryEnlargeStack(mem: Memory, t: Space, addr: nat, ghost pt: PageTable)
      returns (status: Status, t': Space, ghost pt': PageTable)
    requires Holds(mem, pt) && Running(ViewOf(mem, pt), t)
    modifies mem, mem.pool, mem.pool.link
    ensures mem.Valid() && mem.Elsewhere() == old(mem.Elsewhere())
    ensures !status.Panic? ==>
      Holds(mem, pt') && Running(ViewOf(mem, pt'), t') && Extended(old(ViewOf(mem, pt)), ViewOf(mem, pt'))
    ensures status.NotMapped? <==> !WithinStackRange(addr)
    ensures status.NotMapped? <==> !(0x3F_FFBF_D000 <= addr < 0x3F_FFFF_D000)
    ensures status.Ok? ==> addr / PGSIZE in PagesOf(t'.stack) && addr / PGSIZE in pt'.trans
    ensures status.Ok? ==> t'.stack.start == if RoundDown(addr) < t.stack.start then RoundDown(addr) else t.stack.start
    ensures !status.Panic? ==> t' == t.(stack := t'.stack)
    ensures !WithinStackRange(addr) || RoundDown(addr) >= t.stack.start ==>
      !status.NoMemory? && !status.Panic? && t' == t && ViewOf(mem, pt') == old(ViewOf(mem, pt))
    ensures status.Panic? ==> InTheWayOfStack(pt.trans, t.stack, addr)
    ensures status.Ok? ==> Enlarged(old(ViewOf(mem, pt)), ViewOf(mem, pt'), t.stack, addr)
    ensures status.NoMemory? ==> !CanEnlarge(old(ViewOf(mem, pt)), t.stack, addr)
    ensures !status.Panic? ==> Strays(ViewOf(mem, pt')) == old(Strays(ViewOf(mem, pt)))
    ensures status.Ok? ==> NewlyCleared(ViewOf(mem, pt'), t', t.stack.start)
  {
    hide Paid, CanPay, Represents, InTheWayOfStack, Strays;
    t', pt' := t, pt;
    if !WithinStackRange(addr) {
      return NotMapped, t', pt';
    }
    var newStart := RoundDown(addr);
    if newStart < t.stack.start {
      var times := (t.stack.start - newStart) / PGSIZE;
      status, t', pt' := EnlargeTimes(mem, t, addr, times, pt);
      if status.Ok? {
        Reached(t.stack, t'.stack, addr, times);
      }
    } else {
      status := Ok;
      InStack(t.stack, addr);
      NothingToAdd(ViewOf(mem, pt), t.stack, addr);
    }
  }

  method EnlargeTimes(mem: Memory, t: Space, addr: nat, times: nat, ghost pt: PageTable)
      returns (status: Status, t': Space, ghost pt': PageTable)
    requires Holds(mem, pt) && Running(ViewOf(mem, pt), t) && WithinStackRange(addr)
    requires RoundDown(addr) < t.stack.start && times == (t.stack.start - RoundDown(addr)) / PGSIZE
    modifies mem, mem.pool, mem.pool.link
    ensures mem.Valid() && !status.NotMapped? && mem.Elsewhere() == old(mem.Elsewhere())
    ensures !status.Panic? ==>
      Holds(mem, pt') && Running(ViewOf(mem, pt'), t') && Extended(old(ViewOf(mem, pt)), ViewOf(mem, pt'))
    ensures !status.Panic? ==> t' == t.(stack := t'.stack)
    ensures status.Ok? ==> Deeper(t.stack, t'.stack, times)
    ensures status.Panic? ==> InTheWayOfStack(pt.trans, t.stack, addr)
    ensures status.Ok? ==> Enlarged(old(ViewOf(mem, pt)), ViewOf(mem, pt'), t.stack, addr)
    ensures status.NoMemory? ==> !CanEnlarge(old(ViewOf(mem, pt)), t.stack, addr)
    ensures !status.Panic? ==> Strays(ViewOf(mem, pt')) == old(Strays(ViewOf(mem, pt)))
    ensures status.Ok? ==> NewlyCleared(ViewOf(mem, pt'), t', t.stack.start)
  {
    hide Paid, CanPay, Represents, InTheWayOfStack, Agrees, Extended, Strays, NewlyCleared;
    ghost var a := ViewOf(mem, pt);
    status, t', pt' := Ok, t, pt;
    NothingAdded(a, t.stack);
    NothingCleared(a, t);
    ExtendedSame(a);
    var i: nat := 0;
    while i < times
      invariant i <= times && status.Ok? && mem.Elsewhere() == old(mem.Elsewhere())
      invariant Holds(mem, pt') && Running(ViewOf(mem, pt'), t') && Extended(a, ViewOf(mem, pt'))
      invariant Strays(ViewOf(mem, pt')) == Strays(a) && NewlyCleared(ViewOf(mem, pt'), t', t.stack.start)
      invariant t' == t.(stack := t'.stack) && Deeper(t.stack, t'.stack, i)
      invariant Above(pt.trans, pt'.trans, t'.stack) && Added(a, ViewOf(mem, pt'), t'.stack, i)
    {
      status, t', pt' := EnlargeNext(mem, t, t', addr, i, pt', a);
      if !status.Ok? {
        return;
      }
      i := i + 1;
    }
    AllAdded(a, ViewOf(mem, pt'), t.stack, t'.stack, addr, times);
  }

  /** The lowest `i` pages of the stack are new. */
  ghost predicate Added(a: View, b: View, stack: Section, i: nat) {
    && Paid(a, b, i, 0, Stretch(stack.start / PGSIZE, i))
    && forall w :: w in Stretch(stack.start / PGSIZE, i) ==> w !in a.pt.trans
  }

  /** The pages of the stack below `top` are cleared, and the user can read and write them. */
  ghost predicate NewlyCleared(m: View, t: Space, top: nat) {
    forall w: nat :: t.stack.start / 4096 <= w < top / 4096 ==> PageIs(m, w, ZeroPage(), WithValid(t.stackPermission))
  }

  lemma NothingCleared(a: View, t: Space)
    ensures NewlyCleared(a, t, t.stack.start)
  {}

  lemma ClearedNext(b: View, c: View, t: Space, t': Space, top: nat)
    requires NewlyCleared(b, t, top) && Extended(b, c) && t.stack.start >= PGSIZE && t' == t.(stack := Lowered(t.stack))
    requires PageIs(c, t'.stack.start / PGSIZE, ZeroPage(), WithValid(t.stackPermission))
    ensures NewlyCleared(c, t', top)
  {
    forall w: nat | t'.stack.start / 4096 <= w < top / 4096
      ensures PageIs(c, w, ZeroPage(), WithValid(t.stackPermission))
    {
      if w != t'.stack.start / PGSIZE {
        assert PageIs(b, w, ZeroPage(), WithValid(t.stackPermission));
        ExtendedReads(b, c, w);
      }
    }
  }

  lemma ExtendedSame(a: View)
    ensures Extended(a, a)
  {}

  lemma NothingAdded(a: View, stack: Section)
    ensures Added(a, a, stack, 0)
  {
    hide Paid;
    NothingPaid(a);
    assert Stretch(stack.start / PGSIZE, 0) == {};
  }

  lemma AddedNext(a: View, b: View, c: View, stack: Section, i: nat)
    requires Added(a, b, stack, i) && stack.start >= PGSIZE && stack.start % PGSIZE == 0
    ensures var w := Lowered(stack).start / PGSIZE;
      && (Paid(b, c, 1, 0, Stretch(w, 1)) && w !in a.pt.trans ==> Added(a, c, Lowered(stack), i + 1))
      && (!CanPay(b, 1, 0, Stretch(w, 1)) ==> !CanPay(a, i + 1, 0, Stretch(w, i + 1)))
  {
    hide Paid, CanPay;
    var v, w := stack.start / PGSIZE, Lowered(stack).start / PGSIZE;
    assert v == w + 1;
    assert Stretch(w, i + 1) == Stretch(v, i) + Stretch(w, 1);
    PayTwice(a, b, i, 0, Stretch(v, i), 1, 0, Stretch(w, 1));
    if Paid(b, c, 1, 0, Stretch(w, 1)) {
      PaidTwice(a, b, c, i, 0, Stretch(v, i), 1, 0, Stretch(w, 1));
    }
  }

  /** The first pages from the top are among those to add. */
  lemma TooMany(a: View, stack: Section, stack': Section, addr: nat, i: nat)
    requires StackIn(stack) && Deeper(stack, stack', i) && RoundDown(addr) < stack.start
    requires i <= PagesToAdd(stack, addr)
    ensures CanEnlarge(a, stack, addr) ==> CanPay(a, i, 0, Stretch(stack'.start / PGSIZE, i))
  {
    hide CanPay;
    var n, v, w: nat := PagesToAdd(stack, addr), stack'.start / PGSIZE, RoundDown(addr) / PGSIZE;
    assert w + (n - i) == v;
    assert SpanToAdd(stack, addr) == Stretch(v, i) + Stretch(w, n - i);
    if CanEnlarge(a, stack, addr) {
      PayLess(a, i, 0, Stretch(v, i), n - i, 0, Stretch(w, n - i));
    }
  }

  lemma AllAdded(a: View, b: View, stack: Section, stack': Section, addr: nat, times: nat)
    requires StackIn(stack) && Deeper(stack, stack', times) && RoundDown(addr) < stack.start
    requires times == (stack.start - RoundDown(addr)) / PGSIZE && Added(a, b, stack', times)
    ensures Enlarged(a, b, stack, addr)
  {
    hide Paid;
    assert stack'.start == RoundDown(addr);
    assert RoundDown(addr) / PGSIZE + times == stack.start / PGSIZE;
  }

  /** One iteration. */
  method EnlargeNext(mem: Memory, ghost t0: Space, t: Space, addr: nat, ghost i: nat, ghost pt: PageTable,
                     ghost a: View)
      returns (status: Status, t': Space, ghost pt': PageTable)
    requires
      && Holds(mem, pt)
      && Running(ViewOf(mem, pt), t)
      && Extended(a, ViewOf(mem, pt))
      && Taken(a)
      && Above(a.pt.trans, pt.trans, t.stack)
    requires StackIn(t0.stack) && t == t0.(stack := t.stack) && Deeper(t0.stack, t.stack, i) && WithinStackRange(addr)
    requires RoundDown(addr) < t0.stack.start && i < (t0.stack.start - RoundDown(addr)) / PGSIZE
    requires Added(a, ViewOf(mem, pt), t.stack, i) && NewlyCleared(ViewOf(mem, pt), t, t0.stack.start)
    modifies mem, mem.pool, mem.pool.link
    ensures mem.Valid() && !status.NotMapped? && mem.Elsewhere() == old(mem.Elsewhere())
    ensures !status.Panic? ==> Holds(mem, pt') && Running(ViewOf(mem, pt'), t') && Extended(a, ViewOf(mem, pt'))
    ensures !status.Panic? ==> t' == t0.(stack := t'.stack)
    ensures status.Ok? ==> Deeper(t0.stack, t'.stack, i + 1) && Above(a.pt.trans, pt'.trans, t'.stack)
    ensures status.Panic? ==> InTheWayOfStack(a.pt.trans, t0.stack, addr)
    ensures status.Ok? ==> Added(a, ViewOf(mem, pt'), t'.stack, i + 1)
    ensures status.NoMemory? ==> !CanEnlarge(a, t0.stack, addr)
    ensures !status.Panic? ==> Strays(ViewOf(mem, pt')) == old(Strays(ViewOf(mem, pt)))
    ensures status.Ok? ==> NewlyCleared(ViewOf(mem, pt'), t', t0.stack.start)
  {
    hide Paid, CanPay, Represents, Agrees, Local, Added, CanEnlarge, Strays, NewlyCleared;
    ghost var b := ViewOf(mem, pt);
    RoomBelow(t0.stack, t.stack, addr, i);
    status, t', pt' := EnlargeOnce(mem, t, pt, a, a.pt.trans);
    AddedNext(a, b, ViewOf(mem, pt'), t.stack, i);
    if status.Ok? {
      ClearedNext(b, ViewOf(mem, pt'), t, t', t0.stack.start);
    }
    TooMany(a, t0.stack, Lowered(t.stack), addr, i + 1);
  }

  /** Below the stack, nothing was mapped since. */
  ghost predicate Above(trans: Translation, trans': Translation, stack: Section) {
    forall w :: w in trans' && w < stack.start / PGSIZE ==> w in trans
  }

  method EnlargeOnce(mem: Memory, t: Space, ghost pt: PageTable, ghost a: View, ghost trans: Translation)
      returns (status: Status, t': Space, ghost pt': PageTable)
    requires Holds(mem, pt) && Running(ViewOf(mem, pt), t) && MIN_STACK_ADDR < t.stack.start
    requires Extended(a, ViewOf(mem, pt)) && Taken(a) && Above(trans, pt.trans, t.stack)
    modifies mem, mem.pool, mem.pool.link
    ensures mem.Valid() && !status.NotMapped? && mem.Elsewhere() == old(mem.Elsewhere())
    ensures !status.Panic? ==> Holds(mem, pt') && Running(ViewOf(mem, pt'), t') && Extended(a, ViewOf(mem, pt'))
    ensures status.Ok? ==>
      t.stack.start >= PGSIZE && t' == t.(stack := Lowered(t.stack)) && Above(trans, pt'.trans, t'.stack)
    ensures status.NoMemory? ==> t' == t
    ensures status.Panic? ==> t.stack.start >= PGSIZE && Lowered(t.stack).start / PGSIZE in trans
    ensures t.stack.start >= PGSIZE
    ensures status.Ok? ==> Lowered(t.stack).start / PGSIZE !in pt.trans
    ensures status.Ok? ==>
      Paid(old(ViewOf(mem, pt)), ViewOf(mem, pt'), 1, 0, Stretch(Lowered(t.stack).start / PGSIZE, 1))
    ensures status.NoMemory? ==> !CanPay(old(ViewOf(mem, pt)), 1, 0, Stretch(Lowered(t.stack).start / PGSIZE, 1))
    ensures !status.Panic? ==> Strays(ViewOf(mem, pt')) == old(Strays(ViewOf(mem, pt)))
    ensures !status.Panic? ==> Extended(old(ViewOf(mem, pt)), ViewOf(mem, pt'))
    ensures status.Ok? ==> PageIs(ViewOf(mem, pt'), t'.stack.start / PGSIZE, ZeroPage(), WithValid(t.stackPermission))
  {
    hide Paid, CanPay, Represents, Stretch, Strays, PageIs;
    ghost var b := ViewOf(mem, pt);
    status, t', pt' := EnlargeStackByAPage(mem, t, pt);
    if !status.Panic? {
      ExtendedTwice(a, b, ViewOf(mem, pt'));
    }
    if status.Ok? {
      BelowStack(b.pt.trans, pt'.trans, t, b, ViewOf(mem, pt'));
    }
  }

  lemma BelowStack(trans: Translation, trans': Translation, t: Space, b: View, c: View)
    requires
      && b.pt.trans == trans
      && c.pt.trans == trans'
      && StackIn(t.stack)
      && t.stack.start > MIN_STACK_ADDR
      && t.stack.start >= PGSIZE
    requires Agrees(b, t.sections, t.stack) && Agrees(c, t.sections, Lowered(t.stack))
    ensures Above(trans, trans', Lowered(t.stack))
  {}

  /** A fault in the stack as it is already: nothing changes. */
  method FaultAgain(mem: Memory, t: Space, addr: nat, ghost pt: PageTable)
      returns (status: Status, t': Space, ghost pt': PageTable)
    requires Holds(mem, pt) && Running(ViewOf(mem, pt), t) && addr / PGSIZE in PagesOf(t.stack)
    modifies mem, mem.pool, mem.pool.link
    ensures mem.Valid() && status.Ok? && t' == t && ViewOf(mem, pt') == old(ViewOf(mem, pt))
    ensures Strays(ViewOf(mem, pt')) == old(Strays(ViewOf(mem, pt)))
  {
    hide Strays;
    StackPage(t.stack, addr);
    status, t', pt' := TryEnlargeStack(mem, t, addr, pt);
  }

  lemma StackPage(stack: Section, addr: nat)
    requires StackIn(stack) && addr / PGSIZE in PagesOf(stack)
    ensures WithinStackRange(addr) && stack.start <= RoundDown(addr)
  {}

  /** `user_trap` falls from the load-fault case into the store-fault case: the second call succeeds,
      and both together do what the first did. */
  method LoadFault(mem: Memory, t: Space, addr: nat, ghost pt: PageTable)
      returns (status: Status, t': Space, ghost pt': PageTable)
    requires Holds(mem, pt) && Running(ViewOf(mem, pt), t)
    modifies mem, mem.pool, mem.pool.link
    ensures !status.Panic? ==>
      Holds(mem, pt') && Running(ViewOf(mem, pt'), t') && Extended(old(ViewOf(mem, pt)), ViewOf(mem, pt'))
    ensures status.Ok? ==> addr / PGSIZE in PagesOf(t'.stack) && addr / PGSIZE in pt'.trans
    ensures !status.Panic? ==> t' == t.(stack := t'.stack)
    ensures status.Ok? ==> t'.stack.start == if RoundDown(addr) < t.stack.start then RoundDown(addr) else t.stack.start
    ensures status.NotMapped? <==> !WithinStackRange(addr)
    ensures status.Panic? ==> InTheWayOfStack(pt.trans, t.stack, addr)
    ensures status.Ok? ==> Enlarged(old(ViewOf(mem, pt)), ViewOf(mem, pt'), t.stack, addr)
    ensures status.NoMemory? ==> !CanEnlarge(old(ViewOf(mem, pt)), t.stack, addr)
    ensures !status.Panic? ==> Strays(ViewOf(mem, pt')) == old(Strays(ViewOf(mem, pt)))
    ensures status.Ok? ==> NewlyCleared(ViewOf(mem, pt'), t', t.stack.start)
  {
    hide Enlarged, CanEnlarge, Represents, InTheWayOfStack, Strays, NewlyCleared;
    status, t', pt' := TryEnlargeStack(mem, t, addr, pt);
    if status.Ok? {
      status, t', pt' := FaultAgain(mem, t', addr, pt');
    }
  }

  // ----- exec -----

  /** The ELF magic number. */
  predicate ElfMagic(file: seq<nat>) {
    |file| >= 4 && file[0] == 0x7f && file[1] == 0x45 && file[2] == 0x4c && file[3] == 0x46
  }

  /** A PT_GNU_STACK header makes the stack executable, and nothing takes that back. */
  function StackPermission(permission: nat, phdrs: seq<ProgramHeader>): nat {
    if StackHeader(phdrs) then PTE_U + PTE_R + PTE_W + PTE_X else permission
  }

  /** The fields of the task when header `i` fails. */
  ghost predicate PartlyLoaded(t: Space, t': Space, phdrs: seq<ProgramHeader>, i: nat) {
    && i < |phdrs|
    && t' == t.(sections := t.sections + Loads(phdrs[..i]),
                stackPermission := StackPermission(t.stackPermission, phdrs[..i]))
  }

  /** `load_elf`. A file without the magic number is refused. What was loaded before a failure stays. */
  method LoadElf(mem: Memory, t: Space, file: seq<nat>, phdrs: seq<ProgramHeader>, ghost pt: PageTable,
                 ghost live: Section)
      returns (status: Status, t': Space, ghost pt': PageTable)
    requires Holds(mem, pt) && Ready(ViewOf(mem, pt), t, live) && AllInFile(file, phdrs)
    modifies mem, mem.pool, mem.pool.link
    ensures !ElfMagic(file) <==> status.NotMapped?
    ensures !status.Panic? ==> Holds(mem, pt') && Ready(ViewOf(mem, pt'), t', live)
    ensures !status.Panic? ==> Extended(old(ViewOf(mem, pt)), ViewOf(mem, pt')) && t'.stack == t.stack
    ensures status.Ok? ==> AllFilled(ViewOf(mem, pt'), file, phdrs)
    ensures status.Ok? ==>
      t' == t.(sections := t.sections + Loads(phdrs), stackPermission := StackPermission(t.stackPermission, phdrs))
    ensures status.Ok? ==> Counted(old(ViewOf(mem, pt)), ViewOf(mem, pt'), phdrs)
    ensures status.NoMemory? ==> !CanLoad(old(ViewOf(mem, pt)), phdrs)
    ensures status.Panic? ==> !Loadable(pt.trans.Keys, phdrs)
    ensures status.NotMapped? <==> |file| < 4 || file[..4] != [0x7f, 0x45, 0x4c, 0x46]
    ensures status.Ok? ==> ImageIs(ViewOf(mem, pt'), file, phdrs)
    ensures status.Ok? ==> ((t'.stackPermission / 8) % 2 == 1 <==>
      (t.stackPermission / 8) % 2 == 1 || exists i :: 0 <= i < |phdrs| && phdrs[i].kind == 0x6474e551)
    ensures status.NoMemory? ==> exists i :: PartlyLoaded(t, t', phdrs, i)
    ensures !status.Panic? ==> mem.Elsewhere() == old(mem.Elsewhere())
    ensures !status.Panic? ==> Strays(ViewOf(mem, pt')) == old(Strays(ViewOf(mem, pt)))
  {
    hide Counted, CanLoad, Loadable, Represents, Agrees, AllFilled, ImageIs, Strays;
    t', pt' := t, pt;
    if !ElfMagic(file) {
      return NotMapped, t', pt';
    }
    ghost var a := ViewOf(mem, pt);
    var sections, executableStack;
    status, sections, executableStack, pt' := LoadSegments(mem, t.root, file, phdrs, t.sections, pt, live);
    t' := t.(sections := sections);
    if executableStack {
      t' := t'.(stackPermission := PTE_U + PTE_R + PTE_W + PTE_X);
    }
    if status.Ok? {
      AllHandled(a, ViewOf(mem, pt'), file, phdrs, t.sections, sections, executableStack, live);
      AllFilledMeans(ViewOf(mem, pt'), file, phdrs);
    } else if status.NoMemory? {
      ghost var i :| LoadedUpTo(phdrs, i, t.sections, sections, executableStack);
      assert PartlyLoaded(t, t', phdrs, i);
    }
    if !status.Panic? {
      ReadyKept(a, ViewOf(mem, pt'), t, t.(sections := sections), live, live);
    }
  }

  /** The stack can be executed or not, and the user can read and write it in any case. */
  lemma StackGrants(permission: nat)
    requires StackFlags(permission)
    ensures Grants(WithValid(permission), true, true, (permission / 8) % 2 == 1, true)
  {}

  lemma AllHandled(a: View, b: View, file: seq<nat>, phdrs: seq<ProgramHeader>, sections: seq<Section>,
                   sections': seq<Section>, executableStack: bool, live: Section)
    requires AllInFile(file, phdrs) && Handled(a, b, file, phdrs, |phdrs|, sections, sections', executableStack, live)
    ensures AllFilled(b, file, phdrs) && sections' == sections + Loads(phdrs) && executableStack == StackHeader(phdrs)
    ensures Extended(a, b) && Counted(a, b, phdrs)
  {
    hide Counted;
    assert phdrs[..|phdrs|] == phdrs;
  }

  ghost function StackPages(): set<nat> {
    Stretch(SHARED_PAGE - 1, 1)
  }

  /** `set_stack`: one cleared page below the shared memory. The fields are only set when there is a page. */
  method SetStack(mem: Memory, t: Space, ghost pt: PageTable) returns (status: Status, t': Space, ghost pt': PageTable)
    requires Holds(mem, pt) && Ready(ViewOf(mem, pt), t, Section(0, 0))
    modifies mem, mem.pool, mem.pool.link
    ensures mem.Valid() && !status.NotMapped?
    ensures t' == if status.Ok? then t.(stack := Section(SHARED_MEMORY - PGSIZE, PGSIZE)) else t
    ensures !status.Panic? ==> Holds(mem, pt') && Extended(old(ViewOf(mem, pt)), ViewOf(mem, pt'))
    ensures status.Ok? ==> Running(ViewOf(mem, pt'), t')
    ensures status.NoMemory? ==> Ready(ViewOf(mem, pt'), t', Section(0, 0))
    ensures status.Ok? ==> PageIs(ViewOf(mem, pt'), SHARED_PAGE - 1, ZeroPage(), WithValid(t.stackPermission))
    ensures status.Ok? ==> Paid(old(ViewOf(mem, pt)), ViewOf(mem, pt'), 1, 0, StackPages())
    ensures status.NoMemory? ==> !CanPay(old(ViewOf(mem, pt)), 1, 0, StackPages())
    ensures status.Panic? ==> SHARED_PAGE - 1 in pt.trans
    ensures status.Ok? ==> SHARED_PAGE - 1 !in pt.trans && pt'.trans.Keys == pt.trans.Keys + StackPages()
    ensures mem.Elsewhere() == old(mem.Elsewhere())
    ensures status.Ok? ==>
      && t'.stack == Section(0x3F_FFFF_C000, 4096) && 0x3FF_FFFC in pt'.trans
      && Grants(pt'.trans[0x3FF_FFFC].flags, true, true, (t.stackPermission / 8) % 2 == 1, true)
    ensures !status.Panic? ==> Strays(ViewOf(mem, pt')) == old(Strays(ViewOf(mem, pt)))
  {
    hide Paid, CanPay, Represents, Strays;
    ghost var a := ViewOf(mem, pt);
    FirstStack();
    StackGrants(t.stackPermission);
    var stack := Section(SHARED_MEMORY - PGSIZE, PGSIZE);
    status, pt' := AddStackPage(mem, t.root, SHARED_MEMORY - PGSIZE, t.stackPermission, pt, t.sections, Section(0, 0),
                                stack);
    t' := if status.Ok? then t.(stack := stack) else t;
    if !status.Panic? {
      ReadyKept(a, ViewOf(mem, pt'), t, t', Section(0, 0), if status.Ok? then stack else Section(0, 0));
    }
    if status.Ok? {
      StackKeys(a, ViewOf(mem, pt'), t.sections);
    }
  }

  lemma StackKeys(a: View, b: View, sections: seq<Section>)
    requires Agrees(a, sections, Section(0, 0)) && Agrees(b, sections, Section(SHARED_MEMORY - PGSIZE, PGSIZE))
    ensures b.pt.trans.Keys == a.pt.trans.Keys + StackPages()
  {
    hide Apart, OwnPages;
    FirstStack();
    var stack := Section(SHARED_MEMORY - PGSIZE, PGSIZE);
    assert PagesOf(stack) == StackPages() && PagesOf(Section(0, 0)) == {};
  }

  lemma FirstStack()
    ensures StackIn(Section(SHARED_MEMORY - PGSIZE, PGSIZE)) && (SHARED_MEMORY - PGSIZE) / PGSIZE == SHARED_PAGE - 1
    ensures
      && Lower(Section(0, 0), Section(SHARED_MEMORY - PGSIZE, PGSIZE), SHARED_MEMORY - PGSIZE)
      && SHARED_MEMORY - PGSIZE < MAXVA
  {}

  /** `clear_user_memory_space`. The stack field keeps its old value until `set_stack`. */
  method ClearUserMemorySpace(mem: Memory, t: Space, ghost pt: PageTable, ghost live: Section)
      returns (t': Space, ghost pt': PageTable)
    requires Holds(mem, pt) && Ready(ViewOf(mem, pt), t, live) && t.stack == live
    modifies mem, mem.pool, mem.pool.link
    ensures Holds(mem, pt') && mem.Elsewhere() == old(mem.Elsewhere())
    ensures t' == t.(sections := []) && Ready(ViewOf(mem, pt'), t', Section(0, 0))
    ensures FreedAll(old(ViewOf(mem, pt)), ViewOf(mem, pt'), AllPages(t.sections) + PagesOf(live))
    ensures Local(old(ViewOf(mem, pt)), ViewOf(mem, pt'))
    ensures Strays(ViewOf(mem, pt')) == old(Strays(ViewOf(mem, pt)))
  {
    hide Strays;
    ghost var b := ViewOf(mem, pt);
    AgreesCovers(b, t.sections, live);
    CoversUnstuck(b, t.sections, live);
    var status;
    status, pt' := ClearSpace(mem, t.root, t.sections, t.stack, pt, live);
    t' := t.(sections := []);
    Cleared(b, ViewOf(mem, pt'), t, live);
  }

  /** What freeing these pages leaves, as far as the next requests are concerned. */
  ghost function Emptied(a: View, s: set<nat>): View {
    a.(free := a.free + NumberSet(a.pt.trans, s), pt := a.pt.(trans := a.pt.trans - s))
  }

  ghost function ProgramPages(t: Space): set<nat> {
    AllPages(t.sections) + PagesOf(t.stack)
  }

  lemma EmptiedMeans(a: View, b: View, t: Space)
    requires Running(a, t) && FreedAll(a, b, ProgramPages(t))
    ensures MeansOf(b) == MeansOf(Emptied(a, ProgramPages(t))) && b.pt.trans == Emptied(a, ProgramPages(t)).pt.trans
    ensures b.pt.trans.Keys == Fixed()
  {
    hide Apart, OwnPages, StockOf;
  }

  lemma Cleared(b: View, c: View, t: Space, live: Section)
    requires Ready(b, t, live) && FreedAll(b, c, AllPages(t.sections) + PagesOf(live))
    ensures Ready(c, t.(sections := []), Section(0, 0)) && Local(b, c) && Strays(c) == Strays(b)
  {
    EmptyLedger(b, c, t.sections, live);
    LocalFreed(b, c, AllPages(t.sections) + PagesOf(live));
    StraysFreed(b, c, AllPages(t.sections) + PagesOf(live));
  }

  /** The first part of `exec_process`: the old program goes, the new one is loaded and gets a stack.
      When that fails, the task names a stack that is not there. */
  method LoadProgram(mem: Memory, t: Space, file: seq<nat>, phdrs: seq<ProgramHeader>, ghost pt: PageTable)
      returns (status: Status, t': Space, ghost pt': PageTable)
    requires Holds(mem, pt) && Running(ViewOf(mem, pt), t) && AllInFile(file, phdrs)
    modifies mem, mem.pool, mem.pool.link
    ensures !status.Panic? ==> Holds(mem, pt') && Local(old(ViewOf(mem, pt)), ViewOf(mem, pt'))
    ensures status.NoMemory? || status.NotMapped? ==> Ready(ViewOf(mem, pt'), t', Section(0, 0)) && StackIn(t'.stack)
    ensures !ElfMagic(file) <==> status.NotMapped?
    ensures status.Ok? ==> Running(ViewOf(mem, pt'), t') && AllFilled(ViewOf(mem, pt'), file, phdrs)
    ensures status.Ok? ==> t' == Replaced(t, phdrs)
    ensures status.Ok? ==> PageIs(ViewOf(mem, pt'), SHARED_PAGE - 1, ZeroPage(), WithValid(t'.stackPermission))
    ensures status.Ok? ==> PageBehind(ViewOf(mem, pt'), SHARED_PAGE) == old(PageBehind(ViewOf(mem, pt), SHARED_PAGE))
    ensures status.Ok? ==> Replaceable(phdrs) && pt'.trans.Keys == Fixed() + ImagePages(phdrs)
    ensures status.Ok? ==>
      Paid(Emptied(old(ViewOf(mem, pt)), ProgramPages(t)), ViewOf(mem, pt'), PageCount(phdrs) + 1, 0, ImagePages(phdrs))
    ensures status.Ok? ==> CanReplace(Emptied(old(ViewOf(mem, pt)), ProgramPages(t)), phdrs)
    ensures status.NoMemory? ==> !CanReplace(Emptied(old(ViewOf(mem, pt)), ProgramPages(t)), phdrs)
    ensures status.Panic? ==> !Replaceable(phdrs)
    ensures !status.Panic? ==> Strays(ViewOf(mem, pt')) == old(Strays(ViewOf(mem, pt)))
  {
    hide Paid, CanPay, Loadable, Represents, Agrees, AllFilled, Frames, Local, StackIn, PageIs, Strays;
    ghost var a := ViewOf(mem, pt);
    ghost var e := Emptied(a, ProgramPages(t));
    status, t', pt' := ReplaceImage(mem, t, file, phdrs, pt);
    if status.NoMemory? && CanReplace(e, phdrs) {
      PayLess(e, PageCount(phdrs), 0, AllPages(Loads(phdrs)), 1, 0, StackPages());
    }
    if status.Ok? {
      ghost var b := ViewOf(mem, pt');
      status, t', pt' := GiveStack(mem, t', file, phdrs, pt', a);
      PayTwice(e, b, PageCount(phdrs), 0, AllPages(Loads(phdrs)), 1, 0, StackPages());
      if status.Ok? {
        PaidTwice(e, b, ViewOf(mem, pt'), PageCount(phdrs), 0, AllPages(Loads(phdrs)), 1, 0, StackPages());
        PaidIsCan(e, ViewOf(mem, pt'), PageCount(phdrs) + 1, 0, ImagePages(phdrs));
      }
    }
  }

  /** The pages of a program with its first stack page. */
  ghost function ImagePages(phdrs: seq<ProgramHeader>): set<nat> {
    AllPages(Loads(phdrs)) + StackPages()
  }

  /** The segments leave room for the fixed pages and the first stack page, and do not overlap. */
  ghost predicate Replaceable(phdrs: seq<ProgramHeader>) {
    Loadable(Fixed(), phdrs) && SHARED_PAGE - 1 !in AllPages(Loads(phdrs))
  }

  ghost predicate CanReplace(e: View, phdrs: seq<ProgramHeader>) {
    CanPay(e, PageCount(phdrs) + 1, 0, ImagePages(phdrs))
  }

  /** The fields after the program was replaced. */
  function Replaced(t: Space, phdrs: seq<ProgramHeader>): Space {
    t.(sections := Loads(phdrs), stack := Section(SHARED_MEMORY - PGSIZE, PGSIZE),
       stackPermission := StackPermission(t.stackPermission, phdrs))
  }

  method ReplaceImage(mem: Memory, t: Space, file: seq<nat>, phdrs: seq<ProgramHeader>, ghost pt: PageTable)
      returns (status: Status, t': Space, ghost pt': PageTable)
    requires Holds(mem, pt) && Running(ViewOf(mem, pt), t) && AllInFile(file, phdrs)
    modifies mem, mem.pool, mem.pool.link
    ensures !ElfMagic(file) <==> status.NotMapped?
    ensures !status.Panic? ==> Holds(mem, pt') && Ready(ViewOf(mem, pt'), t', Section(0, 0)) && StackIn(t'.stack)
    ensures !status.Panic? ==> Local(old(ViewOf(mem, pt)), ViewOf(mem, pt'))
    ensures status.Ok? ==> AllFilled(ViewOf(mem, pt'), file, phdrs)
    ensures status.Ok? ==>
      t' == t.(sections := Loads(phdrs), stackPermission := StackPermission(t.stackPermission, phdrs))
    ensures status.Ok? ==> PageBehind(ViewOf(mem, pt'), SHARED_PAGE) == old(PageBehind(ViewOf(mem, pt), SHARED_PAGE))
    ensures !status.Panic? ==> t'.stack == t.stack
    ensures status.Ok? ==> pt'.trans.Keys == Fixed() + AllPages(Loads(phdrs)) && Loadable(Fixed(), phdrs)
    ensures status.Ok? ==> Paid(Emptied(old(ViewOf(mem, pt)), ProgramPages(t)), ViewOf(mem, pt'),
                                PageCount(phdrs), 0, AllPages(Loads(phdrs)))
    ensures status.NoMemory? ==> !CanLoad(Emptied(old(ViewOf(mem, pt)), ProgramPages(t)), phdrs)
    ensures status.Panic? ==> !Loadable(Fixed(), phdrs)
    ensures !status.Panic? ==> Strays(ViewOf(mem, pt')) == old(Strays(ViewOf(mem, pt)))
  {
    hide Affords, After, Loadable, Represents, Agrees, AllFilled, Frames, StockOf, Strays;
    t', pt' := DropProgram(mem, t, pt);
    status, t', pt' := LoadInto(mem, t', file, phdrs, pt', old(ViewOf(mem, pt)));
  }

  method DropProgram(mem: Memory, t: Space, ghost pt: PageTable) returns (t': Space, ghost pt': PageTable)
    requires Holds(mem, pt) && Running(ViewOf(mem, pt), t)
    modifies mem, mem.pool, mem.pool.link
    ensures Holds(mem, pt') && Ready(ViewOf(mem, pt'), t', Section(0, 0)) && t' == t.(sections := [])
    ensures Local(old(ViewOf(mem, pt)), ViewOf(mem, pt'))
    ensures PageBehind(ViewOf(mem, pt'), SHARED_PAGE) == old(PageBehind(ViewOf(mem, pt), SHARED_PAGE))
    ensures MeansOf(ViewOf(mem, pt')) == MeansOf(Emptied(old(ViewOf(mem, pt)), ProgramPages(t)))
    ensures pt'.trans.Keys == Fixed()
    ensures Strays(ViewOf(mem, pt')) == old(Strays(ViewOf(mem, pt)))
  {
    hide Represents, StockOf, OwnPages, MeansOf, Strays;
    ghost var b := ViewOf(mem, pt);
    t', pt' := ClearUserMemorySpace(mem, t, pt, t.stack);
    SharedPageKept(b, ViewOf(mem, pt'), t);
    EmptiedMeans(b, ViewOf(mem, pt'), t);
  }

  lemma SharedPageKept(b: View, c: View, t: Space)
    requires Running(b, t) && FreedAll(b, c, AllPages(t.sections) + PagesOf(t.stack))
    ensures PageBehind(c, SHARED_PAGE) == PageBehind(b, SHARED_PAGE)
  {
    var s := AllPages(t.sections) + PagesOf(t.stack);
    assert SHARED_PAGE in Private(b) && SHARED_PAGE !in s && s <= Private(b);
    assert UserPage(b, SHARED_PAGE);
    assert b.pt.trans[SHARED_PAGE].pa !in FrameSet(b.pt.trans, s);
  }

  lemma NothingBefore(sections: seq<Section>, loads: seq<Section>)
    requires sections == []
    ensures sections + loads == loads
  {}

  /** `load_elf` for a task without a program. */
  method LoadInto(mem: Memory, t: Space, file: seq<nat>, phdrs: seq<ProgramHeader>, ghost pt: PageTable, ghost a: View)
      returns (status: Status, t': Space, ghost pt': PageTable)
    requires Holds(mem, pt) && Ready(ViewOf(mem, pt), t, Section(0, 0)) && AllInFile(file, phdrs)
    requires Local(a, ViewOf(mem, pt)) && Taken(a) && t.sections == []
    modifies mem, mem.pool, mem.pool.link
    ensures !ElfMagic(file) <==> status.NotMapped?
    ensures !status.Panic? ==> Holds(mem, pt') && Ready(ViewOf(mem, pt'), t', Section(0, 0)) && t'.stack == t.stack
    ensures !status.Panic? ==> Local(a, ViewOf(mem, pt'))
    ensures status.Ok? ==> AllFilled(ViewOf(mem, pt'), file, phdrs)
    ensures status.Ok? ==>
      t' == t.(sections := Loads(phdrs), stackPermission := StackPermission(t.stackPermission, phdrs))
    ensures status.Ok? ==> PageBehind(ViewOf(mem, pt'), SHARED_PAGE) == old(PageBehind(ViewOf(mem, pt), SHARED_PAGE))
    ensures status.Ok? ==> Counted(old(ViewOf(mem, pt)), ViewOf(mem, pt'), phdrs)
    ensures status.NoMemory? ==> !CanLoad(old(ViewOf(mem, pt)), phdrs)
    ensures status.Panic? ==> !Loadable(pt.trans.Keys, phdrs)
    ensures !status.Panic? ==> Strays(ViewOf(mem, pt')) == old(Strays(ViewOf(mem, pt)))
  {
    hide Counted, CanLoad, Loadable, Represents, AllFilled, Agrees, Frames, Strays;
    ghost var b := ViewOf(mem, pt);
    NothingBefore(t.sections, Loads(phdrs));
    status, t', pt' := LoadElf(mem, t, file, phdrs, pt, Section(0, 0));
    if !status.Panic? {
      LocalTwice(a, b, ViewOf(mem, pt'));
      SharedExtended(b, ViewOf(mem, pt'), t);
    }
  }

  lemma SharedExtended(b: View, c: View, t: Space)
    requires Ready(b, t, Section(0, 0)) && Extended(b, c)
    ensures PageBehind(c, SHARED_PAGE) == PageBehind(b, SHARED_PAGE)
  {
    assert SHARED_PAGE in Private(b) && UserPage(b, SHARED_PAGE);
    ExtendedReads(b, c, SHARED_PAGE);
  }

  /** `set_stack` for a program that has been loaded. */
  method GiveStack(mem: Memory, t: Space, ghost file: seq<nat>, ghost phdrs: seq<ProgramHeader>, ghost pt: PageTable,
                   ghost a: View)
      returns (status: Status, t': Space, ghost pt': PageTable)
    requires Holds(mem, pt) && Ready(ViewOf(mem, pt), t, Section(0, 0)) && AllInFile(file, phdrs)
    requires AllFilled(ViewOf(mem, pt), file, phdrs) && Local(a, ViewOf(mem, pt)) && Taken(a) && StackIn(t.stack)
    modifies mem, mem.pool, mem.pool.link
    ensures !status.NotMapped? && StackIn(t'.stack)
    ensures t' == if status.Ok? then t.(stack := Section(SHARED_MEMORY - PGSIZE, PGSIZE)) else t
    ensures !status.Panic? ==> Holds(mem, pt') && Local(a, ViewOf(mem, pt'))
    ensures status.NoMemory? ==> Ready(ViewOf(mem, pt'), t', Section(0, 0))
    ensures status.Ok? ==> Running(ViewOf(mem, pt'), t') && AllFilled(ViewOf(mem, pt'), file, phdrs)
    ensures status.Ok? ==> PageIs(ViewOf(mem, pt'), SHARED_PAGE - 1, ZeroPage(), WithValid(t.stackPermission))
    ensures status.Ok? ==> PageBehind(ViewOf(mem, pt'), SHARED_PAGE) == old(PageBehind(ViewOf(mem, pt), SHARED_PAGE))
    ensures status.Ok? ==> Paid(old(ViewOf(mem, pt)), ViewOf(mem, pt'), 1, 0, StackPages())
    ensures status.NoMemory? ==> !CanPay(old(ViewOf(mem, pt)), 1, 0, StackPages())
    ensures status.Panic? ==> SHARED_PAGE - 1 in pt.trans
    ensures status.Ok? ==> SHARED_PAGE - 1 !in pt.trans && pt'.trans.Keys == pt.trans.Keys + StackPages()
    ensures !status.Panic? ==> Strays(ViewOf(mem, pt')) == old(Strays(ViewOf(mem, pt)))
  {
    hide Paid, CanPay, Represents, AllFilled, Agrees, Frames, StackPages, Strays;
    ghost var c := ViewOf(mem, pt);
    FirstStack();
    status, t', pt' := SetStack(mem, t, pt);
    if !status.Panic? {
      LocalTwice(a, c, ViewOf(mem, pt'));
    }
    if status.Ok? {
      AllFilledKept(c, ViewOf(mem, pt'), file, phdrs);
      SharedExtended(c, ViewOf(mem, pt'), t);
    }
  }

  lemma AllFilledKept(a: View, b: View, file: seq<nat>, phdrs: seq<ProgramHeader>)
    requires AllInFile(file, phdrs) && AllFilled(a, file, phdrs) && Extended(a, b)
    ensures AllFilled(b, file, phdrs)
  {}

  /** The first address behind all sections. */
  method AvailableFrom(sections: seq<Section>) returns (va: nat)
    ensures Behind(sections, va)
  {
    va := 0;
    var i: nat := 0;
    while i < |sections|
      invariant i <= |sections|
      invariant forall j :: 0 <= j < i ==> sections[j].start + sections[j].size <= va
      invariant va == 0 || exists j :: 0 <= j < i && va == sections[j].start + sections[j].size
    {
      if sections[i].start + sections[i].size > va {
        va := sections[i].start + sections[i].size;
      }
      i := i + 1;
    }
  }

  lemma {:induction false} BehindAll(sections: seq<Section>, va: nat)
    requires Apart(sections) && forall i :: 0 <= i < |sections| ==> sections[i].start + sections[i].size <= va
    ensures forall w :: w in AllPages(sections) ==> (w + 1) * PGSIZE <= va
  {
    if sections != [] {
      forall i | 0 <= i < |sections[1..]|
        ensures sections[1..][i].start + sections[1..][i].size <= va
      {
        assert sections[1..][i] == sections[i + 1];
      }
      BehindAll(sections[1..], va);
      PagesEnd(sections[0]);
    }
  }

  lemma PagesEnd(s: Section)
    requires PageAligned(s)
    ensures forall w :: w in PagesOf(s) ==> (w + 1) * PGSIZE <= s.start + s.size
  {}

  /** The user can read and write the page. */
  ghost predicate UserData(pt: PageTable, w: nat) {
    w in pt.trans && Grants(pt.trans[w].flags, true, true, false, true)
  }

  lemma ArgumentGrants(m: View, w: nat, page: seq<nat>)
    requires PageIs(m, w, page, ARGUMENT_FLAGS)
    ensures UserData(m.pt, w)
  {}

  /** The second part of `exec_process`: two pages of arguments behind the last section. They never
      meet a section; they meet the stack only if the program reaches up to it. When there is no pair of pages,
      nothing happens; when there is no table, the section is registered all the same. */
  method SetArguments(mem: Memory, t: Space, va: nat, text: seq<nat>, table: seq<nat>, ghost pt: PageTable)
      returns (status: Status, had: bool, t': Space, ghost pt': PageTable, ghost v: nat)
    requires Holds(mem, pt) && Running(ViewOf(mem, pt), t) && |text| == PGSIZE && |table| == PGSIZE
    requires Behind(t.sections, va)
    modifies mem, mem.pool, mem.pool.link
    ensures mem.Valid() && !status.NotMapped? && mem.Elsewhere() == old(mem.Elsewhere())
    ensures status.Ok? ==>
      Holds(mem, pt') && Started(ViewOf(mem, pt'), t') && Extended(old(ViewOf(mem, pt)), ViewOf(mem, pt'))
    ensures t' == if had then WithArguments(t, va) else t
    ensures va == v * PGSIZE && (!status.NoMemory? ==> had)
    ensures status.Ok? ==> CanPay(old(ViewOf(mem, pt)), 0, 1, Stretch(v, 2))
    ensures status.Ok? ==> PageIs(ViewOf(mem, pt'), v, text, ARGUMENT_FLAGS)
    ensures status.Ok? ==> PageIs(ViewOf(mem, pt'), v + 1, table, ARGUMENT_FLAGS)
    ensures status.Ok? ==> UserData(pt', v) && UserData(pt', v + 1)
    ensures status.Panic? ==> va + PGSIZE >= t.stack.start
    ensures status.Ok? ==> va + PGSIZE < t.stack.start
    ensures status.Ok? ==> Paid(old(ViewOf(mem, pt)), ViewOf(mem, pt'), 0, 1, Stretch(v, 2))
    ensures status.NoMemory? ==> !CanPay(old(ViewOf(mem, pt)), 0, 1, Stretch(v, 2))
    ensures had <==> Enough(StockOf(old(mem.pool.free)), 0, 1)
    ensures status.NoMemory? ==> Holds(mem, pt') && Extended(old(ViewOf(mem, pt)), ViewOf(mem, pt'))
    ensures status.NoMemory? && !had ==> pt' == pt && ViewOf(mem, pt') == old(ViewOf(mem, pt))
    ensures status.NoMemory? && had ==> v !in pt.trans && if v in pt'.trans then Hole(pt', v + 1) else Hole(pt', v)
    ensures status.NoMemory? && had ==>
      && (v in pt'.trans <==> CanPay(old(ViewOf(mem, pt)), 0, 1, Stretch(v, 1)))
      && (v !in pt'.trans ==> SameLeaves(pt, pt'))
    ensures status.NoMemory? && had && t.stack.size == PGSIZE ==>
      && va + PGSIZE < t.stack.start && v + 1 !in pt'.trans && v + 1 !in pt.trans
      && Names(ViewOf(mem, pt'), t'.sections, t'.stack)
    ensures status.NoMemory? && had ==> Frames(ViewOf(mem, pt'), t.trapFrame, t.sharedMemory) && pt'.root == pt.root
    ensures status.Ok? ==> Strays(ViewOf(mem, pt')) == old(Strays(ViewOf(mem, pt)))
    ensures status.NoMemory? && had ==>
      MoreStrays(old(ViewOf(mem, pt)), ViewOf(mem, pt'), if v in pt'.trans then 1 else 2)
  {
    hide Paid, CanPay, Represents, Enough, StockOf, Names, Hole, UserData, PageIs, Agrees, Stretch, SameLeaves, Strays;
    hide MoreStrays;
    ghost var a := ViewOf(mem, pt);
    v := va / PGSIZE;
    AlignedBehind(a, t.sections, t.stack, va);
    status, had, pt' := MapArguments(mem, t.root, va, text, table, pt, t.sections, t.stack, v);
    t' := if had then WithArguments(t, va) else t;
    if status.Ok? {
      ArgumentGrants(ViewOf(mem, pt'), v, text);
      ArgumentGrants(ViewOf(mem, pt'), v + 1, table);
      ReadyKept(a, ViewOf(mem, pt'), t, t', t.stack, t.stack);
      ArgumentsFit(ViewOf(mem, pt'), t', t.sections, va);
      BelowTheStack(a, t, va, v);
    } else if status.Panic? {
      OnlyStackInTheWay(a, t, va, v);
    } else {
      ExtendedSame(a);
      if had && t.stack.size == PGSIZE {
        NoTableBelow(a, ViewOf(mem, pt'), t, va, v);
      }
    }
  }

  /** Next to a stack of one page, there is always a leaf table. */
  lemma NoTableBelow(a: View, b: View, t: Space, va: nat, v: nat)
    requires Running(a, t) && t.stack.size == PGSIZE && Represents(a.tables, a.pt) && va == v * PGSIZE
    requires a.pt.trans.Keys <= b.pt.trans.Keys && v !in a.pt.trans && Behind(t.sections, va)
    requires if v in b.pt.trans then Hole(b.pt, v + 1) else Hole(b.pt, v) && SameLeaves(a.pt, b.pt)
    ensures va + PGSIZE < t.stack.start && v + 1 !in a.pt.trans
  {
    hide OwnPages, Tree;
    Layout();
    BehindAll(t.sections, va);
    assert At(a.tables, a.pt, SHARED_PAGE) == Look(a.pt.trans, SHARED_PAGE);
    assert LeafPath(SHARED_PAGE * PGSIZE) in a.pt.shape.Keys;
    NextToShared(v);
    assert v + 1 < VPNS;
    assert forall w :: t.stack.start / PGSIZE <= w < VPNS ==> w in PagesOf(t.stack) + Fixed();
  }

  lemma NextToShared(v: nat)
    ensures SHARED_PAGE - 2 <= v < VPNS ==> LeafPath(v * PGSIZE) == LeafPath(SHARED_PAGE * PGSIZE)
  {
    if SHARED_PAGE - 2 <= v < VPNS {
      Layout();
      var va: nat := v * PGSIZE;
      assert 0x3F_FFFF_B000 <= va < 0x40_0000_0000;
      assert va / 0x4000_0000 == 255 && va / 0x20_0000 == 0x1_FFFF;
    }
  }

  lemma BelowTheStack(a: View, t: Space, va: nat, v: nat)
    requires Running(a, t) && va == v * PGSIZE && v + 1 < VPNS && v + 1 !in a.pt.trans
    ensures va + PGSIZE < t.stack.start
  {
    hide OwnPages, Apart;
    Layout();
    assert forall w :: t.stack.start / PGSIZE <= w < VPNS ==> w in PagesOf(t.stack) + Fixed();
  }

  /** The fields after the argument pages at `va` were registered. */
  function WithArguments(t: Space, va: nat): Space {
    t.(sections := t.sections + [Section(va, 2 * PGSIZE)])
  }

  /** What `available_from` returns. */
  ghost predicate Behind(sections: seq<Section>, va: nat) {
    && (forall i :: 0 <= i < |sections| ==> sections[i].start + sections[i].size <= va)
    && (va == 0 || exists i :: 0 <= i < |sections| && va == sections[i].start + sections[i].size)
  }

  /** The end of the section that ends last. */
  function EndOf(sections: seq<Section>): nat {
    if sections == [] then 0
    else
      var n := |sections| - 1;
      var before, last := EndOf(sections[..n]), sections[n].start + sections[n].size;
      if last > before then last else before
  }

  lemma {:induction false} EndOfAt(sections: seq<Section>)
    ensures forall i :: 0 <= i < |sections| ==> sections[i].start + sections[i].size <= EndOf(sections)
    ensures EndOf(sections) == 0 ||
      exists i :: 0 <= i < |sections| && EndOf(sections) == sections[i].start + sections[i].size
  {
    if sections != [] {
      var n := |sections| - 1;
      EndOfAt(sections[..n]);
      assert forall i :: 0 <= i < n ==> sections[..n][i] == sections[i];
      if EndOf(sections) == EndOf(sections[..n]) && EndOf(sections) != 0 {
        var i :| 0 <= i < n && EndOf(sections[..n]) == sections[..n][i].start + sections[..n][i].size;
        assert sections[i] == sections[..n][i];
      }
    }
  }

  lemma BehindIsEnd(sections: seq<Section>, va: nat)
    requires Behind(sections, va)
    ensures va == EndOf(sections)
  {
    EndOfAt(sections);
  }

  /** The arguments stand behind all sections and below the trampoline, so every section is below MAXVA. */
  lemma ArgumentsFit(m: View, t: Space, sections: seq<Section>, va: nat)
    requires Running(m, t) && Represents(m.tables, m.pt) && Behind(sections, va)
    requires t.sections == sections + [Section(va, 2 * PGSIZE)]
    ensures AllFit(t.sections)
  {
    var last := Section(va, 2 * PGSIZE);
    ApartAt(t.sections, |sections|);
    assert t.sections[|sections|] == last;
    SectionFits(m, last);
    forall i | 0 <= i < |sections|
      ensures Fits(t.sections[i])
    {
      assert t.sections[i] == sections[i];
    }
  }

  lemma AlignedBehind(m: View, sections: seq<Section>, live: Section, va: nat)
    requires Agrees(m, sections, live) && Behind(sections, va)
    ensures va == va / PGSIZE * PGSIZE
  {
    AlignedEnd(sections, va);
  }

  lemma AlignedEnd(sections: seq<Section>, va: nat)
    requires Apart(sections) && Behind(sections, va)
    ensures va == va / PGSIZE * PGSIZE
  {}

  lemma OnlyStackInTheWay(a: View, t: Space, va: nat, v: nat)
    requires Running(a, t) && Behind(t.sections, va) && va == v * PGSIZE
    requires v + 1 >= VPNS || v in a.pt.trans || v + 1 in a.pt.trans
    ensures va + PGSIZE >= t.stack.start
  {
    BehindAll(t.sections, va);
    Layout();
  }
}

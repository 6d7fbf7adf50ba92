/** What the memory half of struct task_struct goes through: new_task, load_elf, set_stack, exec's
    argument pages and teardown (kernel/process.c and kernel/elf.c). */
module TaskMemory {
  import opened Wrappers
  import opened Sv39
  import opened PageTables
  import opened Ranges
  import opened Supply
  import opened Memory
  import opened AddressSpace
  import opened SectionContents
  import opened Ledger
  import opened Isolation

  const PT_LOAD: nat := 1
  const PT_GNU_STACK: nat := 0x6474e551

  /** Elf64_Phdr. */
  datatype ProgramHeader = ProgramHeader(kind: nat, readable: bool, writable: bool, executable: bool,
                                         offset: nat, vaddr: nat, filesz: nat, memsz: nat)

  function Permission(ph: ProgramHeader): (p: nat)
    ensures p < 1024 && WithValid(p) != PTE_V
  {
    PTE_U + (if ph.readable then PTE_R else 0) + (if ph.writable then PTE_W else 0)
      + (if ph.executable then PTE_X else 0)
  }

  /** The section that `load_elf` registers. */
  function SectionOf(ph: ProgramHeader): Section {
    Section(RoundDown(ph.vaddr), RoundUp(ph.vaddr + ph.memsz) - RoundDown(ph.vaddr))
  }

  /** It consists of the pages that `map_section_for_user` maps. */
  lemma SectionOfPages(ph: ProgramHeader)
    ensures PageAligned(SectionOf(ph))
    ensures SectionOf(ph).start / PGSIZE == ph.vaddr / PGSIZE
    ensures SectionOf(ph).size / PGSIZE == SectionPages(ph.vaddr, ph.memsz)
  {}

  /** The file has the bytes that the header names. */
  predicate InFile(file: seq<nat>, ph: ProgramHeader) {
    ph.offset + ph.filesz <= |file|
  }

  /** Every page of the segment holds its part of the file, with the permissions of the header. */
  ghost predicate Filled(m: View, file: seq<nat>, ph: ProgramHeader)
    requires InFile(file, ph)
  {
    forall w :: w in PagesOf(SectionOf(ph)) ==>
      PageIs(m, w, PageBytes(file[ph.offset..], ph.vaddr, ph.filesz, w * PGSIZE), WithValid(Permission(ph)))
  }

  /** The pages that the segment reaches into. */
  lemma SegmentSpan(ph: ProgramHeader, w: nat)
    ensures w in PagesOf(SectionOf(ph)) <==> ph.vaddr / 4096 <= w && w * 4096 < ph.vaddr + ph.memsz
  {
    SectionOfPages(ph);
  }

  lemma PermissionGrants(ph: ProgramHeader)
    ensures Grants(WithValid(Permission(ph)), ph.readable, ph.writable, ph.executable, true)
  {}

  /** Every page of the segment is there for user programs, and allows what the header says. */
  ghost predicate SegmentAllows(m: View, ph: ProgramHeader) {
    forall w: nat :: ph.vaddr / 4096 <= w && w * 4096 < ph.vaddr + ph.memsz ==>
      && w in m.pt.trans
      && Grants(m.pt.trans[w].flags, ph.readable, ph.writable, ph.executable, true)
  }

  /** The bytes of the segment, but for a first page that begins before it: first those of the file, then zeros. */
  ghost predicate SegmentHolds(m: View, file: seq<nat>, ph: ProgramHeader)
    requires InFile(file, ph)
  {
    forall va: nat :: ph.vaddr <= va < ph.vaddr + ph.memsz && ph.vaddr <= va / 4096 * 4096 ==>
      ReadByte(m, va) == Some(if va < ph.vaddr + ph.filesz then file[ph.offset + (va - ph.vaddr)] else 0)
  }

  /** What a program finds in a segment. */
  lemma FilledMeans(m: View, file: seq<nat>, ph: ProgramHeader)
    requires InFile(file, ph) && Filled(m, file, ph)
    ensures SegmentAllows(m, ph) && SegmentHolds(m, file, ph)
  {
    PermissionGrants(ph);
    forall w: nat | ph.vaddr / 4096 <= w && w * 4096 < ph.vaddr + ph.memsz
      ensures w in m.pt.trans && Grants(m.pt.trans[w].flags, ph.readable, ph.writable, ph.executable, true)
    {
      SegmentSpan(ph, w);
    }
    forall va: nat | ph.vaddr <= va < ph.vaddr + ph.memsz && ph.vaddr <= va / 4096 * 4096
      ensures ReadByte(m, va) == Some(if va < ph.vaddr + ph.filesz then file[ph.offset + (va - ph.vaddr)] else 0)
    {
      SegmentSpan(ph, va / 4096);
      LaterPagesAreStored(file[ph.offset..], ph.vaddr, ph.filesz, va);
    }
  }

  /** The pages of the section can be mapped. */
  ghost predicate Vacant(taken: set<nat>, s: Section) {
    PagesOf(s) !! taken && forall w :: w in PagesOf(s) ==> w < VPNS
  }

  lemma SpanOfSection(ph: ProgramHeader, trans: Translation)
    ensures SectionSpan(ph.vaddr, ph.memsz) == PagesOf(SectionOf(ph))
    ensures SectionPages(ph.vaddr, ph.memsz) == SectionOf(ph).size / PGSIZE
    ensures Blocked(trans, ph.vaddr / PGSIZE, SectionPages(ph.vaddr, ph.memsz)) <==> !Vacant(trans.Keys, SectionOf(ph))
  {
    SectionOfPages(ph);
  }

  method LoadOne(mem: Memory, root: nat, file: seq<nat>, ph: ProgramHeader, ghost pt: PageTable,
                 ghost sections: seq<Section>, ghost live: Section)
      returns (status: Status, ghost pt': PageTable)
    requires Holds(mem, pt) && root == pt.root && Agrees(ViewOf(mem, pt), sections, live) && InFile(file, ph)
    modifies mem, mem.pool, mem.pool.link
    ensures !status.NotMapped?
    ensures status.Ok? || status.NoMemory? ==> Holds(mem, pt') && pt'.root == root
    ensures status.Ok? ==>
      Agrees(ViewOf(mem, pt'), sections + [SectionOf(ph)], live) && Filled(ViewOf(mem, pt'), file, ph)
    ensures status.Ok? ==> Extended(old(ViewOf(mem, pt)), ViewOf(mem, pt'))
    ensures status.NoMemory? ==>
      Agrees(ViewOf(mem, pt'), sections, live) && Undone(old(ViewOf(mem, pt)), ViewOf(mem, pt'))
    ensures status.NoMemory? ==> Extended(old(ViewOf(mem, pt)), ViewOf(mem, pt'))
    ensures status.Ok? ==>
      Paid(old(ViewOf(mem, pt)), ViewOf(mem, pt'), SectionOf(ph).size / PGSIZE, 0, PagesOf(SectionOf(ph)))
    ensures status.NoMemory? ==>
      !CanPay(old(ViewOf(mem, pt)), SectionOf(ph).size / PGSIZE, 0, PagesOf(SectionOf(ph)))
    ensures status.Panic? ==> !Vacant(pt.trans.Keys, SectionOf(ph))
    ensures status.Ok? ==> Vacant(pt.trans.Keys, SectionOf(ph))
    ensures status.Ok? ==> SegmentAllows(ViewOf(mem, pt'), ph) && SegmentHolds(ViewOf(mem, pt'), file, ph)
    ensures !status.Panic? ==> mem.Elsewhere() == old(mem.Elsewhere())
    ensures !status.Panic? ==> Strays(ViewOf(mem, pt')) == old(Strays(ViewOf(mem, pt)))
  {
    hide CanPay, Paid, Blocked, Represents, Filled, SegmentAllows, SegmentHolds, Strays;
    ghost var a := ViewOf(mem, pt);
    ghost var frames;
    SpanOfSection(ph, pt.trans);
    status, pt', frames := MapSection(mem, root, ph.vaddr, file[ph.offset..], ph.filesz, ph.memsz, Permission(ph), pt);
    ghost var b := ViewOf(mem, pt');
    if status.Ok? {
      SegmentLoaded(a, b, file, ph, frames, sections, live);
      SegmentVacant(a, b, file, ph, frames);
      FilledMeans(b, file, ph);
    } else if status.NoMemory? {
      AgreesUndone(a, b, sections, live);
    }
  }

  lemma SegmentVacant(a: View, b: View, file: seq<nat>, ph: ProgramHeader, frames: seq<nat>)
    requires InFile(file, ph) && SegmentMapped(a, b, file, ph, frames)
    ensures Vacant(a.pt.trans.Keys, SectionOf(ph))
    ensures Stretch(ph.vaddr / PGSIZE, |frames|) == PagesOf(SectionOf(ph))
  {
    SectionOfPages(ph);
  }

  /** The sections of the loadable segments. */
  function Loads(phdrs: seq<ProgramHeader>): seq<Section> {
    if phdrs == [] then []
    else
      var n := |phdrs| - 1;
      Loads(phdrs[..n]) + if phdrs[n].kind == PT_LOAD then [SectionOf(phdrs[n])] else []
  }

  function PageCount(phdrs: seq<ProgramHeader>): nat {
    if phdrs == [] then 0
    else
      var n := |phdrs| - 1;
      PageCount(phdrs[..n]) + if phdrs[n].kind == PT_LOAD then SectionOf(phdrs[n]).size / PGSIZE else 0
  }

  /** The segments do not overlap each other, nor what is mapped, and end below MAXVA. */
  ghost predicate Loadable(taken: set<nat>, phdrs: seq<ProgramHeader>) {
    phdrs == [] ||
    var n := |phdrs| - 1;
    && Loadable(taken, phdrs[..n])
    && (phdrs[n].kind == PT_LOAD ==> Vacant(taken + AllPages(Loads(phdrs[..n])), SectionOf(phdrs[n])))
  }

  /** From `a` to `b`, the pages of these segments were mapped and paid for. */
  ghost predicate Counted(a: View, b: View, phdrs: seq<ProgramHeader>) {
    && Loadable(a.pt.trans.Keys, phdrs) && b.pt.trans.Keys == a.pt.trans.Keys + AllPages(Loads(phdrs))
    && Paid(a, b, PageCount(phdrs), 0, AllPages(Loads(phdrs)))
  }

  ghost predicate CanLoad(a: View, phdrs: seq<ProgramHeader>) {
    CanPay(a, PageCount(phdrs), 0, AllPages(Loads(phdrs)))
  }

  lemma NothingCounted(a: View)
    ensures Counted(a, a, [])
  {
    hide Paid;
    NothingPaid(a);
  }

  lemma LoadsNext(phdrs: seq<ProgramHeader>, i: nat)
    requires i < |phdrs|
    ensures var s := SectionOf(phdrs[i]);
      if phdrs[i].kind == PT_LOAD then
        && Loads(phdrs[..i + 1]) == Loads(phdrs[..i]) + [s]
        && AllPages(Loads(phdrs[..i + 1])) == AllPages(Loads(phdrs[..i])) + PagesOf(s)
        && PageCount(phdrs[..i + 1]) == PageCount(phdrs[..i]) + s.size / PGSIZE
      else
        Loads(phdrs[..i + 1]) == Loads(phdrs[..i]) && PageCount(phdrs[..i + 1]) == PageCount(phdrs[..i])
  {
    assert phdrs[..i + 1][..i] == phdrs[..i] && phdrs[..i + 1][i] == phdrs[i];
    AllPagesAppend(Loads(phdrs[..i]), SectionOf(phdrs[i]));
  }

  lemma CountedNext(a: View, b: View, c: View, phdrs: seq<ProgramHeader>, i: nat)
    requires i < |phdrs| && Counted(a, b, phdrs[..i])
    requires phdrs[i].kind != PT_LOAD ==> c == b
    requires var s := SectionOf(phdrs[i]); phdrs[i].kind == PT_LOAD ==>
      && Vacant(b.pt.trans.Keys, s) && c.pt.trans.Keys == b.pt.trans.Keys + PagesOf(s)
      && Paid(b, c, s.size / PGSIZE, 0, PagesOf(s))
    ensures Counted(a, c, phdrs[..i + 1])
  {
    hide Paid, Vacant;
    assert phdrs[..i + 1][..i] == phdrs[..i] && phdrs[..i + 1][i] == phdrs[i];
    LoadsNext(phdrs, i);
    if phdrs[i].kind == PT_LOAD {
      var s := SectionOf(phdrs[i]);
      PaidTwice(a, b, c, PageCount(phdrs[..i]), 0, AllPages(Loads(phdrs[..i])), s.size / PGSIZE, 0, PagesOf(s));
    }
  }

  /** A header that cannot be loaded when its turn comes rules the whole file out. */
  lemma LoadFails(a: View, b: View, phdrs: seq<ProgramHeader>, i: nat)
    requires i < |phdrs| && phdrs[i].kind == PT_LOAD && Counted(a, b, phdrs[..i])
    ensures var s := SectionOf(phdrs[i]);
      !CanPay(b, s.size / PGSIZE, 0, PagesOf(s)) ==> !CanLoad(a, phdrs)
    ensures !Vacant(b.pt.trans.Keys, SectionOf(phdrs[i])) ==> !Loadable(a.pt.trans.Keys, phdrs)
  {
    hide Paid, CanPay, Vacant;
    var s := SectionOf(phdrs[i]);
    assert phdrs[..i + 1][..i] == phdrs[..i] && phdrs[..i + 1][i] == phdrs[i];
    LoadsNext(phdrs, i);
    PayTwice(a, b, PageCount(phdrs[..i]), 0, AllPages(Loads(phdrs[..i])), s.size / PGSIZE, 0, PagesOf(s));
    LoadPrefix(a, phdrs, i + 1);
  }

  lemma {:induction false} LoadPrefix(a: View, phdrs: seq<ProgramHeader>, i: nat)
    requires i <= |phdrs|
    ensures CanLoad(a, phdrs) ==> CanLoad(a, phdrs[..i])
    ensures Loadable(a.pt.trans.Keys, phdrs) ==> Loadable(a.pt.trans.Keys, phdrs[..i])
  {
    hide CanPay, Vacant;
    if i < |phdrs| {
      var n := |phdrs| - 1;
      assert phdrs[..n][..i] == phdrs[..i] && phdrs[..n + 1] == phdrs;
      LoadPrefix(a, phdrs[..n], i);
      LoadsNext(phdrs, n);
      var s := SectionOf(phdrs[n]);
      if CanLoad(a, phdrs) && phdrs[n].kind == PT_LOAD {
        PayLess(a, PageCount(phdrs[..n]), 0, AllPages(Loads(phdrs[..n])), s.size / PGSIZE, 0, PagesOf(s));
      }
    } else {
      assert phdrs[..i] == phdrs;
    }
  }

  predicate AllInFile(file: seq<nat>, phdrs: seq<ProgramHeader>) {
    forall i :: 0 <= i < |phdrs| ==> InFile(file, phdrs[i])
  }

  /** Every loadable segment holds its part of the file. */
  ghost predicate AllFilled(m: View, file: seq<nat>, phdrs: seq<ProgramHeader>)
    requires AllInFile(file, phdrs)
  {
    forall i :: 0 <= i < |phdrs| && phdrs[i].kind == PT_LOAD ==> Filled(m, file, phdrs[i])
  }

  /** What a program finds of an image; 1 is PT_LOAD. */
  ghost predicate ImageIs(m: View, file: seq<nat>, phdrs: seq<ProgramHeader>)
    requires AllInFile(file, phdrs)
  {
    forall i :: 0 <= i < |phdrs| && phdrs[i].kind == 1 ==>
      SegmentAllows(m, phdrs[i]) && SegmentHolds(m, file, phdrs[i])
  }

  lemma AllFilledMeans(m: View, file: seq<nat>, phdrs: seq<ProgramHeader>)
    requires AllInFile(file, phdrs) && AllFilled(m, file, phdrs)
    ensures ImageIs(m, file, phdrs)
  {
    hide Filled, SegmentAllows, SegmentHolds;
    forall i | 0 <= i < |phdrs| && phdrs[i].kind == 1
      ensures SegmentAllows(m, phdrs[i]) && SegmentHolds(m, file, phdrs[i])
    {
      FilledMeans(m, file, phdrs[i]);
    }
  }

  lemma FilledKept(a: View, b: View, file: seq<nat>, ph: ProgramHeader)
    requires InFile(file, ph) && Filled(a, file, ph) && Extended(a, b)
    ensures Filled(b, file, ph)
  {}

  lemma FilledMore(a: View, b: View, file: seq<nat>, phdrs: seq<ProgramHeader>, k: nat)
    requires AllInFile(file, phdrs) && k < |phdrs| && AllFilled(a, file, phdrs[..k]) && Extended(a, b)
    requires phdrs[k].kind == PT_LOAD ==> Filled(b, file, phdrs[k])
    ensures AllFilled(b, file, phdrs[..k + 1])
  {
    forall i | 0 <= i < k + 1 && phdrs[i].kind == PT_LOAD
      ensures Filled(b, file, phdrs[i])
    {
      if i < k {
        FilledEarlier(a, b, file, phdrs, k, i);
      }
    }
  }

  lemma FilledEarlier(a: View, b: View, file: seq<nat>, phdrs: seq<ProgramHeader>, k: nat, i: nat)
    requires AllInFile(file, phdrs) && i < k < |phdrs| && AllFilled(a, file, phdrs[..k]) && Extended(a, b)
    requires phdrs[i].kind == PT_LOAD
    ensures Filled(b, file, phdrs[i])
  {
    assert phdrs[..k][i] == phdrs[i];
    FilledKept(a, b, file, phdrs[i]);
  }

  /** Some header is PT_GNU_STACK. */
  predicate StackHeader(phdrs: seq<ProgramHeader>) {
    exists i :: 0 <= i < |phdrs| && phdrs[i].kind == PT_GNU_STACK
  }

  /** The first `i` headers were handled, and made `b` from `a`. */
  ghost predicate Handled(a: View, b: View, file: seq<nat>, phdrs: seq<ProgramHeader>, i: nat,
                          sections: seq<Section>, sections': seq<Section>, executableStack: bool, live: Section)
    requires AllInFile(file, phdrs) && i <= |phdrs|
  {
    && Agrees(b, sections', live) && sections' == sections + Loads(phdrs[..i])
    && AllFilled(b, file, phdrs[..i]) && Extended(a, b) && Counted(a, b, phdrs[..i])
    && (executableStack <==> StackHeader(phdrs[..i]))
  }

  lemma HandledNext(a: View, b: View, c: View, file: seq<nat>, phdrs: seq<ProgramHeader>, i: nat,
                    sections: seq<Section>, sections1: seq<Section>, executableStack: bool, live: Section)
    requires AllInFile(file, phdrs) && i < |phdrs| && Taken(a)
    requires Handled(a, b, file, phdrs, i, sections, sections1, executableStack, live)
    requires
      && Extended(b, c)
      && Agrees(c, sections1 + if phdrs[i].kind == PT_LOAD then [SectionOf(phdrs[i])] else [], live)
    requires phdrs[i].kind == PT_LOAD ==> Filled(c, file, phdrs[i])
    requires Counted(a, c, phdrs[..i + 1])
    ensures Handled(a, c, file, phdrs, i + 1, sections,
                    sections1 + if phdrs[i].kind == PT_LOAD then [SectionOf(phdrs[i])] else [],
                    executableStack || phdrs[i].kind == PT_GNU_STACK, live)
  {
    hide Counted, Filled, Agrees;
    assert phdrs[..i + 1][..i] == phdrs[..i] && phdrs[..i + 1][i] == phdrs[i];
    FilledMore(b, c, file, phdrs, i);
    ExtendedTwice(a, b, c);
    StackHeaderNext(phdrs, i);
  }

  lemma StackHeaderNext(phdrs: seq<ProgramHeader>, i: nat)
    requires i < |phdrs|
    ensures StackHeader(phdrs[..i + 1]) <==> StackHeader(phdrs[..i]) || phdrs[i].kind == PT_GNU_STACK
  {}

  /** One header. */
  method LoadHeader(mem: Memory, root: nat, file: seq<nat>, ph: ProgramHeader, sections: seq<Section>,
                    ghost pt: PageTable, ghost live: Section)
      returns (status: Status, sections': seq<Section>, ghost pt': PageTable)
    requires Holds(mem, pt) && root == pt.root && Agrees(ViewOf(mem, pt), sections, live) && InFile(file, ph)
    modifies mem, mem.pool, mem.pool.link
    ensures !status.NotMapped?
    ensures status.Ok? || status.NoMemory? ==>
      Holds(mem, pt') && pt'.root == root && Agrees(ViewOf(mem, pt'), sections', live)
    ensures status.Ok? ==> sections' == sections + if ph.kind == PT_LOAD then [SectionOf(ph)] else []
    ensures status.Ok? || status.NoMemory? ==> Extended(old(ViewOf(mem, pt)), ViewOf(mem, pt'))
    ensures status.Ok? && ph.kind == PT_LOAD ==> Filled(ViewOf(mem, pt'), file, ph)
    ensures ph.kind != PT_LOAD ==> status.Ok? && ViewOf(mem, pt') == old(ViewOf(mem, pt))
    ensures status.Ok? && ph.kind == PT_LOAD ==>
      && Paid(old(ViewOf(mem, pt)), ViewOf(mem, pt'), SectionOf(ph).size / PGSIZE, 0, PagesOf(SectionOf(ph)))
      && Vacant(pt.trans.Keys, SectionOf(ph))
    ensures status.NoMemory? ==>
      !CanPay(old(ViewOf(mem, pt)), SectionOf(ph).size / PGSIZE, 0, PagesOf(SectionOf(ph)))
    ensures status.Panic? ==> !Vacant(pt.trans.Keys, SectionOf(ph))
    ensures status.NoMemory? ==> sections' == sections
    ensures !status.Panic? ==> mem.Elsewhere() == old(mem.Elsewhere())
    ensures !status.Panic? ==> Strays(ViewOf(mem, pt')) == old(Strays(ViewOf(mem, pt)))
  {
    hide Paid, CanPay, Vacant, Filled, Agrees, Represents, SegmentAllows, SegmentHolds, Strays;
    if ph.kind != PT_LOAD {
      return Ok, sections, pt;
    }
    status, pt' := LoadOne(mem, root, file, ph, pt, sections, live);
    sections' := if status.Ok? then sections + [SectionOf(ph)] else sections;
  }

  /** The fields of the task when header `i` fails. */
  ghost predicate LoadedUpTo(phdrs: seq<ProgramHeader>, i: nat, sections: seq<Section>, sections': seq<Section>,
                             executableStack: bool) {
    i < |phdrs| && sections' == sections + Loads(phdrs[..i]) && (executableStack <==> StackHeader(phdrs[..i]))
  }

  /** One iteration of `load_elf`. */
  method LoadNext(mem: Memory, root: nat, file: seq<nat>, phdrs: seq<ProgramHeader>, i: nat, sections: seq<Section>,
                  executableStack: bool, ghost pt: PageTable, ghost a: View, ghost sections0: seq<Section>,
                  ghost live: Section)
      returns (status: Status, sections': seq<Section>, executableStack': bool, ghost pt': PageTable)
    requires Holds(mem, pt) && root == pt.root && AllInFile(file, phdrs) && i < |phdrs| && Taken(a)
    requires Handled(a, ViewOf(mem, pt), file, phdrs, i, sections0, sections, executableStack, live)
    modifies mem, mem.pool, mem.pool.link
    ensures !status.NotMapped?
    ensures status.Ok? || status.NoMemory? ==>
      Holds(mem, pt') && pt'.root == root && Agrees(ViewOf(mem, pt'), sections', live)
    ensures status.NoMemory? ==> Extended(a, ViewOf(mem, pt'))
    ensures status.Ok? ==>
      Handled(a, ViewOf(mem, pt'), file, phdrs, i + 1, sections0, sections', executableStack', live)
    ensures status.NoMemory? ==> !CanLoad(a, phdrs)
    ensures status.Panic? ==> !Loadable(a.pt.trans.Keys, phdrs)
    ensures status.NoMemory? ==> LoadedUpTo(phdrs, i, sections0, sections', executableStack')
    ensures !status.Panic? ==> mem.Elsewhere() == old(mem.Elsewhere())
    ensures !status.Panic? ==> Strays(ViewOf(mem, pt')) == old(Strays(ViewOf(mem, pt)))
  {
    hide Paid, CanPay, CanLoad, Loadable, Vacant, Filled, AllFilled, Represents, Strays;
    ghost var b := ViewOf(mem, pt);
    executableStack' := executableStack || phdrs[i].kind == PT_GNU_STACK;
    status, sections', pt' := LoadHeader(mem, root, file, phdrs[i], sections, pt, live);
    if phdrs[i].kind == PT_LOAD {
      LoadFails(a, b, phdrs, i);
    }
    if status.Ok? {
      if phdrs[i].kind == PT_LOAD {
        OneMoreKeys(b, ViewOf(mem, pt'), sections, SectionOf(phdrs[i]), live);
      }
      CountedNext(a, b, ViewOf(mem, pt'), phdrs, i);
      HandledNext(a, b, ViewOf(mem, pt'), file, phdrs, i, sections0, sections, executableStack, live);
    } else if status.NoMemory? {
      ExtendedTwice(a, b, ViewOf(mem, pt'));
    }
  }

  lemma OneMoreKeys(b: View, c: View, sections: seq<Section>, s: Section, live: Section)
    requires Agrees(b, sections, live) && Agrees(c, sections + [s], live)
    ensures c.pt.trans.Keys == b.pt.trans.Keys + PagesOf(s)
  {
    hide OwnPages;
    AllPagesAppend(sections, s);
  }

  lemma NothingHandled(a: View, file: seq<nat>, phdrs: seq<ProgramHeader>, sections: seq<Section>, live: Section)
    requires Agrees(a, sections, live) && AllInFile(file, phdrs)
    ensures Handled(a, a, file, phdrs, 0, sections, sections, false, live)
  {
    hide Counted, Agrees;
    assert phdrs[..0] == [];
    NothingCounted(a);
  }

  /** The loop of `load_elf`. */
  method LoadSegments(mem: Memory, root: nat, file: seq<nat>, phdrs: seq<ProgramHeader>, sections: seq<Section>,
                      ghost pt: PageTable, ghost live: Section)
      returns (status: Status, sections': seq<Section>, executableStack: bool, ghost pt': PageTable)
    requires Holds(mem, pt) && root == pt.root && Agrees(ViewOf(mem, pt), sections, live) && AllInFile(file, phdrs)
    modifies mem, mem.pool, mem.pool.link
    ensures !status.NotMapped?
    ensures status.Ok? || status.NoMemory? ==>
      Holds(mem, pt') && pt'.root == root && Agrees(ViewOf(mem, pt'), sections', live)
    ensures status.NoMemory? ==> Extended(old(ViewOf(mem, pt)), ViewOf(mem, pt'))
    ensures status.Ok? ==>
      Handled(old(ViewOf(mem, pt)), ViewOf(mem, pt'), file, phdrs, |phdrs|, sections, sections', executableStack, live)
    ensures status.NoMemory? ==> !CanLoad(old(ViewOf(mem, pt)), phdrs)
    ensures status.Panic? ==> !Loadable(pt.trans.Keys, phdrs)
    ensures status.NoMemory? ==> exists i :: LoadedUpTo(phdrs, i, sections, sections', executableStack)
    ensures !status.Panic? ==> mem.Elsewhere() == old(mem.Elsewhere())
    ensures !status.Panic? ==> Strays(ViewOf(mem, pt')) == old(Strays(ViewOf(mem, pt)))
  {
    hide CanLoad, Loadable, Counted, AllFilled, Represents, Strays;
    ghost var a := ViewOf(mem, pt);
    NothingHandled(a, file, phdrs, sections, live);
    status, sections', executableStack, pt' := Ok, sections, false, pt;
    var i: nat := 0;
    while i < |phdrs|
      invariant i <= |phdrs| && status.Ok? && Holds(mem, pt') && pt'.root == root
      invariant mem.Elsewhere() == old(mem.Elsewhere()) && Strays(ViewOf(mem, pt')) == Strays(a)
      invariant Handled(a, ViewOf(mem, pt'), file, phdrs, i, sections, sections', executableStack, live)
    {
      status, sections', executableStack, pt' := LoadNext(mem, root, file, phdrs, i, sections', executableStack, pt', a,
                                                          sections, live);
      if !status.Ok? {
        return;
      }
      i := i + 1;
    }
  }

  // ----- The stack -----

  /** The stack reaches up to the shared page, and not below its limit. */
  predicate StackIn(stack: Section) {
    PageAligned(stack) && stack.start + stack.size == SHARED_MEMORY && MIN_STACK_ADDR <= stack.start && stack.size > 0
  }

  /** Maps a cleared page at `va`, which becomes the lowest page of the stack. */
  method AddStackPage(mem: Memory, root: nat, va: nat, permission: nat, ghost pt: PageTable,
                      ghost sections: seq<Section>, ghost stack: Section, ghost stack': Section)
      returns (status: Status, ghost pt': PageTable)
    requires Holds(mem, pt) && root == pt.root && Agrees(ViewOf(mem, pt), sections, stack)
    requires permission < 1024 && WithValid(permission) != PTE_V && Lower(stack, stack', va)
    modifies mem, mem.pool, mem.pool.link
    ensures mem.Valid() && !status.NotMapped? && mem.Elsewhere() == old(mem.Elsewhere())
    ensures !status.Panic? ==> Holds(mem, pt') && pt'.root == root
    ensures status.Ok? ==>
      Agrees(ViewOf(mem, pt'), sections, stack') && Extended(old(ViewOf(mem, pt)), ViewOf(mem, pt'))
    ensures status.Ok? ==> PageIs(ViewOf(mem, pt'), va / PGSIZE, ZeroPage(), WithValid(permission))
    ensures status.NoMemory? ==>
      Agrees(ViewOf(mem, pt'), sections, stack) && Undone(old(ViewOf(mem, pt)), ViewOf(mem, pt'))
    ensures status.NoMemory? ==> Extended(old(ViewOf(mem, pt)), ViewOf(mem, pt'))
    ensures status.Panic? ==> va >= MAXVA || va / PGSIZE in pt.trans
    ensures status.Ok? ==> va < MAXVA && va / PGSIZE !in pt.trans
    ensures status.Ok? ==> Paid(old(ViewOf(mem, pt)), ViewOf(mem, pt'), 1, 0, Stretch(va / PGSIZE, 1))
    ensures status.NoMemory? ==> !CanPay(old(ViewOf(mem, pt)), 1, 0, Stretch(va / PGSIZE, 1))
    ensures !status.Panic? ==> Strays(ViewOf(mem, pt')) == old(Strays(ViewOf(mem, pt)))
  {
    hide StockOf, CanMap, WithPage, Affords, After, Paid, CanPay, Represents, Strays;
    ghost var a, v, flags := ViewOf(mem, pt), va / PGSIZE, Uniform(WithValid(permission));
    ghost var frame;
    MappedNothing(a, v, flags);
    status, pt', frame := MapNext(mem, root, va, [], permission, pt, a, v, [], [], v);
    ghost var b := ViewOf(mem, pt');
    PagePaid(a, b, v);
    if status.Ok? {
      StackPageAdded(a, b, sections, stack, stack', va, frame, permission);
    } else if status.NoMemory? {
      NothingMapped(a, b, v, flags);
      AgreesUndone(a, b, sections, stack);
    }
  }

  /** `stack'` is the stack with the page at `va` below it. */
  ghost predicate Lower(stack: Section, stack': Section, va: nat) {
    && PageAligned(stack') && stack'.start == va && stack'.size == stack.size + PGSIZE
    && (stack.size > 0 ==> va + PGSIZE == stack.start)
  }

  lemma LowerPages(stack: Section, stack': Section, va: nat)
    requires Lower(stack, stack', va) && PageAligned(stack)
    ensures PagesOf(stack') == PagesOf(stack) + Stretch(va / PGSIZE, 1)
  {}

  lemma StackPageAdded(a: View, b: View, sections: seq<Section>, stack: Section, stack': Section, va: nat, frame: nat,
                       permission: nat)
    requires
      && Agrees(a, sections, stack)
      && Lower(stack, stack', va)
      && va / PGSIZE !in a.pt.trans
      && WithValid(permission) != PTE_V
    requires Mapped(a, b, va / PGSIZE, [] + [frame], [] + [[] + ZeroPage()[0..]], Uniform(WithValid(permission)))
    ensures Agrees(b, sections, stack') && Extended(a, b) && Strays(b) == Strays(a)
    ensures PageIs(b, va / PGSIZE, ZeroPage(), WithValid(permission))
  {
    hide Strays;
    var v, frames, contents := va / PGSIZE, [] + [frame], [] + [[] + ZeroPage()[0..]];
    var flags := Uniform(WithValid(permission));
    LowerPages(stack, stack', va);
    GrowStack(a, b, sections, stack, stack', frames, contents, flags);
    assert contents[0] == ZeroPage();
    MappedPage(a, b, v, frames, contents, flags, v);
    ExtendedMapped(a, b, v, frames, contents, flags);
    StraysMapped(a, b, v, frames, contents, flags);
  }

  lemma NothingMapped(a: View, b: View, v: nat, flags: Permissions)
    requires Mapped(a, b, v, [], [], flags) && Represents(b.tables, b.pt)
    ensures Undone(a, b)
  {}

  // ----- new_task -----

  /** A call of `map_page` for virtual page `v` and frame `f`, in a row of such calls since `a`. */
  method MapOne(mem: Memory, root: nat, va: nat, pa: nat, permission: nat, ghost pt: PageTable, ghost a: View,
                ghost v: nat, ghost f: nat)
      returns (status: Status, ghost pt': PageTable)
    requires Holds(mem, pt) && root == pt.root && permission < 1024 && AtPage(va, v) && f == RoundDown(pa)
    requires TablesTaken(a) && Grew(a.tables, a.free, a.pt, mem.tables, mem.pool.free, pt)
    modifies mem`tables, mem.pool, mem.pool.link
    ensures mem.Valid() && !status.NotMapped? && mem.Elsewhere() == old(mem.Elsewhere())
    ensures status.Panic? <==> v >= VPNS || v in pt.trans
    ensures !status.Panic? ==> Holds(mem, pt') && root == pt'.root
    ensures status.Ok? ==> pt'.trans == pt.trans[v := Entry(f, WithValid(permission))]
    ensures status.NoMemory? ==> pt'.trans == pt.trans && Hole(pt', v) && SameLeaves(pt, pt')
    ensures !status.Panic? ==> Grew(a.tables, a.free, a.pt, mem.tables, mem.pool.free, pt')
    ensures status.Ok? ==> Paid(old(ViewOf(mem, pt)), ViewOf(mem, pt'), 0, 0, Stretch(v, 1))
    ensures !status.Panic? ==> (status.Ok? <==> CanPay(old(ViewOf(mem, pt)), 0, 0, Stretch(v, 1)))
  {
    hide StockOf, Built, Affords, After, CanPay, At;
    ghost var t, g, o := mem.tables, mem.pool.free, ViewOf(mem, pt);
    assert RoundDown(va) == v * PGSIZE;
    status, pt' := mem.MapPage(root, va, pa, permission, pt);
    OnlyMids(MeansOf(o), v * PGSIZE);
    TablesPaid(o, ViewOf(mem, pt'), v);
    GrewTwice(a.tables, a.free, a.pt, t, g, pt, mem.tables, mem.pool.free, pt');
  }

  /** No leaf table came or went. */
  ghost predicate SameLeaves(pt: PageTable, pt': PageTable) {
    forall p: Path :: p.Leaf? ==> (p in pt'.shape.Keys <==> p in pt.shape.Keys)
  }

  /** A walk that does not reach its leaf table has at most made the table above. */
  lemma OnlyMids(m: Means, va: nat)
    ensures LeafPath(va) !in Built(m, va).tables ==>
      forall p: Path :: p.Leaf? ==> (p in Built(m, va).tables <==> p in m.tables)
  {}

  /** The address lies in virtual page `v`. */
  ghost predicate AtPage(va: nat, v: nat) {
    va / PGSIZE == v && (va >= MAXVA <==> v >= VPNS)
  }

  lemma FixedAddresses()
    ensures
      && AtPage(TRAPFRAME, TRAPFRAME_PAGE)
      && AtPage(TRAMPOLINE, TRAMPOLINE_PAGE)
      && AtPage(SHARED_MEMORY, SHARED_PAGE)
    ensures TRAPFRAME_PAGE < VPNS && TRAMPOLINE_PAGE < VPNS && SHARED_PAGE < VPNS
  {}

  method MapFixed(mem: Memory, root: nat, trapFrame: nat, trampoline: nat, sharedMemory: nat, ghost pt: PageTable)
      returns (status: Status, ghost pt': PageTable)
    requires
      && Holds(mem, pt)
      && root == pt.root
      && pt.trans == map[]
      && RoundDown(trapFrame) == trapFrame
      && RoundDown(sharedMemory) == sharedMemory
    modifies mem`tables, mem.pool, mem.pool.link
    ensures mem.Valid() && (status.Ok? || status.NoMemory?) && mem.Elsewhere() == old(mem.Elsewhere())
    ensures status.Ok? ==>
      Holds(mem, pt') && root == pt'.root && pt'.trans == FixedPages(trapFrame, RoundDown(trampoline), sharedMemory)
    ensures status.Ok? ==> Grew(old(mem.tables), old(mem.pool.free), pt, mem.tables, mem.pool.free, pt')
    ensures status.Ok? ==> Paid(old(ViewOf(mem, pt)), ViewOf(mem, pt'), 0, 0, Fixed())
    ensures status.NoMemory? ==> !CanPay(old(ViewOf(mem, pt)), 0, 0, Fixed())
  {
    hide Paid, CanPay, Widened, Represents, Hole, Stretch, KernelPages, Fixed, Grew, FixedPages, WithValid;
    ghost var a := ViewOf(mem, pt);
    FixedAddresses();
    FixedSplit();
    FixedPagesAre(trapFrame, RoundDown(trampoline), sharedMemory);
    status, pt' := MapKernelPages(mem, root, trapFrame, trampoline, pt);
    if status.Ok? {
      ghost var b := ViewOf(mem, pt');
      status, pt' := MapOne(mem, root, SHARED_MEMORY, sharedMemory, PTE_R + PTE_W + PTE_U, pt', a, SHARED_PAGE,
                            sharedMemory);
      PayTwice(a, b, 0, 0, KernelPages(), 0, 0, Stretch(SHARED_PAGE, 1));
      if status.Ok? {
        PaidTwice(a, b, ViewOf(mem, pt'), 0, 0, KernelPages(), 0, 0, Stretch(SHARED_PAGE, 1));
      }
    } else if CanPay(a, 0, 0, Fixed()) {
      PayLess(a, 0, 0, KernelPages(), 0, 0, Stretch(SHARED_PAGE, 1));
    }
  }

  /** Trap frame and trampoline, which only the kernel can access. */
  method MapKernelPages(mem: Memory, root: nat, trapFrame: nat, trampoline: nat, ghost pt: PageTable)
      returns (status: Status, ghost pt': PageTable)
    requires Holds(mem, pt) && root == pt.root && pt.trans == map[] && RoundDown(trapFrame) == trapFrame
    modifies mem`tables, mem.pool, mem.pool.link
    ensures mem.Valid() && (status.Ok? || status.NoMemory?) && mem.Elsewhere() == old(mem.Elsewhere())
    ensures status.Ok? ==> Holds(mem, pt') && root == pt'.root
    ensures status.Ok? ==> pt'.trans == map[TRAPFRAME_PAGE := Entry(trapFrame, WithValid(PTE_R + PTE_W)),
                                            TRAMPOLINE_PAGE := Entry(RoundDown(trampoline), WithValid(PTE_R + PTE_X))]
    ensures status.Ok? ==> Grew(old(mem.tables), old(mem.pool.free), pt, mem.tables, mem.pool.free, pt')
    ensures status.Ok? ==> Paid(old(ViewOf(mem, pt)), ViewOf(mem, pt'), 0, 0, KernelPages())
    ensures status.NoMemory? ==> !CanPay(old(ViewOf(mem, pt)), 0, 0, KernelPages())
  {
    hide Paid, CanPay, Widened, Represents, Grew, WithValid, Stretch, Hole;
    ghost var a := ViewOf(mem, pt);
    FixedAddresses();
    GrewNothing(a.tables, a.free, a.pt);
    status, pt' := MapOne(mem, root, TRAPFRAME, trapFrame, PTE_R + PTE_W, pt, a, TRAPFRAME_PAGE, trapFrame);
    if status.Ok? {
      ghost var b := ViewOf(mem, pt');
      status, pt' := MapOne(mem, root, TRAMPOLINE, trampoline, PTE_R + PTE_X, pt', a, TRAMPOLINE_PAGE,
                            RoundDown(trampoline));
      PayTwice(a, b, 0, 0, Stretch(TRAPFRAME_PAGE, 1), 0, 0, Stretch(TRAMPOLINE_PAGE, 1));
      if status.Ok? {
        PaidTwice(a, b, ViewOf(mem, pt'), 0, 0, Stretch(TRAPFRAME_PAGE, 1), 0, 0, Stretch(TRAMPOLINE_PAGE, 1));
      }
    } else if CanPay(a, 0, 0, KernelPages()) {
      PayLess(a, 0, 0, Stretch(TRAPFRAME_PAGE, 1), 0, 0, Stretch(TRAMPOLINE_PAGE, 1));
    }
  }

  lemma FixedPagesAre(trapFrame: nat, trampoline: nat, sharedMemory: nat)
    ensures map[TRAPFRAME_PAGE := Entry(trapFrame, WithValid(PTE_R + PTE_W)),
                TRAMPOLINE_PAGE := Entry(trampoline, WithValid(PTE_R + PTE_X))]
               [SHARED_PAGE := Entry(sharedMemory, WithValid(PTE_R + PTE_W + PTE_U))]
         == FixedPages(trapFrame, trampoline, sharedMemory)
    ensures SHARED_PAGE !in map[TRAPFRAME_PAGE := Entry(trapFrame, WithValid(PTE_R + PTE_W)),
                                TRAMPOLINE_PAGE := Entry(trampoline, WithValid(PTE_R + PTE_X))]
  {
    hide WithValid;
  }

  lemma FixedSplit()
    ensures KernelPages() + Stretch(SHARED_PAGE, 1) == Fixed()
  {}

  ghost function KernelPages(): set<nat> {
    Stretch(TRAPFRAME_PAGE, 1) + Stretch(TRAMPOLINE_PAGE, 1)
  }

  lemma FixedAgrees(m: View, trapFrame: nat, trampoline: nat, sharedMemory: nat)
    requires m.pt.trans == FixedPages(trapFrame, trampoline, sharedMemory)
    requires trapFrame in m.pages && sharedMemory in m.pages && trapFrame != sharedMemory
    ensures Agrees(m, [], Section(0, 0)) && Frames(m, trapFrame, sharedMemory)
  {}

  lemma FixedGrants(trapFrame: nat, trampoline: nat, sharedMemory: nat)
    ensures var trans := FixedPages(trapFrame, trampoline, sharedMemory);
      && trans.Keys == {0x3FF_FFFF, 0x3FF_FFFE, 0x3FF_FFFD}
      && Grants(trans[0x3FF_FFFF].flags, true, false, true, false)
      && Grants(trans[0x3FF_FFFE].flags, true, true, false, false)
      && Grants(trans[0x3FF_FFFD].flags, true, true, false, true)
  {}

  /** What `new_task` does not give back when it is refused: trap frame and shared memory, if it got them, and the
      second page of the root table. */
  function Kept(page: nat): set<int> {
    if page == NULL then {} else {PageNo(page)}
  }

  function Second(table: nat): set<int> {
    if table == NULL then {} else {PageNo(table) + 1}
  }

  /** How `new_task` ends. When it cannot map the fixed pages, it frees what fields say that are not set yet: that is
      `Wild`, and the model ends there. */
  datatype Birth = Born | Refused | Wild

  /** `new_task`. */
  method NewTask(mem: Memory, trampoline: nat)
      returns (birth: Birth, root: nat, trapFrame: nat, sharedMemory: nat, ghost pt: PageTable)
    requires mem.Valid()
    modifies mem, mem.pool, mem.pool.link
    ensures birth.Born? <==> Enough(StockOf(old(mem.pool.free)), 3, 3)
    ensures birth.Refused? <==> !Enough(StockOf(old(mem.pool.free)), 3, 1)
    ensures birth.Refused? ==> mem.Valid() && Local(Unborn(old(ViewOf(mem, pt))), Unborn(ViewOf(mem, pt)))
    ensures birth.Refused? ==>
      && mem.tables == old(mem.tables)
      && mem.pool.free == old(mem.pool.free) - Kept(trapFrame) - Kept(sharedMemory) - Second(root)
    ensures birth.Born? ==> Holds(mem, pt) && root == pt.root && Agrees(ViewOf(mem, pt), [], Section(0, 0))
    ensures birth.Born? ==> Frames(ViewOf(mem, pt), trapFrame, sharedMemory)
    ensures birth.Born? ==> pt.trans == FixedPages(trapFrame, RoundDown(trampoline), sharedMemory)
    ensures birth.Born? ==> pt.trans.Keys == {0x3FF_FFFF, 0x3FF_FFFE, 0x3FF_FFFD}
    ensures birth.Born? ==>
      && Grants(pt.trans[0x3FF_FFFF].flags, true, false, true, false)
      && Grants(pt.trans[0x3FF_FFFE].flags, true, true, false, false)
      && Grants(pt.trans[0x3FF_FFFD].flags, true, true, false, true)
    ensures birth.Born? ==>
      trapFrame !in old(mem.pages) && sharedMemory !in old(mem.pages) && trapFrame != sharedMemory
    ensures birth.Born? ==> mem.pages == old(mem.pages)[trapFrame := ZeroPage()][sharedMemory := ZeroPage()]
    ensures birth.Born? ==> Local(Unborn(old(ViewOf(mem, pt))), ViewOf(mem, pt))
    ensures birth.Born? ==> MeansOf(ViewOf(mem, pt)) == NewMeans(StockOf(old(mem.pool.free)))
  {
    hide StockOf, Enough, Spent, Affords, After, Paid, CanPay, Represents, Agrees, Frames, Grew, Grants, FixedPages;
    ghost var s0 := StockOf(mem.pool.free);
    var status;
    status, root, trapFrame, sharedMemory, pt := AllocateParts(mem);
    if status.NoMemory? {
      EnoughTwice(s0, 3, 1, 0, 2);
      return Refused, root, trapFrame, sharedMemory, pt;
    }
    ghost var b := ViewOf(mem, pt);
    NewTaskMeans(s0, b);
    status, pt := MapFixed(mem, root, trapFrame, trampoline, sharedMemory, pt);
    birth := if status.Ok? then Born else Wild;
    if status.Ok? {
      NewTaskPaid(s0, b, ViewOf(mem, pt));
      FixedAgrees(ViewOf(mem, pt), trapFrame, RoundDown(trampoline), sharedMemory);
      FixedGrants(trapFrame, RoundDown(trampoline), sharedMemory);
      FreshTree(old(mem.tables), old(mem.pool.free), b.tables, b.free, b.pt, mem.tables, mem.pool.free, pt);
      BornLocal(Unborn(old(ViewOf(mem, pt))), ViewOf(mem, pt), trapFrame, RoundDown(trampoline), sharedMemory);
    }
  }

  /** What is left after `new_task`, and the tables that the task has. */
  ghost function NewMeans(s: Stock): Means {
    Means(Spent(s, 3, 3), {Root} + TablesFor(Fixed()))
  }

  /** The fixed pages share their tables. */
  lemma FixedTables()
    ensures TablesFor(Fixed()) == {Mid(255), Leaf(255, 511)} && |TablesFor(Fixed()) - {Root}| == 2
  {
    hide TablesTo;
    forall w | w in Fixed()
      ensures TablesTo(w) == {Mid(255), Leaf(255, 511)}
    {
      FixedTable(w);
    }
    assert SHARED_PAGE in Fixed();
    Lacking(Mid(255), Leaf(255, 511), {Root});
  }

  lemma FixedTable(w: nat)
    requires w in Fixed()
    ensures TablesTo(w) == {Mid(255), Leaf(255, 511)}
  {
    Layout();
    var va: nat := w * PGSIZE;
    assert 0x3F_FFFF_D000 <= va < 0x40_0000_0000;
    assert va / 0x4000_0000 == 255 && va / 0x20_0000 == 0x1_FFFF;
  }

  lemma NewTaskMeans(s: Stock, b: View)
    requires Enough(s, 3, 1) && MeansOf(b) == Means(Spent(s, 3, 1), {Root})
    ensures CanPay(b, 0, 0, Fixed()) <==> Enough(s, 3, 3)
  {
    hide StockOf, Enough, Spent;
    FixedTables();
    EnoughTwice(s, 3, 1, 0, 2);
  }

  lemma NewTaskPaid(s: Stock, b: View, c: View)
    requires Enough(s, 3, 1) && MeansOf(b) == Means(Spent(s, 3, 1), {Root}) && Paid(b, c, 0, 0, Fixed())
    ensures Enough(s, 3, 3) && MeansOf(c) == NewMeans(s)
  {
    hide StockOf, Enough, Spent;
    NewTaskMeans(s, b);
    FixedTables();
    EnoughTwice(s, 3, 1, 0, 2);
  }

  /** The allocations of `new_task`: kernel stack, root table, trap frame and shared memory. When one fails, the
      kernel stack and the first page of the root table are given back. */
  method AllocateParts(mem: Memory)
      returns (status: Status, root: nat, trapFrame: nat, sharedMemory: nat, ghost pt: PageTable)
    requires mem.Valid()
    modifies mem, mem.pool, mem.pool.link
    ensures mem.Valid() && (status.Ok? || status.NoMemory?)
    ensures status.Ok? <==> Enough(StockOf(old(mem.pool.free)), 3, 1)
    ensures status.NoMemory? ==> Local(Unborn(old(ViewOf(mem, pt))), Unborn(ViewOf(mem, pt)))
    ensures status.NoMemory? ==>
      && mem.tables == old(mem.tables)
      && mem.pool.free == old(mem.pool.free) - Kept(trapFrame) - Kept(sharedMemory) - Second(root)
    ensures status.Ok? ==> Holds(mem, pt) && pt == PageTable(root, map[Root := root], map[])
    ensures status.Ok? ==> NewTree(old(mem.tables), old(mem.pool.free), mem.tables, mem.pool.free, pt)
    ensures status.Ok? ==> PageNo(trapFrame) in old(mem.pool.free) && PageNo(sharedMemory) in old(mem.pool.free)
    ensures status.Ok? ==> RoundDown(trapFrame) == trapFrame && RoundDown(sharedMemory) == sharedMemory
    ensures status.Ok? ==>
      trapFrame != sharedMemory && trapFrame !in old(mem.pages) && sharedMemory !in old(mem.pages)
    ensures status.Ok? ==> mem.pages == old(mem.pages)[trapFrame := ZeroPage()][sharedMemory := ZeroPage()]
    ensures status.Ok? ==> MeansOf(ViewOf(mem, pt)) == Means(Spent(StockOf(old(mem.pool.free)), 3, 1), {Root})
  {
    hide StockOf, Enough, Spent, Represents, Kept, Second;
    EnoughTwice(StockOf(mem.pool.free), 1, 1, 2, 0);
    var stack;
    ghost var f0 := mem.pool.free;
    stack, root, pt := StackAndRoot(mem);
    ghost var t, f1 := mem.tables, mem.pool.free;
    status, trapFrame, sharedMemory := TwoPages(mem);
    if stack == NULL || root == NULL || status.NoMemory? {
      status := NoMemory;
      GiveBackParts(mem, stack, root, t);
      Returned(f0, f1, stack, root, trapFrame, sharedMemory);
      NothingLeft(Unborn(old(ViewOf(mem, pt))), Unborn(ViewOf(mem, pt)), stack, root);
    }
  }

  lemma Returned(f0: set<int>, f1: set<int>, stack: nat, root: nat, p: nat, q: nat)
    requires f1 == f0 - Kept(stack) - Kept(root) - Second(root) && Kept(stack) <= f0 && Kept(root) + Second(root) <= f0
    requires Kept(stack) !! Kept(root) + Second(root)
    requires Kept(p) <= f1 && Kept(q) <= f1
    ensures f1 - Kept(p) - Kept(q) + Kept(stack) + Kept(root) == f0 - Kept(p) - Kept(q) - Second(root)
  {}

  lemma NothingLeft(a: View, b: View, stack: nat, root: nat)
    requires
      && a == Unborn(a)
      && b == Unborn(b)
      && (forall f :: f in a.tables ==> f in b.tables && b.tables[f] == a.tables[f])
    requires forall p :: p in a.pages ==> p in b.pages && b.pages[p] == a.pages[p]
    requires b.free <= a.free
    ensures Local(a, b)
  {
    NoClaims(b);
  }

  /** The first two allocations. */
  method StackAndRoot(mem: Memory) returns (stack: nat, root: nat, ghost pt: PageTable)
    requires mem.Valid()
    modifies mem`tables, mem.pool, mem.pool.link
    ensures mem.Valid() && mem.pool.free <= old(mem.pool.free)
    ensures stack != NULL && root != NULL <==> Enough(StockOf(old(mem.pool.free)), 1, 1)
    ensures stack != NULL && root != NULL ==> StockOf(mem.pool.free) == Spent(StockOf(old(mem.pool.free)), 1, 1)
    ensures stack != NULL ==> KernelPage(mem, stack) && PageNo(stack) in old(mem.pool.free)
    ensures Kept(stack) !! Kept(root) + Second(root) && Kept(stack) <= old(mem.pool.free)
    ensures mem.pool.free == old(mem.pool.free) - Kept(stack) - Kept(root) - Second(root)
    ensures Kept(root) + Second(root) <= old(mem.pool.free)
    ensures if root == NULL then mem.tables == old(mem.tables) else
      root !in old(mem.tables) && mem.tables == old(mem.tables)[root := Zeros()] && PageNo(root) in old(mem.pool.free)
    ensures root != NULL ==> Represents(mem.tables, pt) && pt == PageTable(root, map[Root := root], map[])
  {
    hide StockOf, Enough, Spent, Represents;
    EnoughTwice(StockOf(mem.pool.free), 1, 0, 0, 1);
    stack := mem.AllocateKernelPage();
    root, pt := mem.CreateVoidPagetable();
  }

  /** The page is neither free nor in use by tables or data. */
  ghost predicate KernelPage(mem: Memory, page: nat)
    reads mem, mem.pool
  {
    && IsFrame(page) && mem.pool.kernelEnd <= PageNo(page) && PageNo(page) !in mem.pool.free
    && forall a :: a in mem.tables || a in mem.pages ==> PageNo(a) != PageNo(page)
  }

  method GiveBackParts(mem: Memory, stack: nat, root: nat, ghost t: Tables)
    requires mem.Valid() && mem.tables == t
    requires stack != NULL ==> KernelPage(mem, stack)
    requires root != NULL ==> root in mem.tables
    modifies mem`tables, mem.pool, mem.pool.link
    ensures mem.Valid() && mem.tables == if root == NULL then t else t - {root}
    ensures mem.pool.free == old(mem.pool.free) + Kept(stack) + Kept(root)
  {
    if stack != NULL {
      mem.ReleaseKernelPage(stack);
    }
    if root != NULL {
      mem.ReleaseTable(root);
    }
  }

  /** Cleared pages for the trap frame and the shared memory. */
  method TwoPages(mem: Memory) returns (status: Status, p: nat, q: nat)
    requires mem.Valid()
    modifies mem`pages, mem.pool, mem.pool.link
    ensures mem.Valid() && (status.Ok? || status.NoMemory?)
    ensures mem.pool.free == old(mem.pool.free) - Kept(p) - Kept(q) && Kept(p) + Kept(q) <= old(mem.pool.free)
    ensures status.Ok? <==> Enough(StockOf(old(mem.pool.free)), 2, 0)
    ensures status.Ok? ==> StockOf(mem.pool.free) == Spent(StockOf(old(mem.pool.free)), 2, 0)
    ensures forall a :: a in mem.pages ==> a in old(mem.pages) || PageNo(a) in old(mem.pool.free)
    ensures forall a :: a in old(mem.pages) ==> a in mem.pages && mem.pages[a] == old(mem.pages[a])
    ensures status.Ok? ==> PageNo(p) in old(mem.pool.free) && PageNo(q) in old(mem.pool.free)
    ensures status.Ok? ==>
      RoundDown(p) == p && RoundDown(q) == q && p != q && p !in old(mem.pages) && q !in old(mem.pages)
    ensures status.Ok? ==> mem.pages == old(mem.pages)[p := ZeroPage()][q := ZeroPage()]
  {
    hide StockOf, Enough, Spent;
    EnoughTwice(StockOf(mem.pool.free), 1, 0, 1, 0);
    p := mem.AllocateForUser();
    q := mem.AllocateForUser();
    status := if p == NULL || q == NULL then NoMemory else Ok;
  }

  /** All tables of the page table stand on pages that were free; the tables that were there are as before. */
  ghost predicate NewTree(tables: Tables, free: set<int>, tables': Tables, free': set<int>, pt: PageTable) {
    && free' <= free
    && (forall p :: p in pt.shape ==> PageNo(pt.shape[p]) in free)
    && (forall f :: f in tables ==> f in tables' && tables'[f] == tables[f])
  }

  lemma BornLocal(a: View, b: View, trapFrame: nat, trampoline: nat, sharedMemory: nat)
    requires a == Unborn(a) && NewTree(a.tables, a.free, b.tables, b.free, b.pt)
    requires
      && b.pt.trans == FixedPages(trapFrame, trampoline, sharedMemory)
      && PageNo(trapFrame) in a.free
      && PageNo(sharedMemory) in a.free
    requires
      && trapFrame !in a.pages
      && sharedMemory !in a.pages
      && b.pages == a.pages[trapFrame := ZeroPage()][sharedMemory := ZeroPage()]
    ensures Local(a, b)
  {}

  lemma FreshTree(t0: Tables, f0: set<int>, t1: Tables, f1: set<int>, p1: PageTable, t2: Tables, f2: set<int>,
                  p2: PageTable)
    requires NewTree(t0, f0, t1, f1, p1) && Grew(t1, f1, p1, t2, f2, p2)
    requires forall f :: f in t0 ==> PageNo(f) !in f0
    ensures NewTree(t0, f0, t2, f2, p2)
  {}

  // ----- The argument pages of exec -----

  const ARGUMENT_FLAGS: nat := WithValid(PTE_R + PTE_W + PTE_U)

  lemma PairMapped(a: View, f1: set<int>, c: View, v: nat, page: nat, text: seq<nat>, table: seq<nat>, flags: nat)
    requires TablesTaken(a) && f1 <= a.free && Grew(a.tables, f1, a.pt, c.tables, c.free, c.pt)
    requires page !in a.pages && page + PGSIZE !in a.pages && PageNo(page) in a.free && PageNo(page + PGSIZE) in a.free
    requires c.pages == a.pages[page := text][page + PGSIZE := table]
    requires c.pt.trans == a.pt.trans[v := Entry(page, flags)][v + 1 := Entry(page + PGSIZE, flags)]
    ensures Mapped(a, c, v, [page, page + PGSIZE], [text, table], Uniform(flags))
  {
    GrewBounds(a.tables, f1, a.pt, c.tables, c.free, c.pt, a.free, c.free);
    MappedNothing(a, v, Uniform(flags));
    NewPagesNext(a.pages, a.free, a.pages, [], [], page, text);
    NewPagesNext(a.pages, a.free, a.pages[page := text], [page], [text], page + PGSIZE, table);
    assert [page, page + PGSIZE][..1] == [page] && [page][..0] == [];
  }

  /** Two pages of arguments, mapped at virtual page `v` and the next. */
  method MapArguments(mem: Memory, root: nat, va: nat, text: seq<nat>, table: seq<nat>, ghost pt: PageTable,
                      ghost sections: seq<Section>, ghost live: Section, ghost v: nat)
      returns (status: Status, had: bool, ghost pt': PageTable)
    requires Holds(mem, pt) && root == pt.root && Agrees(ViewOf(mem, pt), sections, live) && va == v * PGSIZE
    requires |text| == PGSIZE && |table| == PGSIZE
    modifies mem, mem.pool, mem.pool.link
    ensures mem.Valid() && !status.NotMapped? && mem.Elsewhere() == old(mem.Elsewhere())
    ensures !status.Panic? ==> Holds(mem, pt') && pt'.root == root
    ensures status.Ok? ==> Paid(old(ViewOf(mem, pt)), ViewOf(mem, pt'), 0, 1, Stretch(v, 2))
    ensures status.Ok? ==> v + 1 < VPNS && v !in pt.trans && v + 1 !in pt.trans
    ensures status.NoMemory? ==> !CanPay(old(ViewOf(mem, pt)), 0, 1, Stretch(v, 2))
    ensures status.NoMemory? && !had ==> pt' == pt && ViewOf(mem, pt) == old(ViewOf(mem, pt))
    ensures had <==> Enough(StockOf(old(mem.pool.free)), 0, 1)
    ensures !status.NoMemory? ==> had
    ensures status.Ok? ==> CanPay(old(ViewOf(mem, pt)), 0, 1, Stretch(v, 2))
    ensures status.NoMemory? && had ==> v !in pt.trans && if v in pt'.trans then Hole(pt', v + 1) else Hole(pt', v)
    ensures status.NoMemory? && had ==>
      && (v in pt'.trans <==> CanPay(old(ViewOf(mem, pt)), 0, 1, Stretch(v, 1)))
      && (v !in pt'.trans ==> SameLeaves(pt, pt'))
    ensures status.NoMemory? && had ==> Extended(old(ViewOf(mem, pt)), ViewOf(mem, pt'))
    ensures status.NoMemory? && had && v + 1 !in pt.trans ==> v + 1 !in pt'.trans
    ensures status.NoMemory? && had && v + 1 !in pt.trans ==>
      Names(ViewOf(mem, pt'), sections + [Section(va, 2 * PGSIZE)], live)
    ensures status.Ok? ==> Agrees(ViewOf(mem, pt'), sections + [Section(va, 2 * PGSIZE)], live)
    ensures status.Ok? ==> PageIs(ViewOf(mem, pt'), v, text, ARGUMENT_FLAGS)
    ensures status.Ok? ==> PageIs(ViewOf(mem, pt'), v + 1, table, ARGUMENT_FLAGS)
    ensures status.Ok? ==> Extended(old(ViewOf(mem, pt)), ViewOf(mem, pt'))
    ensures status.Panic? ==> v + 1 >= VPNS || v in pt.trans || v + 1 in pt.trans
    ensures status.Ok? ==> Strays(ViewOf(mem, pt')) == old(Strays(ViewOf(mem, pt)))
    ensures status.NoMemory? && had ==>
      MoreStrays(old(ViewOf(mem, pt)), ViewOf(mem, pt'), if v in pt'.trans then 1 else 2)
  {
    hide Paid, CanPay, Stretch, Represents, Mapped, Agrees, Grew, Extended, Names, Hole, Enough, Spent, StockOf;
    hide SameLeaves, Strays, MoreStrays;
    pt' := pt;
    ghost var a := ViewOf(mem, pt);
    var page := TakePair(mem, text, table);
    had := page != NULL;
    ghost var b := ViewOf(mem, pt);
    PairPaid(a, b, Stretch(v, 2));
    PairPaid(a, b, Stretch(v, 1));
    if page == NULL {
      return NoMemory, had, pt';
    }
    TwoInARow(v, page);
    GrewNothing(b.tables, b.free, b.pt);
    status, pt' := MapPair(mem, root, va, page, pt, b, v);
    if status.Ok? {
      PaidTwice(a, b, ViewOf(mem, pt'), 0, 1, {}, 0, 0, Stretch(v, 2));
      PaidIsCan(a, ViewOf(mem, pt'), 0, 1, Stretch(v, 2));
      PairMapped(a, b.free, ViewOf(mem, pt'), v, page, text, table, WithValid(PTE_R + PTE_W + PTE_U));
      ArgumentsAdded(a, ViewOf(mem, pt'), sections, live, v, page, text, table, WithValid(PTE_R + PTE_W + PTE_U));
    } else if status.NoMemory? {
      ArgumentsNamed(a, ViewOf(mem, pt'), sections, live, v, page, text, table, b.free);
      NewPageIsNobodys(a, ViewOf(mem, pt'), sections, live, v, page, text, table);
    }
  }

  /** A pair of pages first, then tables. */
  lemma PairPaid(a: View, b: View, s: set<nat>)
    requires b.pt == a.pt
    ensures !Enough(StockOf(a.free), 0, 1) ==> !CanPay(a, 0, 1, s)
    ensures Enough(StockOf(a.free), 0, 1) && StockOf(b.free) == Spent(StockOf(a.free), 0, 1) ==>
      Paid(a, b, 0, 1, {}) && (CanPay(a, 0, 1, s) <==> CanPay(b, 0, 0, s))
    ensures {} + s == s
  {
    hide StockOf, Enough, Spent, Affords, After;
    NoTables(MeansOf(a), 0, 1);
    AffordsTwice(MeansOf(a), 0, 1, {}, 0, 0, s);
    assert {} + s == s;
  }

  /** The argument section is registered, but at most its first page is mapped. */
  lemma ArgumentsNamed(a: View, c: View, sections: seq<Section>, live: Section, v: nat, page: nat, text: seq<nat>,
                       table: seq<nat>, f1: set<int>)
    requires TablesTaken(a) && f1 <= a.free && Grew(a.tables, f1, a.pt, c.tables, c.free, c.pt)
    requires page !in a.pages && page + PGSIZE !in a.pages && PageNo(page) in a.free
    requires c.pages == a.pages[page := text][page + PGSIZE := table] && v !in a.pt.trans
    requires c.pt.trans == a.pt.trans || c.pt.trans == a.pt.trans[v := Entry(page, ARGUMENT_FLAGS)]
    requires Agrees(a, sections, live)
    ensures Extended(a, c)
    ensures v + 1 !in a.pt.trans ==> Names(c, sections + [Section(v * PGSIZE, 2 * PGSIZE)], live)
  {
    GrewBounds(a.tables, f1, a.pt, c.tables, c.free, c.pt, a.free, c.free);
    forall w | w in Private(c)
      ensures UserPage(c, w) && (w != v || c.pt.trans == a.pt.trans ==> w in Private(a) && c.pt.trans[w].pa in a.pages)
    {
      assert w in Private(a) ==> UserPage(a, w);
    }
    assert OwnPages(c, Private(c));
    ArgumentsLocal(a, c, v, page);
    if v + 1 !in a.pt.trans {
      ArgumentsApart(a, c, sections, live, v);
    }
  }

  lemma ArgumentsLocal(a: View, c: View, v: nat, page: nat)
    requires TablesTaken(a) && Grew(a.tables, a.free, a.pt, c.tables, c.free, c.pt)
    requires
      && PageNo(page) in a.free
      && v !in a.pt.trans
      && (forall p :: p in a.pages ==> p in c.pages && c.pages[p] == a.pages[p])
    requires c.pt.trans == a.pt.trans || c.pt.trans == a.pt.trans[v := Entry(page, ARGUMENT_FLAGS)]
    ensures Extended(a, c)
  {
    hide WithValid;
    forall n | n in Claims(c)
      ensures n in Claims(a) + a.free
    {
      if p :| p in c.pt.shape && PageNo(c.pt.shape[p]) == n {
        assert p in a.pt.shape || n in a.free;
      } else {
        var w :| w in Private(c) && w in c.pt.trans && PageNo(c.pt.trans[w].pa) == n;
        assert w in a.pt.trans ==> w in Private(a) && a.pt.trans[w] == c.pt.trans[w];
      }
    }
    ForeignTables(a, c);
  }

  lemma ArgumentsApart(a: View, c: View, sections: seq<Section>, live: Section, v: nat)
    requires Agrees(a, sections, live) && OwnPages(c, Private(c)) && v !in a.pt.trans && v + 1 !in a.pt.trans
    requires a.pt.trans.Keys <= c.pt.trans.Keys <= a.pt.trans.Keys + {v}
    ensures Names(c, sections + [Section(v * PGSIZE, 2 * PGSIZE)], live)
  {
    var s := Section(v * PGSIZE, 2 * PGSIZE);
    assert s.start / PGSIZE == v && s.size / PGSIZE == 2 && PagesOf(s) == {v, v + 1};
    ApartAppend(sections, s);
    AllPagesAppend(sections, s);
    var r := AllPages(sections + [s]) + PagesOf(live);
    assert r * c.pt.trans.Keys <= Private(c);
  }

  method MapPair(mem: Memory, root: nat, va: nat, page: nat, ghost pt: PageTable, ghost b: View, ghost v: nat)
      returns (status: Status, ghost pt': PageTable)
    requires Holds(mem, pt) && root == pt.root && AtPage(va, v) && AtPage(va + PGSIZE, v + 1)
    requires RoundDown(page) == page && RoundDown(page + PGSIZE) == page + PGSIZE
    requires TablesTaken(b) && Grew(b.tables, b.free, b.pt, mem.tables, mem.pool.free, pt)
    modifies mem`tables, mem.pool, mem.pool.link
    ensures mem.Valid() && !status.NotMapped? && mem.Elsewhere() == old(mem.Elsewhere())
    ensures status.Ok? ==> v + 1 < VPNS && v !in pt.trans && v + 1 !in pt.trans
    ensures status.Panic? ==> v + 1 >= VPNS || v in pt.trans || v + 1 in pt.trans
    ensures !status.Panic? ==>
      Holds(mem, pt') && pt'.root == root && Grew(b.tables, b.free, b.pt, mem.tables, mem.pool.free, pt')
    ensures status.Ok? ==> Paid(old(ViewOf(mem, pt)), ViewOf(mem, pt'), 0, 0, Stretch(v, 2))
    ensures status.NoMemory? ==> !CanPay(old(ViewOf(mem, pt)), 0, 0, Stretch(v, 2))
    ensures status.NoMemory? ==> v !in pt.trans && if v in pt'.trans then Hole(pt', v + 1) else Hole(pt', v)
    ensures status.NoMemory? ==>
      && (v in pt'.trans <==> CanPay(old(ViewOf(mem, pt)), 0, 0, Stretch(v, 1)))
      && (v !in pt'.trans ==> SameLeaves(pt, pt'))
    ensures status.NoMemory? ==>
      pt'.trans == pt.trans || pt'.trans == pt.trans[v := Entry(page, WithValid(PTE_R + PTE_W + PTE_U))]
    ensures status.Ok? ==> pt'.trans == pt.trans[v := Entry(page, WithValid(PTE_R + PTE_W + PTE_U))]
                                        [v + 1 := Entry(page + PGSIZE, WithValid(PTE_R + PTE_W + PTE_U))]
  {
    hide Paid, CanPay, Represents, WithValid, Stretch, Hole, Grew, Widened, SameLeaves;
    ghost var o := ViewOf(mem, pt);
    TwoPagesSplit(v);
    status, pt' := MapOne(mem, root, va, page, PTE_R + PTE_W + PTE_U, pt, b, v, page);
    if status.Ok? {
      ghost var c := ViewOf(mem, pt');
      status, pt' := MapOne(mem, root, va + PGSIZE, page + PGSIZE, PTE_R + PTE_W + PTE_U, pt', b, v + 1, page + PGSIZE);
      PayTwice(o, c, 0, 0, Stretch(v, 1), 0, 0, Stretch(v + 1, 1));
      if status.Ok? {
        PaidTwice(o, c, ViewOf(mem, pt'), 0, 0, Stretch(v, 1), 0, 0, Stretch(v + 1, 1));
      }
    } else if CanPay(o, 0, 0, Stretch(v, 2)) {
      PayLess(o, 0, 0, Stretch(v, 1), 0, 0, Stretch(v + 1, 1));
    }
  }

  lemma TwoPagesSplit(v: nat)
    ensures Stretch(v, 1) + Stretch(v + 1, 1) == Stretch(v, 2)
  {}

  lemma TwoInARow(v: nat, page: nat)
    requires page % PGSIZE == 0
    ensures
      && AtPage(v * PGSIZE, v)
      && AtPage(v * PGSIZE + PGSIZE, v + 1)
      && RoundDown(page) == page
      && RoundDown(page + PGSIZE) == page + PGSIZE
  {}

  /** `allocate_for_user(1)`, filled with the argument text and the pointers to it. */
  method TakePair(mem: Memory, text: seq<nat>, table: seq<nat>) returns (page: nat)
    requires mem.Valid() && |text| == PGSIZE && |table| == PGSIZE
    modifies mem`pages, mem.pool, mem.pool.link
    ensures mem.Valid() && mem.pool.free <= old(mem.pool.free) && mem.Elsewhere() == old(mem.Elsewhere())
    ensures page == NULL ==> mem.pages == old(mem.pages) && mem.pool.free == old(mem.pool.free)
    ensures page == NULL <==> !Enough(StockOf(old(mem.pool.free)), 0, 1)
    ensures page != NULL ==> StockOf(mem.pool.free) == Spent(StockOf(old(mem.pool.free)), 0, 1)
    ensures page != NULL ==> mem.pages == old(mem.pages)[page := text][page + PGSIZE := table]
    ensures page != NULL ==> page !in old(mem.pages) && page + PGSIZE !in old(mem.pages) && page % PGSIZE == 0
    ensures page != NULL ==> PageNo(page) in old(mem.pool.free) && PageNo(page + PGSIZE) in old(mem.pool.free)
  {
    hide StockOf, Enough, Spent;
    page := mem.AllocatePair();
    if page != NULL {
      ghost var keys := mem.pages.Keys;
      mem.pages := mem.pages[page := text][page + PGSIZE := table];
      assert mem.pages.Keys == keys;
    }
  }

  lemma ArgumentsAdded(a: View, b: View, sections: seq<Section>, live: Section, v: nat, page: nat, text: seq<nat>,
                       table: seq<nat>, flags: nat)
    requires Agrees(a, sections, live) && flags != PTE_V && v !in a.pt.trans && v + 1 !in a.pt.trans
    requires Mapped(a, b, v, [page, page + PGSIZE], [text, table], Uniform(flags))
    ensures Agrees(b, sections + [Section(v * PGSIZE, 2 * PGSIZE)], live) && Extended(a, b)
    ensures PageIs(b, v, text, flags) && PageIs(b, v + 1, table, flags) && Strays(b) == Strays(a)
  {
    hide Strays;
    var frames, contents, s := [page, page + PGSIZE], [text, table], Section(v * PGSIZE, 2 * PGSIZE);
    assert s.start / PGSIZE == v && s.size / PGSIZE == 2 && Stretch(v, 2) == {v, v + 1};
    AddSection(a, b, sections, live, s, frames, contents, Uniform(flags));
    MappedPage(a, b, v, frames, contents, Uniform(flags), v);
    MappedPage(a, b, v, frames, contents, Uniform(flags), v + 1);
    ExtendedMapped(a, b, v, frames, contents, Uniform(flags));
    StraysMapped(a, b, v, frames, contents, Uniform(flags));
  }

  /** Of the two argument pages, those that are not mapped are nobody's. */
  lemma ArgumentsLost(a: View, c: View, v: nat, page: nat, text: seq<nat>, table: seq<nat>, flags: nat)
    requires OwnPages(a, Private(a)) && TRAMPOLINE_PAGE in a.pt.trans && v !in a.pt.trans
    requires page !in a.pages && page + PGSIZE !in a.pages && c.pages == a.pages[page := text][page + PGSIZE := table]
    requires c.pt.trans == a.pt.trans || c.pt.trans == a.pt.trans[v := Entry(page, flags)]
    ensures MoreStrays(a, c, if v in c.pt.trans then 1 else 2)
  {
    hide FrameSet, OwnPages, MoreStrays;
    OwnFrames(a);
    FramesWith(a.pt, c.pt, v, Entry(page, flags));
    KeysWithTwo(a.pages, c.pages, page, page + PGSIZE, text, table);
    Unmapped(a.pages.Keys, FrameSet(a.pt.trans, Private(a)), page, page + PGSIZE);
    SoManyMore(a, c, if v in c.pt.trans then {page + PGSIZE} else {page, page + PGSIZE});
  }

  lemma SoManyMore(a: View, c: View, s: set<nat>)
    requires Strays(c) == Strays(a) + s && s !! Strays(a)
    ensures MoreStrays(a, c, |s|)
  {
    hide Strays;
    assert Strays(c) - Strays(a) == s;
  }

  lemma KeysWithTwo(pages: Pages, pages': Pages, p: nat, q: nat, text: seq<nat>, table: seq<nat>)
    requires pages' == pages[p := text][q := table]
    ensures pages'.Keys == pages.Keys + {p} + {q}
  {}

  lemma OwnFrames(m: View)
    requires OwnPages(m, Private(m))
    ensures FrameSet(m.pt.trans, Private(m)) <= m.pages.Keys
  {
    forall w | w in Private(m)
      ensures m.pt.trans[w].pa in m.pages
    {
      assert UserPage(m, w);
    }
  }

  lemma NewPageIsNobodys(a: View, c: View, sections: seq<Section>, live: Section, v: nat, page: nat, text: seq<nat>,
                         table: seq<nat>)
    requires Agrees(a, sections, live) && v !in a.pt.trans
    requires page !in a.pages && page + PGSIZE !in a.pages && c.pages == a.pages[page := text][page + PGSIZE := table]
    requires c.pt.trans == a.pt.trans || c.pt.trans == a.pt.trans[v := Entry(page, ARGUMENT_FLAGS)]
    ensures MoreStrays(a, c, if v in c.pt.trans then 1 else 2)
  {
    hide MoreStrays, OwnPages;
    ArgumentsLost(a, c, v, page, text, table, ARGUMENT_FLAGS);
  }

  lemma FramesWith(pt: PageTable, pt': PageTable, v: nat, e: Entry)
    requires v !in pt.trans && v != TRAMPOLINE_PAGE && (pt'.trans == pt.trans || pt'.trans == pt.trans[v := e])
    ensures FrameSet(pt'.trans, pt'.trans.Keys - {TRAMPOLINE_PAGE})
      == if v in pt'.trans then FrameSet(pt.trans, pt.trans.Keys - {TRAMPOLINE_PAGE}) + {e.pa}
         else FrameSet(pt.trans, pt.trans.Keys - {TRAMPOLINE_PAGE})
  {
    if v in pt'.trans {
      assert pt'.trans.Keys - {TRAMPOLINE_PAGE} == (pt.trans.Keys - {TRAMPOLINE_PAGE}) + {v};
    }
  }

  lemma Unmapped(pages: set<nat>, frames: set<nat>, p: nat, q: nat)
    requires frames <= pages && p !in pages && q !in pages && p != q
    ensures (pages + {p} + {q}) - frames == (pages - frames) + {p, q}
    ensures (pages + {p} + {q}) - (frames + {p}) == (pages - frames) + {q}
  {}

  // ----- Teardown -----

  /** The stack field names pages below the shared page that are not mapped, but for those of the sections. */
  ghost predicate Stale(m: View, sections: seq<Section>, stack: Section) {
    && PageAligned(stack) && stack.size > 0 && stack.start + stack.size == SHARED_MEMORY
    && PagesOf(stack) * m.pt.trans.Keys <= AllPages(sections)
    && SHARED_PAGE in m.pt.trans && SHARED_PAGE !in AllPages(sections)
  }

  /** Its last page shares a leaf table with the shared page, so `unmap_page` finds an entry that is not valid. */
  lemma StaleIsStuck(m: View, stack: Section)
    requires Represents(m.tables, m.pt) && Stale(m, [], stack)
    ensures
      && Owned(m, stack.start / PGSIZE, PagesIn(stack.size))
      && StuckIn(m.pt, stack.start / PGSIZE, PagesIn(stack.size))
  {
    var w: nat := SHARED_PAGE - 1;
    LastStackPage(stack, w);
    assert At(m.tables, m.pt, SHARED_PAGE) == Look(m.pt.trans, SHARED_PAGE);
    SameLeaf(w);
    forall x | x in PagesOf(stack)
      ensures x !in m.pt.trans
    {
      assert x in m.pt.trans ==> x in PagesOf(stack) * m.pt.trans.Keys;
    }
    assert Stuck(m.pt, w);
  }

  lemma SameLeaf(w: nat)
    requires w == SHARED_PAGE - 1
    ensures LeafPath(w * PGSIZE) == LeafPath(SHARED_PAGE * PGSIZE)
  {
    assert w * PGSIZE == 0x3F_FFFF_C000 && SHARED_PAGE * PGSIZE == 0x3F_FFFF_D000;
  }

  lemma LastStackPage(stack: Section, w: nat)
    requires PageAligned(stack) && stack.size > 0 && stack.start + stack.size == SHARED_MEMORY && w == SHARED_PAGE - 1
    ensures w in PagesOf(stack) && PagesIn(stack.size) == stack.size / PGSIZE
  {}

  /** `clear_user_memory_space`: hands back every page of the sections, then of the stack. It panics exactly
      when the stack that the task names is not there, or when `unmap_page` does. */
  method ClearSpace(mem: Memory, root: nat, sections: seq<Section>, stack: Section, ghost pt: PageTable,
                    ghost live: Section)
      returns (status: Status, ghost pt': PageTable)
    requires Holds(mem, pt) && root == pt.root && Owns(ViewOf(mem, pt), sections, live)
    requires live == stack || (live == Section(0, 0) && Stale(ViewOf(mem, pt), sections, stack))
    modifies mem, mem.pool, mem.pool.link
    ensures status.Ok? || status.Panic?
    ensures status.Panic? <==> live != stack || !NoneStuck(pt, AllPages(sections) + PagesOf(stack))
    ensures status.Ok? ==> Holds(mem, pt') && pt'.root == root && mem.Elsewhere() == old(mem.Elsewhere())
    ensures status.Ok? ==> FreedAll(old(ViewOf(mem, pt)), ViewOf(mem, pt'), AllPages(sections) + PagesOf(stack))
  {
    ghost var b := ViewOf(mem, pt);
    status, pt' := ClearSections(mem, root, sections, pt, live);
    if status.Panic? {
      return;
    }
    if live != stack {
      StillStale(b, ViewOf(mem, pt'), sections, stack);
      StaleIsStuck(ViewOf(mem, pt'), stack);
    } else {
      StackAsSection(ViewOf(mem, pt'), stack);
      SectionOwned(ViewOf(mem, pt'), [stack], Section(0, 0));
      StillStuck(b, ViewOf(mem, pt'), PagesOf(stack), AllPages(sections));
    }
    ghost var c := ViewOf(mem, pt');
    status, pt' := FreeMemory(mem, root, stack.start, stack.size, pt');
    if status.Ok? {
      FreedRange(c, ViewOf(mem, pt'), stack.start / PGSIZE, stack.size / PGSIZE);
      FreedBoth(b, c, ViewOf(mem, pt'), AllPages(sections), PagesOf(stack));
    }
  }

  lemma StillStale(b: View, c: View, sections: seq<Section>, stack: Section)
    requires FreedAll(b, c, AllPages(sections)) && Stale(b, sections, stack)
    ensures Stale(c, [], stack)
  {}

  /** The loop over the sections. */
  method ClearSections(mem: Memory, root: nat, sections: seq<Section>, ghost pt: PageTable, ghost stack: Section)
      returns (status: Status, ghost pt': PageTable)
    requires Holds(mem, pt) && root == pt.root && Owns(ViewOf(mem, pt), sections, stack)
    modifies mem, mem.pool, mem.pool.link
    ensures status.Ok? || status.Panic?
    ensures status.Panic? <==> !NoneStuck(pt, AllPages(sections))
    ensures status.Ok? ==> Holds(mem, pt') && pt'.root == root && mem.Elsewhere() == old(mem.Elsewhere())
    ensures status.Ok? ==>
      FreedAll(old(ViewOf(mem, pt)), ViewOf(mem, pt'), AllPages(sections)) && Owns(ViewOf(mem, pt'), [], stack)
  {
    hide Owns, FreedAll, Represents, Stuck;
    ghost var b, freed: set<nat> := ViewOf(mem, pt), {};
    status, pt' := Ok, pt;
    FreedNone(b);
    FirstSplit(b, sections, stack);
    var i: nat := 0;
    assert sections[0..] == sections;
    while i < |sections|
      invariant i <= |sections| && status.Ok? && NoneStuck(b.pt, freed)
      invariant Holds(mem, pt') && pt'.root == root && mem.Elsewhere() == old(mem.Elsewhere())
      invariant FreedAll(b, ViewOf(mem, pt'), freed) && Owns(ViewOf(mem, pt'), sections[i..], stack)
      invariant Split(sections, i, freed)
    {
      NextSection(sections, i, freed);
      StillStuck(b, ViewOf(mem, pt'), PagesOf(sections[i]), freed);
      status, pt' := ClearSection(mem, root, sections[i], pt', b, freed, sections[i..], stack);
      if status.Panic? {
        return;
      }
      freed := freed + PagesOf(sections[i]);
      i := i + 1;
    }
    assert sections[i..] == [];
  }

  /** The pages freed so far, and those of the sections to come. */
  ghost predicate Split(sections: seq<Section>, i: nat, freed: set<nat>)
    requires i <= |sections|
  {
    Apart(sections[i..]) && freed !! AllPages(sections[i..]) && freed + AllPages(sections[i..]) == AllPages(sections)
  }

  lemma FirstSplit(m: View, sections: seq<Section>, stack: Section)
    requires Owns(m, sections, stack)
    ensures Split(sections, 0, {})
  {
    assert sections[0..] == sections;
  }

  lemma NextSection(sections: seq<Section>, i: nat, freed: set<nat>)
    requires i < |sections| && Split(sections, i, freed)
    ensures sections[i..] != [] && sections[i..][0] == sections[i] && sections[i..][1..] == sections[i + 1..]
    ensures Split(sections, i + 1, freed + PagesOf(sections[i]))
    ensures PagesOf(sections[i]) !! freed && PagesOf(sections[i]) <= AllPages(sections)
  {}

  lemma StackAsSection(m: View, stack: Section)
    requires Owns(m, [], stack)
    ensures Owns(m, [stack], Section(0, 0)) && AllPages([stack]) == PagesOf(stack)
  {}

  method ClearSection(mem: Memory, root: nat, s: Section, ghost pt: PageTable, ghost b: View, ghost freed: set<nat>,
                      ghost rest: seq<Section>, ghost stack: Section)
      returns (status: Status, ghost pt': PageTable)
    requires Holds(mem, pt) && root == pt.root
    requires FreedAll(b, ViewOf(mem, pt), freed) && Owns(ViewOf(mem, pt), rest, stack)
    requires rest != [] && s == rest[0] && freed !! AllPages(rest)
    modifies mem, mem.pool, mem.pool.link
    ensures status.Ok? || status.Panic?
    ensures status.Panic? <==> !NoneStuck(pt, PagesOf(s))
    ensures status.Ok? ==> Holds(mem, pt') && pt'.root == root && mem.Elsewhere() == old(mem.Elsewhere())
    ensures status.Ok? ==>
      FreedAll(b, ViewOf(mem, pt'), freed + PagesOf(s)) && Owns(ViewOf(mem, pt'), rest[1..], stack)
  {
    ghost var c := ViewOf(mem, pt);
    SectionOwned(c, rest, stack);
    status, pt' := FreeMemory(mem, root, s.start, s.size, pt);
    if status.Ok? {
      ghost var d := ViewOf(mem, pt');
      FreedRange(c, d, s.start / PGSIZE, s.size / PGSIZE);
      FreedBoth(b, c, d, freed, PagesOf(s));
      DropSection(c, d, rest, stack);
    }
  }

  lemma SectionOwned(m: View, sections: seq<Section>, stack: Section)
    requires Owns(m, sections, stack) && sections != []
    requires Represents(m.tables, m.pt)
    ensures PagesIn(sections[0].size) == sections[0].size / PGSIZE
    ensures Owned(m, sections[0].start / PGSIZE, PagesIn(sections[0].size))
    ensures StuckIn(m.pt, sections[0].start / PGSIZE, PagesIn(sections[0].size)) <==>
      !NoneStuck(m.pt, PagesOf(sections[0]))
  {
    hide Stuck;
    var s := AllPages(sections) + PagesOf(stack);
    forall w | w in PagesOf(sections[0])
      ensures w in s && (w in m.pt.trans ==> UserPage(m, w))
    {
      assert w in m.pt.trans ==> w in s * m.pt.trans.Keys;
    }
  }

  lemma AgreesUndone(a: View, b: View, sections: seq<Section>, live: Section)
    requires Agrees(a, sections, live) && Undone(a, b)
    ensures Agrees(b, sections, live) && Extended(a, b) && Strays(b) == Strays(a)
  {
    assert forall w :: w in Private(a) ==> (UserPage(a, w) <==> UserPage(b, w));
    LocalWidened(a, b);
  }

  /** What `new_task` maps. */
  function FixedPages(trapFrame: nat, trampoline: nat, sharedMemory: nat): Translation {
    map[TRAPFRAME_PAGE := Entry(trapFrame, WithValid(PTE_R + PTE_W)),
        TRAMPOLINE_PAGE := Entry(trampoline, WithValid(PTE_R + PTE_X)),
        SHARED_PAGE := Entry(sharedMemory, WithValid(PTE_R + PTE_W + PTE_U))]
  }

  /** `map_section_for_user` succeeded for the segment. */
  ghost predicate SegmentMapped(a: View, b: View, file: seq<nat>, ph: ProgramHeader, frames: seq<nat>)
    requires InFile(file, ph)
  {
    && |frames| == SectionPages(ph.vaddr, ph.memsz)
    && Loaded(a, b, ph.vaddr / PGSIZE, frames,
              SectionBytes(file[ph.offset..], ph.vaddr, ph.filesz, SectionPages(ph.vaddr, ph.memsz)),
              Uniform(WithValid(Permission(ph))))
  }

  lemma SegmentRegistered(a: View, b: View, file: seq<nat>, ph: ProgramHeader, frames: seq<nat>, sections: seq<Section>,
                          live: Section)
    requires InFile(file, ph) && SegmentMapped(a, b, file, ph, frames) && Agrees(a, sections, live)
    ensures Agrees(b, sections + [SectionOf(ph)], live)
  {
    SectionOfPages(ph);
    AddSection(a, b, sections, live, SectionOf(ph), frames,
               SectionBytes(file[ph.offset..], ph.vaddr, ph.filesz,
                            |frames|)[..|frames|], Uniform(WithValid(Permission(ph))));
  }

  /** The pages of the segment hold the file's bytes. */
  lemma SegmentPages(a: View, b: View, file: seq<nat>, ph: ProgramHeader, frames: seq<nat>)
    requires InFile(file, ph) && SegmentMapped(a, b, file, ph, frames)
    ensures Filled(b, file, ph)
  {
    SectionOfPages(ph);
    forall w | w in PagesOf(SectionOf(ph))
      ensures PageIs(b, w, PageBytes(file[ph.offset..], ph.vaddr, ph.filesz, w * PGSIZE), WithValid(Permission(ph)))
    {
      SectionPage(a, b, frames, file[ph.offset..], ph.vaddr, ph.filesz, Uniform(WithValid(Permission(ph))), w);
    }
  }

  lemma SegmentLoaded(a: View, b: View, file: seq<nat>, ph: ProgramHeader, frames: seq<nat>, sections: seq<Section>,
                      live: Section)
    requires InFile(file, ph) && SegmentMapped(a, b, file, ph, frames) && Agrees(a, sections, live)
    ensures Agrees(b, sections + [SectionOf(ph)], live) && Filled(b, file, ph) && Extended(a, b)
    ensures Strays(b) == Strays(a)
  {
    hide Strays;
    SegmentRegistered(a, b, file, ph, frames, sections, live);
    SegmentPages(a, b, file, ph, frames);
    StraysMapped(a, b, ph.vaddr / PGSIZE, frames,
                 SectionBytes(file[ph.offset..], ph.vaddr, ph.filesz, |frames|)[..|frames|],
                 Uniform(WithValid(Permission(ph))));
    ExtendedMapped(a, b, ph.vaddr / PGSIZE, frames,
                   SectionBytes(file[ph.offset..], ph.vaddr, ph.filesz, |frames|)[..|frames|],
                   Uniform(WithValid(Permission(ph))));
  }
}

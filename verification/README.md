# A model of the toy RISC-V kernel

The project models the parts of the kernel that are hard to get right and proves what they keep:

- **Buddy allocator** (`Bits`, `BuddyBlocks`, `BuddyThreads`, `BuddyPool`, `BuddyRuns`). `BuddyPool` is the
  allocator with its sixteen lists threaded through an array of links, rewritten in place. Its invariant says that
  list `k` holds exactly the maximal free blocks of order `k`, in address order. From it follow the canonical form
  (the lists depend on the set of free pages alone), when `allocate` fails, and that merging stops in time.
- **Sv39 page tables** (`Sv39`, `PageTables`, `Memory`). The macros are written with bitwise operators and given
  their arithmetic meaning. `Memory` walks and edits three-level tables in place, on pages of `BuddyPool`; the
  tables always represent a partial map from virtual page to frame and flags. Every operation also accounts for
  each page of the pool: free, in a table, in a data page, or elsewhere, and "elsewhere" never changes.
- **Address spaces** (`Ranges`, `AddressSpace`, `SectionContents`, `Ledger`, `TaskMemory`, `UserSpace`, `Fork`,
  `Teardown`, `TaskSteps`). Segment loading with its way back, load_elf, the stack, exec's argument pages, fork and
  teardown, all against one ledger: sections, stack and fixed pages partition the mapped pages, and each page but the
  trampoline has a frame of its own.
- **How far the memory goes** (`Supply`, `Shortage`, `SmallMachine`). The memory code asks for single pages and for
  pairs only, so two numbers, the aligned free pairs and the free pages with a neighbour in use, decide which requests
  are met; `Supply` proves that of the allocator. Every operation that allocates says when it succeeds, in these
  numbers and in the tables that its pages lack, and what is left: a condition on the state before the call.
- **The machine** (`Isolation`, `Machine`). `Isolation` says what a step of one task cannot touch. `Machine.Serve`
  starts from an empty pool, makes init and then serves any sequence of requests: fork, exec, stack faults, stores of
  user programs and exits. After each of them every task is in order, no two share a page but the trampoline, and every
  task but the acting one reads what it read before.
- **Processes** (`Tasks`, `TaskInvariants`, `TaskRuns`, `TaskGaps`, `LinkedList`, `Kernel`, `KernelStacks`). `Tasks` is
  the state machine; `Kernel` is the imperative code on the linked run queue, proved equal to it step by step.
  `KernelStacks` follows the stacks that `yield` gives back.
- **Command line to argv** (`CStrings`, `Shell`, `Words`, `ExecArgs`, `Exec`). strtok in place, the parse loop of the
  shell, the packer of `exec` and the unpacker of `exec_process`, joined into one round trip, which ends with what the
  new program reads behind its register a1 through its own page table.

## How the model is set up

- Kernel steps are atomic. Interrupt status, hardware and the console are not modelled.
- Physical pages are numbered from KERNEL_START. `BuddyRuns.TagOfAddress` shows that the bit operations of the source
  on addresses are the divisions of the model on page numbers.
- Physical memory that holds page tables and physical memory that holds data are two maps from page address to
  contents. Trap frame fields that matter to `wait` are fields of a task.
- Tasks are named by pid, since they are never freed; 0 stands for NULL. `kmalloc` always gives a fresh node.
- Addresses are unbounded integers. All arithmetic on addresses stays below MAXVA plus a page, except that
  `va + size` of a program header is taken not to exceed 2^64.
- `Status` says how a call ends: 0, -1 for want of memory, -1 because there is nothing to work on, or a kernel panic.
  In `Exec.GiveArguments` and in what uses it, `Panic` also stands for running beyond the argument page or the table.
- The fields of struct task_struct that describe memory are one value, `UserSpace.Space`, which the operations take
  and return, while the machine's memory is updated in place.

## Where the code does less than it says

Each is proved for all inputs, with the exact condition:

- `wait`, when all children are dead but there were some, does not answer -1 (`TaskGaps.WaitRefusesIff`). If another
  task can run, the caller sleeps: it is left with dead children only if and only if that is how it called
  (`TaskGaps.WaitBereftIff`), and it sleeps for ever (`TaskGaps.BereftForever`, run in `TaskGaps.WaitOnDeadChild`). If
  nobody else can run, which is always so for init (`TaskGaps.OnlyInitLeft`), the call returns at once, with the
  pointer it was given as its result.
- `wait_pid` refuses a child that is already a zombie (`TaskGaps.WaitPidReapsIff`, run in `TaskGaps.WaitPidOnZombie`).
- `wait_pid` leaves its caller asleep on a dead child if and only if it asks for a child that was reaped before while
  another task can run (`TaskGaps.WaitPidStrandedIff`), and then for ever (`TaskGaps.StrandedForever`, run in
  `TaskGaps.WaitPidOnDeadChild`). If nobody else can run, the call returns the pid that it asked for, of a child that
  was reaped before or that is still alive (`TaskGaps.WaitPidSleepsIff`).
- A zombie handed to a sleeping init does not wake it (`TaskGaps.InitMissesZombieIff`, run in
  `TaskGaps.InitMissesZombieRun`).
- `clear_user_memory_space` puts the kernel stack of its task down for removal, also when exec calls it. A stack is
  given back while its task lives, or a second time, if and only if a task yields after exec, and anybody yields after
  that (`KernelStacks.CleanIff`, run in `KernelStacks.ExecAndTwoYields`).
- `free_pagetable` gives back the root and the middle tables of a task, each by its first page of two; every leaf table
  stays taken for ever (`Teardown.FreePagetable`, `TaskSteps.ExitProcess`).
- `map_section_for_user` puts the first page of a segment at the wrong offset, and no other, unless the segment starts
  on a page (`SectionContents.StoresPageIff`, `SectionContents.StoresAllIff`).
- An empty first argument is lost between `exec` and `exec_process` (`ExecArgs.RoundTripIff`).
- `exec_process` does not always end a task whose new program cannot be had. It replaces the program if and only if
  `Exec.CanExec` holds, and ends the task if and only if `Exec.ExecExits` does, both of the state before the call;
  otherwise the kernel panics (`Exec.ExecProcess`). When `load_elf` or `set_stack` fails for want of memory, the
  stack, already freed, is freed a second time: that always panics (`TaskSteps.ExitProcess`,
  `TaskMemory.StaleIsStuck`). `SmallMachine.ExecOnSmallMachine` boots a machine on which it does.
- `fork` makes a whole child if and only if, before the call, there is a page for every page that the parent maps, and
  a pair for the root and for every table that these pages need (`TaskSteps.ForkProcess`, `Shortage.EnoughToFork`).
  With less, one of four things happens, and which one is decided by the free pages and the ledger too. `new_task`
  refuses, and the parent is as it was; or a page for a table of the fixed pages is missing in `new_task`, whose way
  back is not modelled. Or there is a page for every page, but no pair for some table: `map_page` answers 1, the copy
  looks for -1 and goes on (`Fork.CopyPage`), and the pid of a child that lacks pages is returned. Or the pages run
  out, and the way back gives away the pages of the parent instead of the copies (`Fork.WayBack`): exactly
  `Shortage.LostPages`, those that were copied of the section or the stack where they ran out. In a section, the
  parent's memory is freed as well; in the stack, a pid is returned. `SmallMachine.ForkOnSmallMachine` boots six
  machines, of 14 to 19 pairs: on five of them fork falls short, in three different ways.

`removeAt` never looks at the head of the list (`LinkedList.RemoveAtIff`). The kernel calls it in `sleep` alone, for a
task that is not on the list (`Kernel.Kernel.RemoveFromQueue`), so the input on which it fails is never received.

## Model

| member | source | states |
|---|---|---|
| `BuddyPool.BuddyPool.constructor` | kernel/mem_manage.c:44-75 | for every kernel size from one page to 128 MiB, exactly the pages behind the kernel are free, the lists are canonical, and no order has more than one block |
| `BuddyPool.BuddyPool.InitMemManage` | kernel/mem_manage.c:44-75 | the two loops thread the canonical lists of the pages behind the kernel |
| `BuddyPool.BuddyPool.Halve` | kernel/mem_manage.c:47-56 | after the first loop the lists above the index are built and the size is the pivot of the kernel's end |
| `BuddyPool.BuddyPool.Search` | kernel/mem_manage.c:58-70 | the binary search builds the remaining lists around the kernel's end |
| `BuddyPool.NextPivot` | kernel/mem_manage.c:59-70 | each step of the search moves to the tagged boundary of the next smaller order next to the kernel's end |
| `BuddyPool.PivotList` | kernel/mem_manage.c:59-70 | the only maximal block of an order behind the kernel is the pivot, and only if the kernel ends below it |
| `BuddyPool.BuddyPool.Allocate` | kernel/mem_manage.c:77-106 | NULL if and only if no aligned run of 2^power pages is free; otherwise a best-fitting aligned run leaves the free set, and the lists are those of a split without any merge |
| `BuddyPool.BuddyPool.TakeSmallest` | kernel/mem_manage.c:80-96 | takes the head of the first non-empty list from `power` up |
| `BuddyPool.BuddyPool.SplitDown` | kernel/mem_manage.c:98-103 | gives the upper halves back one order at a time, each to an empty list |
| `BuddyPool.BuddyPool.Deallocate` | kernel/mem_manage.c:112-173 | an aligned range outside the free set, however it was taken, joins the free set and the lists are canonical again; never beyond order 14; NULL changes nothing |
| `BuddyPool.BuddyPool.ReleaseTagged` | kernel/mem_manage.c:128-152 | a block whose buddy is below merges if and only if the buddy is listed |
| `BuddyPool.BuddyPool.ReleaseUntagged` | kernel/mem_manage.c:153-171 | a block whose buddy is above merges if and only if the buddy is listed |
| `BuddyPool.BuddyPool.Merge` | kernel/mem_manage.c:146-148 | takes the buddy out and releases the joined block of the next order |
| `BuddyPool.BuddyBelow` | kernel/mem_manage.c:141-152 | looking at the predecessor alone decides whether the buddy is listed |
| `BuddyPool.BuddyAbove` | kernel/mem_manage.c:160-170 | looking at the successor alone decides whether the buddy is listed |
| `BuddyPool.ReleasableOrder` | kernel/mem_manage.c:112-173 | a block outside the kernel's pages is of an order below 15, so no list beyond the last is touched |
| `BuddyBlocks.CanonicalForm` | kernel/mem_manage.c:77-173 | the lists are a function of the set of free pages |
| `BuddyBlocks.FreeRunIffListed` | kernel/mem_manage.c:82-96 | an aligned run of 2^k pages is free if and only if some list from order k up is not empty |
| `BuddyBlocks.MaximalDisjoint` | kernel/mem_manage.c:112-173 | maximal blocks of any orders do not overlap |
| `BuddyBlocks.OrderBounded` | kernel/mem_manage.c:112-173 | no free block has order 15, since the kernel's own pages would have to be free |
| `BuddyRuns.CanonicalIsWellKept` | kernel/mem_manage.c:44-173 | canonical lists are sorted, aligned, disjoint, inside the pool, without free buddies, and cover the free pages exactly |
| `BuddyRuns.Serve` | kernel/mem_manage.c:44-173 | over every sequence of allocations and legal releases, free and held pages partition the pool and the lists stay canonical |
| `BuddyRuns.Borrow` | kernel/mem_manage.c:77-173 | allocate and then deallocate restores all lists exactly |
| `BuddyRuns.ReleaseAll` | kernel/mem_manage.c:112-173 | releasing blocks leaves the lists of the union of their pages |
| `BuddyRuns.OrderIndependent` | kernel/mem_manage.c:112-173 | the order of releases does not matter |
| `BuddyRuns.HalvesIndependent` | kernel/mem_manage.c:112-173 | releasing a block as two halves ends in the same lists |
| `BuddyRuns.TagOfAddress` | kernel/mem_manage.c:108-126 | the tag bit and remove_tag on 64-bit addresses are parity and rounding of page numbers |
| `Sv39.RoundingMacros` | kernel/riscv_defs.h:38-40 | PGROUNDUP, PGROUNDDOWN and PGOFFSET are rounding and remainder by 4096 |
| `Sv39.IndexMacro` | kernel/riscv_defs.h:56-58 | PX is the nine-bit digit of its level |
| `Sv39.EntryJoin` | kernel/riscv_defs.h:49 | PA2PTE leaves the flag bits clear, so the bitwise or with the permission is a sum |
| `Sv39.EntryValid` | kernel/riscv_defs.h:42-49 | setting PTE_V sets exactly bit 0 |
| `Sv39.FieldMacros` | kernel/riscv_defs.h:51-53 | PTE2PA and PTE_FLAGS split an entry into frame and flags |
| `Sv39.EntryRoundTrip` | kernel/riscv_defs.h:49-53 | frame and flags are read back from an entry |
| `Sv39.IndicesInjective` | kernel/riscv_defs.h:56-64 | below MAXVA the three indices determine the page |
| `Sv39.MemoryMap` | kernel/memlayout.h:48-73 | the addresses and flag bits of the headers, in numbers |
| `PageTables.WalkIsMap` | kernel/virtual_memory.c:19-42 | the three-step walk from the root computes the partial map that the tables represent |
| `PageTables.AddTableRepresents` | kernel/virtual_memory.c:24-33 | hanging in a cleared table changes no translation and keeps the tables a tree of distinct pages |
| `PageTables.SetEntryRepresents` | kernel/virtual_memory.c:252-277 | writing one leaf entry changes the translation of its page and of no other |
| `PageTables.Unaffected` | kernel/virtual_memory.c:19-42 | a page table depends on its own tables only |
| `PageTables.UnmapUndoesMap` | kernel/virtual_memory.c:252-277 | unmap_page after map_page brings the whole translation back |
| `Memory.Memory.PagetableEntry` | kernel/virtual_memory.c:19-36 | finds the leaf table, if asked after adding tables, each on a pair of free pages as far as there are pairs; no translation changes on any path |
| `Memory.Memory.PhysicalAddress` | kernel/virtual_memory.c:38-42 | frame and offset by the partial map, 0 if unmapped |
| `Memory.Memory.MapPage` | kernel/virtual_memory.c:252-265 | panics if and only if out of range or mapped; otherwise it succeeds if and only if there are pairs for the tables that the page lacks, and exactly one page gains the given frame and flags; on failure no translation changes, and the tables that could be built remain |
| `Memory.Memory.UnmapPage` | kernel/virtual_memory.c:267-277 | succeeds if and only if the page is mapped with more than the valid bit, and then removes it alone |
| `Memory.Memory.CreateVoidPagetable` | kernel/virtual_memory.c:97-102 | a new tree that maps nothing |
| `Memory.Memory.AllocateForUser` | kernel/process.c:61-66 | a cleared page that no table and no data was on |
| `Memory.Memory.MapPageForUser` | kernel/virtual_memory.c:279-292 | one page with the bytes and zeros behind them, on a fresh frame; unless the page is taken or out of range, it succeeds if and only if there is a page and then a pair for every table it lacks; on failure the frame is given back |
| `Memory.LostToTables` | kernel/virtual_memory.c:19-36 | when data pages are as before, every page that is no longer free is in a table |
| `Supply.PageRequest` | kernel/mem_manage.c:77-106 | what `allocate(0)` leaves: a page whose neighbour is in use goes first, and a pair is broken only if there is none |
| `Supply.PairRequest` | kernel/mem_manage.c:77-106 | what `allocate(1)` leaves: one pair fewer, and as many pages without a neighbour |
| `Supply.Refused` | kernel/mem_manage.c:77-106 | they are refused if and only if the stock has no page, or no pair |
| `Supply.EnoughTwice` | kernel/mem_manage.c:77-106 | requests one after the other are met if and only if all at once are, in any order, and leave the same |
| `Supply.AffordsTwice` | kernel/virtual_memory.c:19-36 | so are mappings with the tables that they need, tables that two of them share counted once |
| `Supply.BuiltIff` | kernel/virtual_memory.c:19-36 | the leaf table is reached if and only if there is a pair for each table missing on the way; otherwise no pair is left |
| `Supply.RangeIff` | kernel/virtual_memory.c:294-321 | mapping a range page by page succeeds if and only if there is enough for the pages and their tables as a whole |
| `AddressSpace.FreeMemory` | kernel/virtual_memory.c:228-234 | unmaps exactly the range, skipping pages without a leaf table, and frees each frame once; panics if and only if a page of the range has a leaf table and no entry beside the valid bit |
| `AddressSpace.MapSection` | kernel/virtual_memory.c:294-321 | on success the pages of the section are mapped to fresh frames with their part of the source, and exactly these pages and their tables were paid for; want of memory means that it was too little for all of them together, and translation and data pages are as before; it panics only if a page is taken or out of range, or on its way back if the permission has no bit besides PTE_V |
| `Ranges.MappedThenFreed` | kernel/virtual_memory.c:310-317 | free_memory of what was just mapped restores translation and data pages |
| `SectionContents.SectionReads` | kernel/virtual_memory.c:294-321 | every byte of the section reads as stored, every other byte as before |
| `SectionContents.StoresPageIff` | kernel/virtual_memory.c:304-319 | a page is right for every source if and only if it does not begin before the segment or there is nothing to copy, so only the first page can be wrong |
| `SectionContents.StoresAllIff` | kernel/virtual_memory.c:279-321 | all bytes are file bytes below src_size and zeros above, for every source, if and only if the start is aligned or there is nothing to copy (Program Header, chapter 5 of the System V gABI) |
| `Ledger.AddSection` | kernel/process.c:132-145 | registering the pages just mapped keeps the ledger equal to the page table |
| `Ledger.GrowStack` | kernel/process.c:764-777 | so does lowering the stack |
| `Ledger.EmptyLedger` | kernel/process.c:161-174 | after teardown only trampoline, trap frame and shared page are mapped |
| `Fork.CopyPage` | kernel/virtual_memory.c:151-173 | fails if and only if no page is free; otherwise the page is copied if and only if there is a pair left for each table it lacks, and skipped without an error if not, since 1 is not -1; what is left is stated in both cases |
| `TaskMemory.NewTask` | kernel/process.c:68-130 | maps exactly the three fixed pages in a new tree, on pages that were free, with their flags bit by bit, if and only if three pages and three pairs can be had; is refused if and only if three pages and one pair cannot, and then gives back all but the pages for trap frame and shared memory and the second page of the root table |
| `TaskMemory.LoadOne` | kernel/elf.c:33-54 | a segment is mapped, filled and registered: every page that it reaches into is for the user, and can be read, written and executed exactly as the header says, bit by bit; its bytes are those of the file and then zeros, but for a first page that begins before it; what was mapped before is as before, and no page is lost; it panics only if a page of the segment is taken or out of range, and memory is short only if there is too little for the segment and its tables |
| `TaskMemory.FilledMeans` | kernel/elf.c:33-50 | what a filled segment is for the program: which pages, what they allow, and which bytes are read there |
| `TaskMemory.SegmentSpan` | kernel/elf.c:33-38 | the pages registered for a segment are exactly those that it reaches into |
| `TaskSteps.SegmentStores` | kernel/elf.c:40-44 | a program can store to a segment if and only if its header says so |
| `TaskMemory.LoadSegments` | kernel/elf.c:28-55 | all loadable segments are registered in order, hold their bytes and have the permissions of their headers; success means that none overlaps and all are paid for, a panic that some overlap or end too high, want of memory that it was too little for all, and then the sections and the executable stack of the headers before stay; no page is lost |
| `TaskMemory.ClearSpace` | kernel/process.c:161-174 | frees every page of the sections and the stack once; panics if and only if the stack that is named is no longer there, or a page of the ledger has a leaf table but no entry |
| `TaskMemory.StaleIsStuck` | kernel/virtual_memory.c:228-234 | a stack whose pages are gone still has its leaf table, that of the shared page, so freeing it again panics |
| `UserSpace.LoadElf` | kernel/elf.c:21-59 | refuses exactly the files that do not begin with 7f 45 4c 46; success means that the segments do not overlap and are paid for, each of type 1 is there with its bytes and allows what its header says, and the stack becomes executable if and only if there is a header of type 0x6474e551; a panic, that they overlap or end too high; want of memory, that it was too little for all, and then the task has what was loaded |
| `UserSpace.SetStack` | kernel/process.c:147-159 | one cleared page below the shared memory, for the user to read and write, and to execute if the stack is executable, and the task can run; or there was no memory for it, and the fields are as they were; or the page was taken; no page is lost |
| `UserSpace.AvailableFrom` | kernel/process.c:184-195 | the end of the section that ends last, 0 without sections |
| `UserSpace.SetArguments` | kernel/process.c:519-557 | two pages with the text and the pointers behind the last section, for the user to read and write, if and only if there is a pair for them and their tables and they stay below the stack; without a pair nothing changes; without tables the ledger names them all the same, and the one or two pages that are not mapped are lost |
| `UserSpace.ArgumentsFit` | kernel/process.c:519-557 | argument pages that can be mapped lie above every section, so all sections end below MAXVA |
| `UserSpace.LoadProgram` | kernel/process.c:507-518 | the old program is gone, the new one is loaded, the stack is fresh, the shared page is kept and other tasks are untouched, if and only if the image is sound and what the old program leaves is enough for it; otherwise the task is left without a stack, or the image overlaps and the kernel panics |
| `UserSpace.ClearUserMemorySpace` | kernel/process.c:161-174 | exactly the user pages are freed and the ledger is empty |
| `UserSpace.EnlargeStackByAPage` | kernel/process.c:764-777 | the stack is one cleared page deeper, for the user to read and write, and to execute if the stack is executable; or memory was too little for the page and its tables, and the stack is as before; or the page below was taken |
| `UserSpace.TryEnlargeStack` | kernel/process.c:760-793 | addresses outside 0x3fffbfd000 to 0x3fffffd000 are refused; the stack always ends at the shared memory and never starts below its limit; success means that the faulting page is mapped, that all new pages are cleared, and that every new page was paid for; want of memory, that it was too little for all of them, and everything is still in order; an address in the stack changes nothing; no page is lost |
| `UserSpace.FaultAgain` | kernel/process.c:779-793 | a fault at an address that the stack covers succeeds and changes nothing at all |
| `UserSpace.LoadFault` | kernel/trap.c:126-131 | handled as a load fault and then again as a store fault, a fault has the effect of one handling |
| `Fork.CopyMemory` | kernel/virtual_memory.c:141-184 | panics if and only if the range is unaligned or too high; succeeds if and only if there is a page for every page, with a frame of its own, the source's bytes and flags for each page that there are tables for; otherwise the child has what it had before and the source's pages copied so far are free |
| `Fork.WayBack` | kernel/virtual_memory.c:158-164 | unmaps the target's pages of the range and gives the data pages of the source back, not the copies |
| `Shortage.CanCopyIff` | kernel/virtual_memory.c:186-226 | copying a ledger section by section and page by page succeeds if and only if there is enough for all of it at once |
| `Shortage.WholeIff` | kernel/process.c:455-471 | `new_task` and the copy of a whole ledger succeed if and only if there is a page for every mapped page and a pair for the root and each of their tables |
| `Shortage.FirstShortage` | kernel/virtual_memory.c:158-164 | the first section that pages run out in decides which pages are lost |
| `Shortage.GapsNext` | kernel/virtual_memory.c:166-178 | the pages that the copy skips, section by section |
| `Fork.CopyAll` | kernel/virtual_memory.c:186-226 | the result is 0 if and only if there are pages for all sections, and the child is whole if and only if there are tables, too, and pages for the stack; the pages skipped and the pages given away from the parent are exactly the ones predicted; without pages for the stack the child has no program pages at all; after -1 the child is freed; one data page is lost for each page skipped and each given away, and no other |
| `Fork.ForkedIff` | kernel/virtual_memory.c:186-226 | no page was skipped if and only if the child maps all that the parent's ledger names, and then its own ledger agrees |
| `Fork.SameDomain` | kernel/virtual_memory.c:186-226 | parent and child map the same pages, with the same bytes and flags on all but the fixed ones |
| `Fork.NoSharedFrame` | kernel/virtual_memory.c:151-182 | no frame of the child is a frame of the parent |
| `Fork.ChildStoreUnseen` | kernel/virtual_memory.c:151-182 | what the child stores, the parent does not read |
| `Fork.ParentStoreUnseen` | kernel/virtual_memory.c:151-182 | what the parent stores, the child does not read |
| `TaskSteps.ForkProcess` | kernel/process.c:455-471 | the outcome is decided before the call: the child is whole if and only if the free pages are enough to fork, and then has every page of the parent with the same bytes and flags on a page of its own, with the parent as before and both able to run; a pid is returned if and only if there is a task and a page for every page of the sections; which pages a child lacks, which pages the parent loses, and how many pages nobody has after that are stated for every outcome; no task that was started makes it panic |
| `TaskSteps.FreeParent` | kernel/process.c:455-471 | the failure of the copy frees the memory of the parent, every private page of it |
| `TaskSteps.ExitProcess` | kernel/process.c:480 | all data pages of the task but the trampoline are given back, and nothing of another task; so are its root and middle tables, while its leaf tables stay taken; panics if and only if the stack that the task names is gone |
| `TaskSteps.ExitPartly` | kernel/process.c:473-480 | the exit of a task whose ledger names pages that are not mapped panics if and only if one of them has a leaf table; otherwise all its data pages and its root and middle tables are given back |
| `SmallMachine.ForkOnSmallMachine` | kernel/process.c:237-471 | booted with 14 to 19 free pairs, init forks: with 14 all its memory is freed; with 15 to 17 one of its pages is given away while mapped; with 18 a child without one of the pages is returned; with 19 a twin |
| `SmallMachine.ExecOnSmallMachine` | kernel/process.c:500-562 | booted in the same way, init calls exec with an image there is no memory for, and the kernel panics |
| `TaskSteps.StoreIsPrivate` | kernel/process.c:97-114 | a page that a user program can store to is private to it: not the trampoline, not the trap frame |
| `TaskSteps.UserStore` | kernel/process.c:97-114 | a store goes through if and only if the page table lets it, changes one byte of one private page, and keeps the task in order |
| `Teardown.FreePagetableInternal` | kernel/virtual_memory.c:236-250 | gives back the root and the tables below it, each once, reading none after that |
| `Teardown.FreePagetable` | kernel/virtual_memory.c:236-250 | every table of the page table but the leaf tables is free after it, and every leaf table is still taken |
| `Teardown.FreeUserMemory` | kernel/process.c:176-182 | each data page goes back once, with the ledger as the only condition, whether or not all it names is mapped; panics if and only if the stack that is named is gone, or a page of the ledger has a leaf table but no entry |
| `Isolation.LocalMapped` | kernel/virtual_memory.c:294-321 | mapping touches only one's own pages and free ones |
| `Isolation.LocalFreed` | kernel/virtual_memory.c:228-234 | freeing touches only one's own pages |
| `Isolation.StrangerAgrees` | kernel/process.c:161-182 | whatever one task does, the ledger of another still agrees with its page table |
| `Machine.MoveKeepsSeparate` | kernel/process.c:455-498 | a local step that leaves its own task in order, or ended, leaves all tasks in order and without common pages |
| `Machine.MoveKeepsOthers` | kernel/process.c:455-498 | and every other task reads what it read |
| `Machine.NothingShared` | kernel/process.c:68-130 | no two tasks have a table or a data page but the trampoline in common |
| `Machine.ForkStep` | kernel/process.c:455-471 | any set of tasks, the parent among those who are undisturbed: with enough to fork there is one task more, the parent's twin, and all stay in order and apart; when `new_task` refuses no task is there or gone; these are exactly the cases in which the run goes on |
| `Machine.ExecStep` | kernel/process.c:500-562 | exec with whatever is in the shared page and any count: the task has the image, its fields and the arguments given, and no page too many; or it is gone with all its data pages but the argument pages that there was no table for; each if and only if the state before the call says so; a panic is exactly the rest, and the end of init |
| `Machine.StoreStep` | kernel/process.c:97-114 | a store of a user program goes through if and only if the address is below MAXVA and its entry has the bits W and U; then exactly that byte of the page behind the address is replaced, and otherwise nothing changes; all tasks stay in order, and nobody else is disturbed |
| `Machine.ExitStep` | kernel/process.c:473-480 | exit likewise: the task is gone with all its data pages and its root and middle tables; as far as memory goes, it panics if and only if init exits |
| `Machine.FaultStep` | kernel/trap.c:126-131 | a page fault likewise: the task lives, with its stack grown to the page by cleared pages and everything else as it was, if and only if the address is in the range of the stack, memory is enough and no section is in the way; otherwise it is gone with all its data pages; as far as memory goes, a panic is the end of init or a section in the way |
| `Machine.ServeOne` | kernel/process.c:455-562 | any of these requests: what the kernel can bear, by the state before it, has the outcome of its step, leaves all tasks in order and disturbs nobody; and but for faults it can bear nothing else |
| `Machine.Serve` | kernel/process.c:237-562 | from an empty pool through the start of init and any sequence of requests: every request in turn has its outcome and disturbs nobody else, and in the end every task is in order and no two tasks share a page but the trampoline |
| `LinkedList.List.PopHeadWithoutFree` | kernel/single_linked_list.h:67-76 | the list loses its head; size and tail stay right |
| `LinkedList.List.PushTail` | kernel/single_linked_list.h:115-127 | the node is appended; size and tail stay right |
| `LinkedList.List.RemoveAt` | kernel/single_linked_list.h:142-167 | removes the first match behind the head |
| `LinkedList.RemoveAtIff` | kernel/single_linked_list.h:142-167 | in a list without repetitions the element is gone if and only if it was not the head |
| `TaskInvariants.StepInv` | kernel/process.c:279-712 | every step keeps the tree of parents, the list of all tasks in the order of their pids, the queue of exactly the runnable tasks, at most one running task, and no lost wakeup |
| `TaskRuns.EveryRun` | kernel/process.c:237-712 | all of that holds in every state of every run from boot |
| `TaskRuns.QueueIs` | kernel/process.c:279-335 | a task is runnable if and only if it is on the queue, nobody is on it twice, and at most one task is in state running |
| `TaskRuns.ParentsLive` | kernel/process.c:396-401 | every task but init has a parent with a smaller pid that has not exited |
| `TaskRuns.NoWakeupLost` | kernel/process.c:473-498 | a sleeper other than init that waits for any child has no zombie child; one that waits for a child has it alive or dead, not a zombie |
| `TaskRuns.HeadIsRunnable` | kernel/process.c:297-335 | the head of the queue is runnable, so the skipping loop and the panic of yield are dead code |
| `TaskRuns.ExitPanicsIff` | kernel/process.c:473-498 | exit panics if and only if init exits, or nobody is left to run and the parent does not wait |
| `TaskRuns.NeverIdle` | kernel/process.c:279-295 | once a task runs, some task always does, and no run without a panic enters the scheduler loop again |
| `TaskRuns.OnePlace` | kernel/process.c:309-335 | a switch moves every queued task one place forward, any other step leaves it in place |
| `TaskRuns.BoundedWaiting` | kernel/process.c:309-335 | a task with k tasks ahead runs at the k+1st switch, whatever else happens |
| `TaskRuns.PendingKept` | kernel/process.c:484-494 | the result in a woken parent's registers is not overwritten before it runs |
| `TaskRuns.ForkReturnsTwice` | kernel/process.c:455-471 | a new pid in the parent, 0 in the child, which has the parent's a1, the child last in the queue and nobody else changed |
| `TaskRuns.ForkRefused` | kernel/process.c:455-457 | without memory fork returns -1 and nothing else changes |
| `TaskRuns.ReapedByParent` | kernel/process.c:656-712 | a zombie becomes dead only by its parent's wait, which gets its pid, and its status if it asked for it |
| `TaskRuns.OldestIsReaped` | kernel/process.c:656-700 | a wait for any child, with a zombie child there, reaps the one with the smallest pid, hands over its pid and, if asked for, its status, and leaves every other zombie child as it is |
| `TaskRuns.ExitWakesParent` | kernel/process.c:484-495 | a parent that sleeps for any child or for this one gets pid and status at once; the task is dead if and only if there is such a parent, and a zombie otherwise |
| `TaskRuns.DeadForever` | kernel/process.c:656-712 | a reaped task is never reaped again |
| `TaskGaps.WaitRefusesIff` | kernel/process.c:656-675 | with all children dead, wait answers -1 if and only if there never were any; otherwise the caller is marked as sleeping on itself, and keeps the CPU and its a0 if and only if nobody else can run |
| `TaskGaps.WaitBereftIff` | kernel/process.c:656-675 | after wait the caller is off the CPU, asleep for any child, with dead children only, if and only if it has children, all of them are dead and another task can run |
| `TaskGaps.BereftForever` | kernel/process.c:403-415 | a task but init that sleeps so does in every run |
| `TaskGaps.OnlyInitLeft` | kernel/process.c:396-401 | when all children of init are dead, nobody but init lives, and while it runs the queue is empty |
| `TaskGaps.WaitOnDeadChild` | kernel/process.c:403-415 | a run after which a child of init sleeps for any child, off the CPU, though its only child is dead |
| `TaskGaps.WaitPidReapsIff` | kernel/process.c:677-712 | wait_pid reports a zombie if and only if it asks for any child and that one is found first |
| `TaskGaps.WaitPidOnZombie` | kernel/process.c:677-712 | a run after which wait_pid refuses a zombie |
| `TaskGaps.WaitPidSleepsIff` | kernel/process.c:677-712 | wait_pid marks its caller as sleeping on the pid it is given if and only if that is a child and no zombie, so also if it was reaped before; the caller leaves the CPU if and only if somebody else can run, and otherwise gets the pid back |
| `TaskGaps.WaitPidStrandedIff` | kernel/process.c:677-712 | after wait_pid the caller is off the CPU and asleep on a dead child if and only if it asked for a child that was dead, and another task can run |
| `TaskGaps.StrandedForever` | kernel/process.c:447-453 | a task that sleeps on a dead child sleeps on it in every run |
| `TaskGaps.WaitPidOnDeadChild` | kernel/process.c:677-712 | a run after which init is asleep on a dead child, and stays so |
| `TaskGaps.InitMissesZombieIff` | kernel/process.c:396-401 | an exit makes init sleep beside a zombie if and only if init waits for any child, the task is not its child and leaves a zombie |
| `TaskGaps.InitMissesZombieRun` | kernel/process.c:396-401 | a run that ends there |
| `Kernel.Kernel.Schedule` | kernel/process.c:279-295 | the loop body is the scheduling step; it panics if and only if a task is running |
| `Kernel.Kernel.NextTaskToRun` | kernel/process.c:297-307 | the skipping loop ends; it takes the head of the queue, which is runnable, and skips nothing |
| `Kernel.Kernel.Yield` | kernel/process.c:309-335 | the code on the linked queue is the yield step, apart from the kernel stacks |
| `Kernel.Kernel.Fork` | kernel/process.c:455-471 | the code is the fork step |
| `Kernel.Kernel.Exit` | kernel/process.c:473-498 | the code is the exit step, panics included |
| `Kernel.Kernel.ReparentAll` | kernel/process.c:396-401 | the sweep over all tasks hands exactly the children of zombies to init |
| `Kernel.Kernel.GetOneZombieChild` | kernel/process.c:417-425 | the zombie child found has no other before it on all_tasks; none is found if and only if there is none |
| `Kernel.Kernel.HasAliveChild` | kernel/process.c:407-415 | true if and only if there is any child, dead ones included |
| `Kernel.Kernel.FindTask` | kernel/process.c:427-435 | the task with the pid, if there is one |
| `Kernel.Kernel.IsAncestor` | kernel/process.c:437-445 | ends for every pair of tasks and decides the ancestor relation |
| `Kernel.Kernel.Sleep` | kernel/process.c:581-586 | the code is the sleep step; removeAt finds nothing to remove |
| `Kernel.Kernel.Wait` | kernel/process.c:656-675 | the code is the wait step |
| `Kernel.Kernel.WaitPid` | kernel/process.c:677-712 | the code is the wait_pid step |
| `Kernel.Kernel.SendSignal` | kernel/process.c:714-732 | always answers -1 |
| `KernelStacks.CleanIff` | kernel/process.c:309-318 | in every run from boot, each kernel stack is given back once and after its task has left it, if and only if no task yields after exec and before its end, and is followed by another yield |
| `KernelStacks.StacksKept` | kernel/process.c:309-318 | in such a run no stack of a task that ended is forgotten, and no stack of a live task is given back |
| `KernelStacks.ExecAndTwoYields` | kernel/process.c:500-508 | init calls exec and is interrupted twice: its stack is given back under it |
| `CStrings.SpansAreMaximalRuns` | user/ulib.h:68-90 | the tokens are exactly the maximal delimiter-free runs, in order |
| `Shell.StringIncludes` | user/ulib.h:58-66 | the scan decides membership |
| `Shell.Tokenizer.Strtok` | user/ulib.h:68-90 | returns the next maximal run, cut out in place, or NULL |
| `Shell.ParseLine` | user/sh.c:42-55 | argv points at the words of the line in order, path is the first with a slash |
| `ExecArgs.Exec` | user/system.c:31-84 | the three-state loop ends and leaves the packed strings, cut at the page, name and arguments one behind the other; the sizes are reported if and only if all fits |
| `ExecArgs.PageHoldsEnv` | user/system.c:31-84 | the environment strings stand one by one behind the arguments, if all fits |
| `ExecArgs.UnpackArgv` | kernel/process.c:509-544 | the pointer table denotes the strings found in the page, or the code would leave the page or the table |
| `ExecArgs.RoundTrip` | kernel/process.c:509-533 | the kernel finds exactly the packed arguments if the first is not empty |
| `ExecArgs.RoundTripIff` | kernel/process.c:509-533 | and only then |
| `Exec.TableIsFollowed` | kernel/process.c:525-544 | a program that follows the pointers of the table through its page table, on pages with the bits R and U, reads the strings that the table denotes |
| `Words.LittleEndian` | kernel/process.c:525-544 | a word that a program reads has its lowest byte at the lowest address |
| `Exec.GiveArguments` | kernel/process.c:509-562 | the program finds behind a1, on pages that it can read, exactly the arguments that the kernel found in the shared page, and a null pointer behind them; it leaves page or table if and only if there is a pair for them and the arguments are not within their bounds; success otherwise if and only if memory is enough |
| `Exec.ExecProcess` | kernel/process.c:500-562 | the program is replaced and finds its arguments, if and only if image, arguments and the memory that the old program leaves allow it, and every segment is there as its header says; the task is ended if and only if the image could be loaded, but argument pages or their tables are missing in a way that exit survives; all else is a panic; other tasks are untouched; no data page is lost but, when the task is ended, the argument pages that there was no table for |
| `Exec.PackArguments` | user/system.c:31-84 | the shared page of the task holds the packed strings, and nothing else changes: memory is as after one store to that page |
| `Exec.ExecProgram` | user/system.c:31-84 | packing and replacing together: if the arguments fit and the first is not empty, the program is started if and only if the image is sound and there is memory for it, and finds exactly argv behind a1 |
| `Exec.RunLine` | user/sh.c:42-55 | from the line to the program: with words that fit, it is started if and only if the image is sound and there is memory for it, and behind a1 it finds exactly the maximal runs of characters of the line other than space, tab, carriage return and line feed, in order |
| `Exec.WordsAreRuns` | user/sh.c:13 | the words of a line are exactly its maximal runs without the four blanks of the shell |
| `Exec.NothingDropped` | user/sh.c:42-55 | every character of the line that is none of these blanks is in a word |
| `Exec.StartInit` | kernel/process.c:237-277 | the first task can run and finds its name behind a1; it starts with its program if and only if the image is sound and there is memory for the task, its program, stack and arguments, and what is left is stated; any other failure is a panic |

## Left out

- Assembly, CSRs, UART, PLIC, timer, boot code, printing, `map_memory` and the kernel's own page table.
- Interrupt status: `deallocate` and `kmalloc` return early without restoring it.
- `kmalloc` and `kfree`: an abstract source of fresh nodes, so `register_memory_section` never fails.
- Where a woken task resumes: only its state is modelled, not the saved context. The entry point of a program and the rest of the trap frame are not modelled either.
- `BuddyPool.BuddyPool.constructor`: the shift by -1 that the first loop can compute is never read and is modelled as 0.
- `TaskSteps.ForkProcess`: ends where a page of the parent would be given back a second time, and after a `new_task` that found no pair for a table of the fixed pages. The copy of the trap frame is in `Tasks.Fork` only as far as `wait` and `fork` use it.
- `TaskMemory.NewTask`: its way back after a failed `map_page`, which frees a stack at address 0 that was never mapped, is not modelled (outcome `Wild`).
- `Machine.Serve`: ends early when the kernel panics, and when fork has enough to begin but not to finish, since the parent or the child is not in order then.
- `Kernel.Kernel.Yield`: the stacks that it gives back are in `KernelStacks` alone, where a stack is named by its task, and a fork that fails halfway, which puts down the parent's stack, is not an event.
- `Kernel.Kernel.Fork`: a flag stands for the success of `new_task` and of the copy, which are in `TaskSteps.ForkProcess`.
- `ExecArgs.UnpackArgv`: environment strings are not unpacked, since the source advances by a count of strings instead of bytes; the environment is empty, and a negative count of arguments is not modelled.
- `Exec.ExecProcess`: the table of programs, three images that are part of the kernel, is not modelled, and images are arbitrary files; a name that is not in the table leaves the task as it was.
- `Exec.StartInit`: the result of `load_elf` is not looked at, as in the source; `loaded` says whether the file was there.
- The name that `exec_process` gives the task, the built-in commands of the shell, and the environment variables of the shell.
- Memory section lists are sequences; the linked list itself is modelled once, under the run queue.

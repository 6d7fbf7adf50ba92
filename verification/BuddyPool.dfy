/** The buddy allocator of kernel/mem_manage.c: splitting allocation, merging release. */
module BuddyPool {
  import opened Bits
  import opened BuddyBlocks
  import opened BuddyThreads

  /** What the kernel may hand to `deallocate`: an aligned run of pages of the pool, none
      of which is free. The run need not be a block that `allocate` returned. */
  ghost predicate Releasable(free: set<int>, kernelEnd: int, addr: int, power: nat) {
    && Aligned(addr, power)
    && kernelEnd <= addr && addr + Pow2(power) <= PAGES
    && Range(addr, power) !! free
  }

  /** `addr` is the lowest block of the smallest order that can serve a request. */
  ghost predicate BestFit(free: set<int>, power: nat, addr: int, level: nat) {
    && power <= level <= MAX_ORDER
    && Maximal(free, addr, level)
    && (forall q :: Maximal(free, q, level) ==> addr <= q)
    && forall k: nat, q :: power <= k < level ==> !Maximal(free, q, k)
  }

  /** The lists after the block at the head of list `level` was split down to `power`. */
  ghost function SplitLists(lists: seq<seq<int>>, power: nat, level: nat, addr: int): seq<seq<int>>
    requires |lists| == MAX_ORDER + 1 && level <= MAX_ORDER && lists[level] != []
  {
    seq(MAX_ORDER + 1, k requires 0 <= k <= MAX_ORDER =>
      if k == level then lists[k][1..] else if power <= k < level then [addr + Pow2(k)] else lists[k])
  }

  class BuddyPool {
    const kernelEnd: int
    const link: array<int>
    ghost var lists: seq<seq<int>>
    ghost var free: set<int>

    ghost predicate Valid()
      reads this, link
    {
      && link.Length == NODES
      && InPool(free, kernelEnd)
      && Canonical(lists, free)
      && Threaded(link[..], lists)
    }

    // ----- Initialisation -----

    constructor (kernelPages: nat)
      requires 1 <= kernelPages <= PAGES
      ensures Valid() && fresh(link) && kernelEnd == kernelPages
      ensures free == Span(kernelPages, PAGES - kernelPages)
      ensures forall k :: 0 <= k <= MAX_ORDER ==> |lists[k]| <= 1
    {
      kernelEnd := kernelPages;
      link := new int[NODES];
      lists := seq(MAX_ORDER + 1, _ => []);
      free := Span(kernelPages, PAGES - kernelPages);
      new;
      InitMemManage();
    }

    /** The lists above `index` are finished. */
    ghost predicate Built(index: int)
      reads this, link
    {
      && link.Length == NODES && |lists| == MAX_ORDER + 1
      && forall k :: index < k <= MAX_ORDER && 0 <= k ==>
        Chain(link[..], k, lists[k]) && CanonicalList(lists[k], free, k) && |lists[k]| <= 1
    }

    method InitMemManage()
      requires link.Length == NODES && |lists| == MAX_ORDER + 1
      requires 1 <= kernelEnd <= PAGES && free == Span(kernelEnd, PAGES - kernelEnd)
      modifies this, link
      ensures Valid() && free == old(free)
      ensures forall k :: 0 <= k <= MAX_ORDER ==> |lists[k]| <= 1
    {
      TopListEmpty(kernelEnd);
      EmptyList(MAX_ORDER);
      var buddySize, index := Halve();
      Search(buddySize, index);
    }

    /** The first loop: every upper half that the kernel does not reach is one free block. */
    method Halve() returns (buddySize: nat, index: int)
      requires 1 <= kernelEnd <= PAGES && Built(MAX_ORDER - 1) && free == Span(kernelEnd, PAGES - kernelEnd)
      modifies this, link
      ensures -1 <= index < MAX_ORDER && Built(index) && free == old(free)
      ensures index >= 0 ==> Pivot(kernelEnd, buddySize, index)
    {
      PagesIsPow2();
      buddySize := PAGES / 2;
      index := MAX_ORDER - 1;
      while buddySize >= kernelEnd && index >= 0
        invariant -1 <= index < MAX_ORDER && Built(index) && free == old(free)
        invariant buddySize == ShiftPage(index)
        invariant index >= 0 ==> kernelEnd <= 2 * buddySize
        decreases index
      {
        FirstPivot(kernelEnd, index);
        SingletonList(index, buddySize);
        buddySize := buddySize / 2;
        index := index - 1;
      }
      if index >= 0 { FirstPivot(kernelEnd, index); }
    }

    /** The second loop: a binary search for the end of the kernel. */
    method Search(start: int, from: int)
      requires 1 <= kernelEnd <= PAGES && free == Span(kernelEnd, PAGES - kernelEnd)
      requires -1 <= from < MAX_ORDER && Built(from) && (from >= 0 ==> Pivot(kernelEnd, start, from))
      modifies this, link
      ensures Built(-1) && free == old(free)
    {
      var tmp, index := start, from;
      while index >= 0
        invariant -1 <= index < MAX_ORDER && Built(index) && free == old(free)
        invariant index >= 0 ==> Pivot(kernelEnd, tmp, index)
        decreases index
      {
        NextPivot(kernelEnd, tmp, index);
        PivotList(kernelEnd, tmp, index);
        if tmp >= kernelEnd {
          SingletonList(index, tmp);
          index := index - 1;
          tmp := tmp - ShiftPage(index);
        } else {
          EmptyList(index);
          index := index - 1;
          tmp := tmp + ShiftPage(index);
        }
      }
    }

    /** `space[index].next = page; page->next = NULL`. */
    method SingletonList(index: nat, page: int)
      requires index <= MAX_ORDER && Built(index)
      requires 0 <= page < PAGES && CanonicalList([page], free, index)
      modifies this, link
      ensures Built(index - 1) && free == old(free)
    {
      assert page in [page];
      ghost var before := link[..];
      link[PAGES + index] := page;
      link[page] := NIL;
      lists := lists[index := [page]];
      assert link[..] == before[PAGES + index := page][page := NIL];
      forall k | index < k <= MAX_ORDER
        ensures Chain(link[..], k, lists[k])
      {
        ChainFrame(before, k, lists[k], PAGES + index, page);
        assert CanonicalList(lists[k], free, k);
        if page in lists[k] { MaximalDisjoint(free, page, index, page, k); }
        ChainFrame(before[PAGES + index := page], k, lists[k], page, NIL);
      }
    }

    /** `space[index].next = NULL`. */
    method EmptyList(index: nat)
      requires index <= MAX_ORDER && Built(index) && CanonicalList([], free, index)
      modifies this, link
      ensures Built(index - 1) && free == old(free)
    {
      ghost var before := link[..];
      link[PAGES + index] := NIL;
      lists := lists[index := []];
      assert link[..] == before[PAGES + index := NIL];
      forall k | index < k <= MAX_ORDER
        ensures Chain(link[..], k, lists[k])
      {
        ChainFrame(before, k, lists[k], PAGES + index, NIL);
      }
    }

    // ----- Pointer surgery -----

    /** Links the freed block in between `prev` and `next`, at position `i` of its list. */
    method Link(addr: int, power: nat, prev: int, next: int, ghost i: nat)
      requires Valid() && power <= MAX_ORDER && Releasable(free, kernelEnd, addr, power)
      requires i <= |lists[power]| && prev == NodeAt(power, lists[power], i) && next == NextAt(lists[power], i)
      requires Splits(lists[power], addr, i)
      requires BuddyOf(addr, power) !in lists[power]
      modifies this, link
      ensures Valid()
      ensures free == old(free) + Range(addr, power)
      ensures lists == old(lists)[power := InsertAt(old(lists[power]), i, addr)]
    {
      assert forall j :: 0 <= j <= MAX_ORDER ==> addr !in lists[j] by { NotListed(addr, power); }
      CanonicalSeparate(lists, free);
      InsertThreads(link[..], lists, power, i, addr);
      InsertCanonical(lists, free, power, i, addr);
      ghost var before := link[..];
      link[addr] := next;
      link[prev] := addr;
      assert link[..] == before[addr := next][prev := addr];
      lists := lists[power := InsertAt(lists[power], i, addr)];
      free := free + Range(addr, power);
    }

    lemma NotListed(addr: int, power: nat)
      requires Canonical(lists, free) && Range(addr, power) !! free
      ensures forall j :: 0 <= j <= MAX_ORDER ==> addr !in lists[j]
    {}

    /** Unlinks the block at position `i` of its list; `next` is the node after it. */
    method Unlink(power: nat, prev: int, next: int, ghost i: nat)
      requires Valid() && power <= MAX_ORDER && i < |lists[power]|
      requires prev == NodeAt(power, lists[power], i) && next == NextAt(lists[power], i + 1)
      modifies this, link
      ensures Valid()
      ensures Maximal(old(free), old(lists[power][i]), power)
      ensures free == old(free) - Range(old(lists[power][i]), power)
      ensures lists == old(lists)[power := RemoveAt(old(lists[power]), i)]
    {
      CanonicalSeparate(lists, free);
      RemoveThreads(link[..], lists, power, i);
      RemoveCanonical(lists, free, power, i);
      ghost var before := link[..];
      link[prev] := next;
      assert link[..] == before[prev := next];
      free := free - Range(lists[power][i], power);
      lists := lists[power := RemoveAt(lists[power], i)];
    }

    /** The field `next` of a node, at a known position of a list. */
    method Next(node: int, power: nat, ghost i: nat) returns (next: int)
      requires Valid() && power <= MAX_ORDER && i <= |lists[power]| && node == NodeAt(power, lists[power], i)
      ensures next == NextAt(lists[power], i)
      ensures next != NIL ==> 0 <= next < PAGES && next in lists[power] && Aligned(next, power)
      ensures next == NIL <==> i == |lists[power]|
    {
      assert Chain(link[..], power, lists[power]);
      assert CanonicalList(lists[power], free, power);
      next := link[..][node];
    }

    // ----- Allocation -----

    /** The first loop of `allocate`: unlinks the head of the first list that is not empty. */
    method TakeSmallest(power: nat) returns (addr: int, level: nat)
      requires Valid()
      modifies this, link
      ensures Valid() && power <= level
      ensures forall k :: power <= k < level && k <= MAX_ORDER ==> old(lists[k]) == []
      ensures addr == NIL ==> level > MAX_ORDER && free == old(free) && lists == old(lists)
      ensures addr != NIL ==>
        && level <= MAX_ORDER && old(lists[level]) != [] && addr == old(lists[level][0])
        && free == old(free) - Range(addr, level)
        && lists == old(lists)[level := old(lists[level])[1..]]
    {
      addr, level := NIL, power;
      while level <= MAX_ORDER
        invariant Valid() && free == old(free) && lists == old(lists)
        invariant addr == NIL && power <= level
        invariant forall k :: power <= k < level && k <= MAX_ORDER ==> lists[k] == []
        decreases MAX_ORDER + 1 - level
      {
        var first := Next(PAGES + level, level, 0);
        if first != NIL {
          addr := first;
          var second := Next(first, level, 1);
          assert RemoveAt(lists[level], 0) == lists[level][1..];
          Unlink(level, PAGES + level, second, 0);
          return;
        }
        level := level + 1;
      }
    }

    /** The second loop of `allocate`: gives the upper halves back, largest first. */
    method SplitDown(addr: int, power: nat, top: nat, ghost lists0: seq<seq<int>>, ghost free0: set<int>)
      requires Valid() && power <= top <= MAX_ORDER
      requires Aligned(addr, top) && WhollyFree(free0, addr, top) && InPool(free0, kernelEnd)
      requires free == free0 - Range(addr, top)
      requires |lists0| == MAX_ORDER + 1 && lists0[top] != []
      requires forall k :: power <= k < top ==> lists0[k] == []
      requires lists == SplitLists(lists0, top, top, addr)
      modifies this, link
      ensures Valid()
      ensures free == free0 - Range(addr, power)
      ensures lists == SplitLists(lists0, power, top, addr)
    {
      var level := top;
      while level > power
        invariant power <= level <= top && Valid()
        invariant free == free0 - Range(addr, level)
        invariant lists == SplitLists(lists0, level, top, addr)
        decreases level - power
      {
        level := level - 1;
        var rest := addr + Pow2(level);
        UpperHalf(free0, kernelEnd, addr, level, top);
        // The list of the half given back is empty, so nothing merges.
        assert lists[level] == [];
        Deallocate(rest, level);
        assert lists == SplitLists(lists0, level, top, addr);
      }
    }

    method Allocate(power: nat) returns (addr: int)
      requires Valid()
      modifies this, link
      ensures Valid()
      ensures addr == NIL <==> forall p :: Aligned(p, power) ==> !WhollyFree(old(free), p, power)
      ensures addr == NIL ==> free == old(free) && lists == old(lists)
      ensures addr != NIL ==>
        && Aligned(addr, power) && WhollyFree(old(free), addr, power)
        && free == old(free) - Range(addr, power)
      ensures addr != NIL ==> exists level: nat ::
        && BestFit(old(free), power, addr, level)
        && old(lists[level]) != []
        && lists == SplitLists(old(lists), power, level, addr)
    {
      FreeRunIffListed(lists, free, kernelEnd, power);
      ghost var lists0, free0 := lists, free;
      var level;
      addr, level := TakeSmallest(power);
      if addr == NIL {
        return;
      }
      HeadIsBestFit(lists0, free0, power, level);
      FirstPart(free0, addr, power, level);
      assert lists == SplitLists(lists0, level, level, addr);
      SplitDown(addr, power, level, lists0, free0);
    }

    // ----- Release -----

    method Deallocate(addr: int, power: nat)
      requires Valid()
      requires addr != NIL ==> Releasable(free, kernelEnd, addr, power)
      modifies this, link
      ensures Valid()
      ensures addr == NIL ==> free == old(free) && lists == old(lists)
      ensures addr != NIL ==> free == old(free) + Range(addr, power)
      ensures addr != NIL ==> power < MAX_ORDER
      ensures addr != NIL && old(lists[power]) == [] ==> lists == old(lists)[power := [addr]]
      decreases MAX_ORDER - power
    {
      if addr == NIL {
        return;
      }
      ReleasableOrder(free, kernelEnd, addr, power);
      var first := Next(PAGES + power, power, 0);
      if first == NIL {
        assert InsertAt([], 0, addr) == [addr];
        Link(addr, power, PAGES + power, NIL, 0);
        return;
      }
      if Tagged(addr, power) {
        ReleaseTagged(addr, power, first);
      } else {
        ReleaseUntagged(addr, power, first);
      }
    }

    /** The search loop for a tagged block: `prev` is the last block below `addr`. */
    method SeekBelow(addr: int, power: nat, first: int, second: int)
        returns (prevPrev: int, prev: int, next: int, ghost i: nat)
      requires Valid() && power <= MAX_ORDER && Range(addr, power) !! free
      requires lists[power] != [] && first == lists[power][0] && first < addr && second == NextAt(lists[power], 1)
      ensures 1 <= i <= |lists[power]|
      ensures prevPrev == NodeAt(power, lists[power], i - 1) && prev == NodeAt(power, lists[power], i)
      ensures next == NextAt(lists[power], i)
      ensures Splits(lists[power], addr, i)
    {
      ghost var list := lists[power];
      NotListed(addr, power);
      assert CanonicalList(list, free, power);
      assert Chain(link[..], power, list);
      prevPrev, prev, next := PAGES + power, first, second;
      i := 1;
      while next != NIL && addr > next
        invariant 1 <= i <= |list| && list[i - 1] < addr
        invariant prevPrev == NodeAt(power, list, i - 1) && prev == NodeAt(power, list, i)
        invariant next == NextAt(list, i)
        decreases |list| - i
      {
        prevPrev, prev := prev, next;
        i := i + 1;
        next := Next(next, power, i);
      }
      assert i < |list| ==> list[i] in list;
    }

    /** The search loop for an untagged block: `next` is the first block above `addr`. */
    method SeekAbove(addr: int, power: nat, first: int) returns (prev: int, next: int, ghost i: nat)
      requires Valid() && power <= MAX_ORDER && Range(addr, power) !! free
      requires lists[power] != [] && first == lists[power][0]
      ensures i <= |lists[power]|
      ensures prev == NodeAt(power, lists[power], i) && next == NextAt(lists[power], i)
      ensures Splits(lists[power], addr, i)
    {
      ghost var list := lists[power];
      NotListed(addr, power);
      assert CanonicalList(list, free, power);
      assert Chain(link[..], power, list);
      prev, next, i := PAGES + power, first, 0;
      while next != NIL && next < addr
        invariant 0 <= i <= |list| && (i > 0 ==> list[i - 1] < addr)
        invariant prev == NodeAt(power, list, i) && next == NextAt(list, i)
        decreases |list| - i
      {
        prev := next;
        i := i + 1;
        next := Next(next, power, i);
      }
      assert i < |list| ==> list[i] in list;
    }

    /** Takes the free buddy off its list and releases the two blocks as one. */
    method Merge(addr: int, power: nat, prev: int, next: int, ghost i: nat)
      requires Valid() && power < MAX_ORDER && Releasable(free, kernelEnd, addr, power)
      requires i < |lists[power]| && lists[power][i] == BuddyOf(addr, power)
      requires prev == NodeAt(power, lists[power], i) && next == NextAt(lists[power], i + 1)
      modifies this, link
      ensures Valid() && free == old(free) + Range(addr, power)
      decreases MAX_ORDER - power, 0
    {
      Unlink(power, prev, next, i);
      Joined(old(free), kernelEnd, addr, power);
      Deallocate(RemoveTag(addr, power), power + 1);
    }

    /** The buddy, if free, is the last block below `addr` on the list. */
    method ReleaseTagged(addr: int, power: nat, first: int)
      requires Valid() && power < MAX_ORDER && Releasable(free, kernelEnd, addr, power) && Tagged(addr, power)
      requires lists[power] != [] && first == lists[power][0]
      modifies this, link
      ensures Valid() && free == old(free) + Range(addr, power)
      decreases MAX_ORDER - power, 1
    {
      var second := Next(first, power, 1);
      if addr < first {
        BuddyBelow(lists[power], addr, power, 0);
        Link(addr, power, PAGES + power, first, 0);
        return;
      }
      NotListed(addr, power);
      assert first in lists[power];
      var prevPrev, prev, next, i := SeekBelow(addr, power, first, second);
      BuddyBelow(lists[power], addr, power, i);
      if RemoveTag(addr, power) == prev {
        Merge(addr, power, prevPrev, next, i - 1);
      } else {
        Link(addr, power, prev, next, i);
      }
    }

    /** The buddy, if free, is the first block above `addr` on the list. */
    method ReleaseUntagged(addr: int, power: nat, first: int)
      requires Valid() && power < MAX_ORDER && Releasable(free, kernelEnd, addr, power) && !Tagged(addr, power)
      requires lists[power] != [] && first == lists[power][0]
      modifies this, link
      ensures Valid() && free == old(free) + Range(addr, power)
      decreases MAX_ORDER - power, 1
    {
      var prev, next, i := SeekAbove(addr, power, first);
      BuddyAbove(lists[power], addr, power, i);
      if next != NIL && addr == RemoveTag(next, power) {
        var nextNext := Next(next, power, i + 1);
        Merge(addr, power, prev, nextNext, i);
      } else {
        Link(addr, power, prev, next, i);
      }
    }
  }

  // ----- Initialisation: the binary search for the end of the kernel -----

  /** `PAGE_SIZE << index`, in pages. Nothing reads the result of the shift by -1. */
  function ShiftPage(index: int): nat {
    if index < 0 then 0 else Pow2(index)
  }

  /** `tmp` is the tagged block boundary of its order next to the end of the kernel. */
  ghost predicate Pivot(kernelEnd: int, tmp: int, index: nat) {
    && index < MAX_ORDER
    && Aligned(tmp, index) && Tagged(tmp, index)
    && 0 <= tmp - Pow2(index) < kernelEnd <= tmp + Pow2(index) <= PAGES
  }

  lemma FirstPivot(kernelEnd: int, index: nat)
    requires 1 <= kernelEnd <= 2 * Pow2(index) && index < MAX_ORDER
    ensures Pivot(kernelEnd, Pow2(index), index)
    ensures kernelEnd <= Pow2(index) ==> CanonicalList([Pow2(index)], Span(kernelEnd, PAGES - kernelEnd), index)
  {
    PagesIsPow2();
    Pow2Monotone(index, MAX_ORDER);
    DivModUnique(Pow2(index), Pow2(index), 1, 0);
    PivotList(kernelEnd, Pow2(index), index);
  }

  lemma NextPivot(kernelEnd: int, tmp: int, index: nat)
    requires Pivot(kernelEnd, tmp, index)
    ensures index > 0 && kernelEnd <= tmp ==> Pivot(kernelEnd, tmp - Pow2(index - 1), index - 1)
    ensures index > 0 && tmp < kernelEnd ==> Pivot(kernelEnd, tmp + Pow2(index - 1), index - 1)
  {
    if index > 0 {
      var m := Pow2(index - 1);
      assert Pow2(index) == 2 * m;
      var h := tmp / (2 * m);
      WholeMultiple(tmp, 2 * m);
      HalfForm(h, m, tmp);
      OneLess(h, m, tmp);
      HalfForm(h - 1, m, tmp - 2 * m);
    }
  }

  lemma WholeMultiple(x: int, n: int)
    requires n > 0 && x % n == 0
    ensures x == x / n * n
  {}

  lemma OneLess(h: int, m: int, x: int)
    requires x == h * (2 * m)
    ensures x - 2 * m == (h - 1) * (2 * m)
  {}

  /** At each order the pages after the kernel hold at most one maximal block: the pivot. */
  lemma PivotList(kernelEnd: int, tmp: int, index: nat)
    requires Pivot(kernelEnd, tmp, index)
    ensures CanonicalList(if kernelEnd <= tmp then [tmp] else [], Span(kernelEnd, PAGES - kernelEnd), index)
  {
    var free := Span(kernelEnd, PAGES - kernelEnd);
    forall p
      ensures Maximal(free, p, index) <==> p == tmp && kernelEnd <= tmp
    {
      ParentAligned(tmp, index);
      if p == tmp && kernelEnd <= tmp {
        assert WhollyFree(free, p, index);
        assert RemoveTag(tmp, index) in Range(RemoveTag(tmp, index), index + 1);
      } else if Aligned(p, index) && WhollyFree(free, p, index) {
        AbovePivot(kernelEnd, tmp, index, p);
      }
    }
  }

  lemma AbovePivot(kernelEnd: int, tmp: int, index: nat, p: int)
    requires Pivot(kernelEnd, tmp, index) && Aligned(p, index)
    requires WhollyFree(Span(kernelEnd, PAGES - kernelEnd), p, index) && !(p == tmp && kernelEnd <= tmp)
    ensures WhollyFree(Span(kernelEnd, PAGES - kernelEnd), RemoveTag(p, index), index + 1)
  {
    var m := Pow2(index);
    assert p in Range(p, index) && p + m - 1 in Range(p, index);
    assert kernelEnd <= p;
    if p < tmp {
      MultiplesApart(p, tmp, m);
      assert false;
    }
    assert tmp < p;
    MultiplesApart(tmp, p, m);
    ParentAligned(p, index);
    ParentAligned(tmp, index);
    var q := RemoveTag(p, index);
    MultiplesApart(tmp - m, q, Pow2(index + 1));
    PagesIsPow2();
    SizeAligned(index + 1, MAX_ORDER);
    MultiplesApart(q, PAGES, Pow2(index + 1));
  }

  lemma TopListEmpty(kernelEnd: int)
    requires 1 <= kernelEnd <= PAGES
    ensures CanonicalList([], Span(kernelEnd, PAGES - kernelEnd), MAX_ORDER)
  {
    var free := Span(kernelEnd, PAGES - kernelEnd);
    forall p
      ensures !Maximal(free, p, MAX_ORDER)
    {
      if Maximal(free, p, MAX_ORDER) {
        OrderBounded(free, kernelEnd, p, MAX_ORDER);
      }
    }
  }

  lemma HeadIsBestFit(lists: seq<seq<int>>, free: set<int>, power: nat, level: nat)
    requires Canonical(lists, free) && power <= level <= MAX_ORDER && lists[level] != []
    requires forall k :: power <= k < level ==> lists[k] == []
    ensures BestFit(free, power, lists[level][0], level)
  {
    assert lists[level][0] in lists[level];
    forall k: nat, q | power <= k < level
      ensures !Maximal(free, q, k)
    {
      assert CanonicalList(lists[k], free, k);
    }
  }

  lemma FirstPart(free: set<int>, addr: int, power: nat, level: nat)
    requires power <= level && Aligned(addr, level) && WhollyFree(free, addr, level)
    ensures Aligned(addr, power) && WhollyFree(free, addr, power)
  {
    AlignedDown(addr, power, level);
    Pow2Monotone(power, level);
  }

  /** The upper half of a block that is being split can be given back. */
  lemma UpperHalf(free: set<int>, kernelEnd: int, addr: int, level: nat, top: nat)
    requires InPool(free, kernelEnd) && level < top && Aligned(addr, top) && WhollyFree(free, addr, top)
    ensures Releasable(free - Range(addr, level + 1), kernelEnd, addr + Pow2(level), level)
    ensures free - Range(addr, level + 1) + Range(addr + Pow2(level), level) == free - Range(addr, level)
    ensures addr + Pow2(level) != NIL
  {
    OrderBounded(free, kernelEnd, addr, top);
    assert addr in Range(addr, top);
    Pow2Monotone(level + 1, top);
    AlignedDown(addr, level, top);
    SizeAligned(level, level);
    MultipleOfSum(addr, Pow2(level), Pow2(level));
    assert Range(addr, level + 1) == Range(addr, level) + Range(addr + Pow2(level), level);
  }

  /** A releasable block has order 14 at most: order 15 would include the kernel itself. */
  lemma ReleasableOrder(free: set<int>, kernelEnd: int, addr: int, power: nat)
    requires InPool(free, kernelEnd) && Releasable(free, kernelEnd, addr, power)
    ensures power < MAX_ORDER
  {
    OrderBounded(free + Range(addr, power), kernelEnd, addr, power);
  }

  /** Position `i` separates the blocks below `addr` from those above it. */
  ghost predicate Splits(list: seq<int>, addr: int, i: nat) {
    && i <= |list|
    && (forall j :: 0 <= j < i ==> list[j] < addr)
    && (forall j :: i <= j < |list| ==> addr < list[j])
  }

  /** On a sorted list of aligned blocks, the buddy of a tagged block can only be the last
      element below it. */
  lemma BuddyBelow(list: seq<int>, addr: int, power: nat, i: nat)
    requires StrictlySorted(list) && Aligned(addr, power) && Tagged(addr, power) && i <= |list|
    requires forall p :: p in list ==> Aligned(p, power)
    requires Splits(list, addr, i)
    ensures BuddyOf(addr, power) in list <==> i > 0 && list[i - 1] == RemoveTag(addr, power)
  {
    var b := BuddyOf(addr, power);
    if b in list {
      var n :| 0 <= n < |list| && list[n] == b;
      if n < i - 1 {
        assert list[i - 1] in list;
        ParentAligned(addr, power);
        MultiplesApart(b, list[i - 1], Pow2(power));
        assert false;
      }
    }
  }

  /** The buddy of an untagged block can only be the first element above it. */
  lemma BuddyAbove(list: seq<int>, addr: int, power: nat, i: nat)
    requires StrictlySorted(list) && Aligned(addr, power) && !Tagged(addr, power) && i <= |list|
    requires forall p :: p in list ==> Aligned(p, power)
    requires Splits(list, addr, i)
    ensures BuddyOf(addr, power) in list <==> i < |list| && addr == RemoveTag(list[i], power)
  {
    var b := BuddyOf(addr, power);
    ParentAligned(addr, power);
    if b in list {
      var n :| 0 <= n < |list| && list[n] == b;
      if i < n {
        assert list[i] in list;
        MultiplesApart(addr, list[i], Pow2(power));
        assert false;
      }
    }
    if i < |list| && addr == RemoveTag(list[i], power) {
      assert list[i] in list && list[i] == b;
    }
  }

  /** A freed block and its free buddy are together the parent block, ready for release. */
  lemma Joined(free: set<int>, kernelEnd: int, addr: int, power: nat)
    requires InPool(free, kernelEnd) && Releasable(free, kernelEnd, addr, power)
    requires Maximal(free, BuddyOf(addr, power), power)
    ensures Releasable(free - Range(BuddyOf(addr, power), power), kernelEnd, RemoveTag(addr, power), power + 1)
    ensures free - Range(BuddyOf(addr, power), power) + Range(RemoveTag(addr, power), power + 1)
         == free + Range(addr, power)
  {
    var b := BuddyOf(addr, power);
    ParentAligned(addr, power);
    OrderBounded(free, kernelEnd, b, power);
    assert Range(RemoveTag(addr, power), power + 1) == Range(addr, power) + Range(b, power);
    assert b in Range(b, power);
  }
}

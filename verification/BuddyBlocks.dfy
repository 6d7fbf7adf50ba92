/** Buddy blocks and the canonical free lists of a set of free pages.

    Pages are numbered from `KERNEL_START`. A block of order `k` is an aligned run of
    `2^k` pages. A block is *maximal* in a set of free pages when it is wholly free and
    its parent, the aligned block twice the size around it, is not. The free lists of
    kernel/mem_manage.c are exactly the maximal blocks, list by list, in address order. */
module BuddyBlocks {
  import opened Bits

  const MAX_ORDER: nat := 15      // BUDDY_MAX_ORDER
  const PAGES: nat := 32768       // KERNEL_MEM_SIZE / PAGE_SIZE

  lemma PagesIsPow2()
    ensures Pow2(MAX_ORDER) == PAGES && MAX_ORDER == 15 && PAGES * 4096 == 0x800_0000
  {
    assert Pow2(8) == 256 by { assert Pow2(4) == 16; }
    Pow2Add(8, 7);
    assert Pow2(7) == 128 by { assert Pow2(3) == 8; }
  }

  predicate Aligned(p: int, k: nat) {
    p % Pow2(k) == 0
  }

  /** The `n` pages from page `p` on. */
  function Span(p: int, n: nat): (r: set<int>)
    ensures forall q :: q in r <==> p <= q < p + n
  {
    if n == 0 then {} else Span(p, n - 1) + {p + n - 1}
  }

  function Range(p: int, k: nat): (r: set<int>)
    ensures forall q :: q in r <==> p <= q < p + Pow2(k)
  {
    Span(p, Pow2(k))
  }

  /** The tag bit of a block: the bit of its page number that tells it from its buddy. */
  predicate Tagged(p: int, k: nat) {
    (p / Pow2(k)) % 2 == 1
  }

  /** `remove_tag`: the first page of the parent block. */
  function RemoveTag(p: int, k: nat): int {
    if Tagged(p, k) then p - Pow2(k) else p
  }

  function BuddyOf(p: int, k: nat): int {
    if Tagged(p, k) then p - Pow2(k) else p + Pow2(k)
  }

  ghost predicate WhollyFree(free: set<int>, p: int, k: nat) {
    Range(p, k) <= free
  }

  ghost predicate Maximal(free: set<int>, p: int, k: nat) {
    && Aligned(p, k)
    && WhollyFree(free, p, k)
    && !WhollyFree(free, RemoveTag(p, k), k + 1)
  }

  predicate StrictlySorted(s: seq<int>) {
    forall i, j :: 0 <= i < j < |s| ==> s[i] < s[j]
  }

  ghost predicate CanonicalList(list: seq<int>, free: set<int>, k: nat) {
    && StrictlySorted(list)
    && forall p :: p in list <==> Maximal(free, p, k)
  }

  /** The invariant behind every theorem about the allocator. */
  ghost predicate Canonical(lists: seq<seq<int>>, free: set<int>) {
    && |lists| == MAX_ORDER + 1
    && forall k :: 0 <= k <= MAX_ORDER ==> CanonicalList(lists[k], free, k)
  }

  // ----- Alignment -----

  /** Distinct multiples of `m` are at least `m` apart. */
  lemma MultiplesApart(x: int, y: int, m: int)
    requires m > 0 && x % m == 0 && y % m == 0 && x < y
    ensures x + m <= y
  {
    var a, b := x / m, y / m;
    assert x == a * m && y == b * m;
    if a >= b {
      Mono(b, a, m);
      assert false;
    } else {
      Mono(a + 1, b, m);
    }
  }

  lemma MultipleOfSum(x: int, y: int, m: int)
    requires m > 0 && x % m == 0 && y % m == 0
    ensures (x + y) % m == 0 && (x - y) % m == 0
  {
    var a, b := x / m, y / m;
    assert x == a * m && y == b * m;
    assert x + y == (a + b) * m + 0;
    DivModUnique(x + y, m, a + b, 0);
    assert x - y == (a - b) * m + 0;
    DivModUnique(x - y, m, a - b, 0);
  }

  lemma {:induction false} AlignedDown(p: int, j: nat, k: nat)
    requires j <= k && Aligned(p, k)
    ensures Aligned(p, j)
    decreases k - j
  {
    if j < k {
      var m := Pow2(k - 1);
      var c := p / Pow2(k);
      assert p == c * Pow2(k);
      assert p == (2 * c) * m + 0;
      DivModUnique(p, m, 2 * c, 0);
      AlignedDown(p, j, k - 1);
    }
  }

  lemma SizeAligned(j: nat, k: nat)
    requires j <= k
    ensures Aligned(Pow2(k), j)
  {
    DivModUnique(Pow2(k), Pow2(k), 1, 0);
    AlignedDown(Pow2(k), j, k);
  }

  /** The parent of a block is aligned to the next order and holds the block and its buddy. */
  lemma ParentAligned(p: int, k: nat)
    requires Aligned(p, k)
    ensures Aligned(RemoveTag(p, k), k + 1)
    ensures Tagged(p, k) <==> !Aligned(p, k + 1)
    ensures RemoveTag(p, k) <= p && p + Pow2(k) <= RemoveTag(p, k) + Pow2(k + 1)
    ensures Aligned(BuddyOf(p, k), k) && Tagged(BuddyOf(p, k), k) == !Tagged(p, k)
    ensures RemoveTag(BuddyOf(p, k), k) == RemoveTag(p, k)
  {
    var m := Pow2(k);
    var h := HalfIndex(p, k);
    if Tagged(p, k) {
      DivModUnique(p, 2 * m, h, m);
      DivModUnique(p - m, 2 * m, h, 0);
      HalfForm(h, m, p - m);
    } else {
      DivModUnique(p, 2 * m, h, 0);
      HalfForm(h, m, p);
    }
  }

  lemma HalfIndex(p: int, k: nat) returns (h: int)
    requires Aligned(p, k)
    ensures p == h * (2 * Pow2(k)) + if Tagged(p, k) then Pow2(k) else 0
  {
    var m := Pow2(k);
    var c := p / m;
    h := c / 2;
    assert p == c * m;
    if Tagged(p, k) {
      assert c == 2 * h + 1;
    } else {
      assert c == 2 * h;
    }
  }

  lemma HalfForm(h: int, m: int, p: int)
    requires m > 0 && p == h * (2 * m)
    ensures p % m == 0 && (p / m) % 2 == 0
    ensures (p + m) % m == 0 && ((p + m) / m) % 2 == 1
  {
    assert p == (2 * h) * m + 0;
    DivModUnique(p, m, 2 * h, 0);
    assert p + m == (2 * h + 1) * m + 0;
    DivModUnique(p + m, m, 2 * h + 1, 0);
  }

  /** Two blocks that overlap are nested. */
  lemma Nested(p: int, j: nat, q: int, k: nat, x: int)
    requires j <= k && Aligned(p, j) && Aligned(q, k)
    requires p <= x < p + Pow2(j) && q <= x < q + Pow2(k)
    ensures q <= p && p + Pow2(j) <= q + Pow2(k)
    ensures j == k ==> p == q
  {
    AlignedDown(q, j, k);
    SizeAligned(j, k);
    MultipleOfSum(q, Pow2(k), Pow2(j));
    if p < q {
      MultiplesApart(p, q, Pow2(j));
      assert false;
    }
    MultiplesApart(p, q + Pow2(k), Pow2(j));
    if j == k && q < p {
      MultiplesApart(q, p, Pow2(j));
      assert false;
    }
  }

  // ----- Maximal blocks -----

  /** A wholly free block that overlaps a maximal block lies inside it. */
  lemma FreeInsideMaximal(free: set<int>, p: int, j: nat, q: int, k: nat, x: int)
    requires Aligned(p, j) && WhollyFree(free, p, j) && Maximal(free, q, k)
    requires p <= x < p + Pow2(j) && q <= x < q + Pow2(k)
    ensures j <= k && q <= p && p + Pow2(j) <= q + Pow2(k)
  {
    if j <= k {
      Nested(p, j, q, k, x);
    } else {
      ParentAligned(q, k);
      Nested(RemoveTag(q, k), k + 1, p, j, x);
      assert false;
    }
  }

  /** Two different maximal blocks, of whatever orders, share no page. */
  lemma MaximalDisjoint(free: set<int>, p: int, j: nat, q: int, k: nat)
    requires Maximal(free, p, j) && Maximal(free, q, k) && !(p == q && j == k)
    ensures Range(p, j) !! Range(q, k)
  {
    forall x | x in Range(p, j) && x in Range(q, k)
      ensures false
    {
      FreeInsideMaximal(free, p, j, q, k, x);
      FreeInsideMaximal(free, q, k, p, j, x);
      Nested(p, j, q, k, x);
    }
  }

  /** Taking one maximal block out of the free set takes that block, and only that block,
      out of the maximal blocks. Read backwards, this is insertion without a merge. */
  lemma WithoutMaximal(free: set<int>, b: int, kb: nat)
    requires Maximal(free, b, kb)
    ensures forall p, k: nat :: Maximal(free - Range(b, kb), p, k) <==> Maximal(free, p, k) && !(p == b && k == kb)
  {
    var rest := free - Range(b, kb);
    forall p, k: nat
      ensures Maximal(rest, p, k) <==> Maximal(free, p, k) && !(p == b && k == kb)
    {
      if Maximal(rest, p, k) {
        StillMaximal(free, b, kb, p, k);
        assert p !in Range(b, kb);
      }
      if Maximal(free, p, k) && !(p == b && k == kb) {
        MaximalDisjoint(free, p, k, b, kb);
        assert WhollyFree(rest, p, k);
      }
    }
  }

  lemma StillMaximal(free: set<int>, b: int, kb: nat, p: int, k: nat)
    requires Maximal(free, b, kb) && Maximal(free - Range(b, kb), p, k)
    ensures Maximal(free, p, k)
  {
    var rest := free - Range(b, kb);
    var parent := RemoveTag(p, k);
    ParentAligned(p, k);
    if WhollyFree(free, parent, k + 1) {
      var x :| x in Range(parent, k + 1) && x !in rest;
      FreeInsideMaximal(free, parent, k + 1, b, kb, x);
      assert false;
    }
  }

  /** A freed block whose buddy is not on its list becomes a maximal block of its own. */
  lemma BecomesMaximal(free: set<int>, a: int, k: nat)
    requires Aligned(a, k) && Range(a, k) !! free && !Maximal(free, BuddyOf(a, k), k)
    ensures Maximal(free + Range(a, k), a, k)
    ensures free + Range(a, k) - Range(a, k) == free
  {
    var b := BuddyOf(a, k);
    ParentAligned(a, k);
    var parent := RemoveTag(a, k);
    assert !WhollyFree(free, parent, k + 1) by {
      assert a in Range(a, k);
      assert a in Range(parent, k + 1) && a !in free;
    }
    assert !WhollyFree(free, b, k);
    var x :| x in Range(b, k) && x !in free;
    assert x in Range(parent, k + 1) && x !in free + Range(a, k);
  }

  // ----- Climbing from a free block to the maximal block around it -----

  ghost predicate InPool(free: set<int>, kernelEnd: int) {
    && 1 <= kernelEnd <= PAGES
    && forall q :: q in free ==> kernelEnd <= q < PAGES
  }

  /** No wholly free block has order 15: it would hold the kernel's own pages. */
  lemma OrderBounded(free: set<int>, kernelEnd: int, p: int, k: nat)
    requires InPool(free, kernelEnd) && Aligned(p, k) && WhollyFree(free, p, k)
    ensures k < MAX_ORDER && 0 < p && p + Pow2(k) <= PAGES
  {
    assert p in Range(p, k) && p + Pow2(k) - 1 in Range(p, k);
    if k >= MAX_ORDER {
      PagesIsPow2();
      Pow2Monotone(MAX_ORDER, k);
      assert false;
    }
  }

  /** Every wholly free block lies inside a maximal block. */
  lemma {:induction false} Climb(free: set<int>, kernelEnd: int, p: int, k: nat) returns (q: int, j: nat)
    requires InPool(free, kernelEnd) && Aligned(p, k) && WhollyFree(free, p, k)
    ensures k <= j < MAX_ORDER && Maximal(free, q, j)
    ensures q <= p && p + Pow2(k) <= q + Pow2(j)
    decreases MAX_ORDER - k
  {
    OrderBounded(free, kernelEnd, p, k);
    if Maximal(free, p, k) {
      q, j := p, k;
    } else {
      ParentAligned(p, k);
      q, j := Climb(free, kernelEnd, RemoveTag(p, k), k + 1);
    }
  }

  /** A block of order `k` can be carved out of the free pages exactly when some list of
      order `k` or more is not empty. */
  lemma FreeRunIffListed(lists: seq<seq<int>>, free: set<int>, kernelEnd: int, k: nat)
    requires Canonical(lists, free) && InPool(free, kernelEnd)
    ensures (exists p :: Aligned(p, k) && WhollyFree(free, p, k)) <==>
            (exists j :: k <= j <= MAX_ORDER && lists[j] != [])
  {
    if p :| Aligned(p, k) && WhollyFree(free, p, k) {
      var q, j := Climb(free, kernelEnd, p, k);
      assert q in lists[j];
      assert k <= j <= MAX_ORDER && lists[j] != [];
    }
    if j :| k <= j <= MAX_ORDER && lists[j] != [] {
      var q := lists[j][0];
      assert q in lists[j];
      AlignedDown(q, k, j);
      Pow2Monotone(k, j);
      assert Aligned(q, k) && WhollyFree(free, q, k);
    }
  }

  // ----- The canonical form -----

  /** The list of order `k` computed from the free set alone, up to page `n`. */
  ghost function MaximalUpTo(free: set<int>, k: nat, n: nat): seq<int> {
    if n == 0 then []
    else MaximalUpTo(free, k, n - 1) + if Maximal(free, n - 1, k) then [n - 1] else []
  }

  /** The sixteen lists as a function of the free set. */
  ghost function ListsOf(free: set<int>): seq<seq<int>> {
    seq(MAX_ORDER + 1, k requires 0 <= k => MaximalUpTo(free, k, PAGES))
  }

  lemma {:induction false} MaximalUpToIsSorted(free: set<int>, k: nat, n: nat)
    ensures StrictlySorted(MaximalUpTo(free, k, n))
    ensures forall p :: p in MaximalUpTo(free, k, n) <==> 0 <= p < n && Maximal(free, p, k)
  {
    if n == 0 {
    } else {
      MaximalUpToIsSorted(free, k, n - 1);
      var s := MaximalUpTo(free, k, n - 1);
      assert forall i :: 0 <= i < |s| ==> s[i] in s;
    }
  }

  /** Strictly sorted sequences with the same members are equal. */
  lemma {:induction false} SortedUnique(s: seq<int>, t: seq<int>)
    requires StrictlySorted(s) && StrictlySorted(t)
    requires forall p :: p in s <==> p in t
    ensures s == t
    decreases |s|
  {
    assert s != [] ==> s[0] in s && s[0] in t;
    assert t != [] ==> t[0] in t && t[0] in s;
    if s == [] {
    } else {
      var x, y := s[|s| - 1], t[|t| - 1];
      assert x in t && y in s;
      assert x == y;
      var s', t' := s[..|s| - 1], t[..|t| - 1];
      forall p
        ensures p in s' <==> p in t'
      {
        if p in s' { assert p in s && p != x; assert p in t; }
        if p in t' { assert p in t && p != y; assert p in s; }
      }
      SortedUnique(s', t');
      assert s == s' + [x] && t == t' + [y];
    }
  }

  /** Canonical form: the free set alone determines all sixteen lists. */
  lemma CanonicalForm(lists: seq<seq<int>>, free: set<int>, kernelEnd: int)
    requires Canonical(lists, free) && InPool(free, kernelEnd)
    ensures lists == ListsOf(free)
  {
    forall k | 0 <= k <= MAX_ORDER
      ensures lists[k] == MaximalUpTo(free, k, PAGES)
    {
      MaximalUpToIsSorted(free, k, PAGES);
      forall p
        ensures p in lists[k] <==> p in MaximalUpTo(free, k, PAGES)
      {
        if Maximal(free, p, k) { OrderBounded(free, kernelEnd, p, k); }
      }
      SortedUnique(lists[k], MaximalUpTo(free, k, PAGES));
    }
  }
}

/** How far the free pages go. Only pages and pairs of pages are ever asked for by the memory code, so two numbers
    decide which requests are met: how many aligned pairs are free, and how many free pages have a neighbour in use. */
module Supply {
  import opened Bits
  import opened BuddyBlocks
  import opened BuddyPool
  import opened Sv39
  import opened PageTables

  // ----- Pairs and lone pages -----

  datatype Stock = Stock(pairs: nat, lones: nat)

  function Neighbour(n: int): int {
    if n % 2 == 0 then n + 1 else n - 1
  }

  /** The first pages of the aligned pairs that are free. */
  ghost function PairSet(free: set<int>): set<int> {
    set n | n in free && StartsPair(free, n)
  }

  ghost predicate StartsPair(free: set<int>, n: int) {
    n % 2 == 0 && n in free && n + 1 in free
  }

  /** The free pages whose neighbour is not. */
  ghost function LoneSet(free: set<int>): set<int> {
    set n | n in free && Neighbour(n) !in free
  }

  ghost function StockOf(free: set<int>): Stock {
    Stock(|PairSet(free)|, |LoneSet(free)|)
  }

  lemma NothingInStock(free: set<int>)
    ensures StockOf(free) == Stock(0, 0) <==> free == {}
  {
    if n :| n in free {
      assert n in LoneSet(free) || n in PairSet(free) || n - 1 in PairSet(free);
    }
  }

  lemma NoPairs(free: set<int>)
    ensures StockOf(free).pairs == 0 <==> forall n :: !StartsPair(free, n)
  {
    if PairSet(free) == {} {
      assert forall n :: StartsPair(free, n) ==> n in PairSet(free);
    } else {
      var n :| n in PairSet(free);
      assert StartsPair(free, n);
    }
  }

  lemma LonePageTaken(free: set<int>, n: int)
    requires n in free && Neighbour(n) !in free
    ensures StockOf(free).lones > 0
    ensures StockOf(free - {n}) == Stock(StockOf(free).pairs, StockOf(free).lones - 1)
  {
    assert PairSet(free - {n}) == PairSet(free);
    assert n in LoneSet(free) && LoneSet(free - {n}) == LoneSet(free) - {n};
  }

  lemma PairBroken(free: set<int>, n: int)
    requires n in free && Neighbour(n) in free
    ensures StockOf(free).pairs > 0
    ensures StockOf(free - {n}) == Stock(StockOf(free).pairs - 1, StockOf(free).lones + 1)
  {
    var first := if n % 2 == 0 then n else n - 1;
    PairSetWithout(free, n, first);
    assert LoneSet(free - {n}) == LoneSet(free) + {Neighbour(n)} && Neighbour(n) !in LoneSet(free);
  }

  lemma PairSetWithout(free: set<int>, n: int, first: int)
    requires n in free && Neighbour(n) in free && first == if n % 2 == 0 then n else n - 1
    ensures first in PairSet(free) && PairSet(free - {n}) == PairSet(free) - {first}
  {}

  lemma PairTaken(free: set<int>, n: int)
    requires n % 2 == 0 && n in free && n + 1 in free
    ensures StockOf(free).pairs > 0
    ensures StockOf(free - {n} - {n + 1}) == Stock(StockOf(free).pairs - 1, StockOf(free).lones)
  {
    assert n in PairSet(free);
    assert PairSet(free - {n} - {n + 1}) == PairSet(free) - {n};
    assert LoneSet(free - {n} - {n + 1}) == LoneSet(free);
  }

  // ----- Requests -----

  /** So many requests for a page and so many for a pair can be met, in any order. */
  predicate Enough(s: Stock, ones: nat, twos: nat) {
    twos <= s.pairs && ones <= s.lones + 2 * (s.pairs - twos)
  }

  /** What is left: a pair is only broken when there is no lone page. */
  function Spent(s: Stock, ones: nat, twos: nat): Stock {
    if !Enough(s, ones, twos) then Stock(0, 0)
    else if ones <= s.lones then Stock(s.pairs - twos, s.lones - ones)
    else
      var rest := 2 * (s.pairs - twos) + s.lones - ones;
      Stock(rest / 2, rest % 2)
  }

  /** Requests one after the other are as good as all at once, in any order. */
  lemma EnoughTwice(s: Stock, a: nat, b: nat, c: nat, d: nat)
    ensures Enough(s, a + c, b + d) <==> Enough(s, a, b) && Enough(Spent(s, a, b), c, d)
    ensures Enough(s, a + c, b + d) ==> Spent(s, a + c, b + d) == Spent(Spent(s, a, b), c, d)
  {}

  /** What `allocate` does to the stock. */
  lemma PageRequest(free: set<int>, n: int, level: nat)
    requires BestFit(free, 0, n, level)
    ensures Enough(StockOf(free), 1, 0) && StockOf(free - {n}) == Spent(StockOf(free), 1, 0)
  {
    BestPage(free, n, level);
    OneSpent(StockOf(free));
    if Neighbour(n) !in free {
      LonePageTaken(free, n);
    } else {
      PairBroken(free, n);
      assert StockOf(free).lones == 0;
    }
  }

  lemma OneSpent(s: Stock)
    ensures s.lones > 0 ==> Enough(s, 1, 0) && Spent(s, 1, 0) == Stock(s.pairs, s.lones - 1)
    ensures s.lones == 0 && s.pairs > 0 ==> Enough(s, 1, 0) && Spent(s, 1, 0) == Stock(s.pairs - 1, 1)
  {}

  /** A lone page goes first. */
  lemma BestPage(free: set<int>, n: int, level: nat)
    requires BestFit(free, 0, n, level)
    ensures n in free && (Neighbour(n) !in free || LoneSet(free) == {})
  {
    assert n in Range(n, level);
    if q :| q in LoneSet(free) {
      LoneIsMaximal(free, q);
      if level == 0 {
        MaximalIsLone(free, n);
      }
    }
  }

  lemma Single(q: int)
    ensures Range(q, 0) == {q} && Aligned(q, 0) && (Tagged(q, 0) <==> q % 2 == 1) && Pow2(0) == 1 && Pow2(1) == 2
  {}

  lemma LoneIsMaximal(free: set<int>, q: int)
    requires q in LoneSet(free)
    ensures Maximal(free, q, 0)
  {
    Single(q);
    assert Neighbour(q) in Range(RemoveTag(q, 0), 1);
  }

  lemma MaximalIsLone(free: set<int>, q: int)
    requires Maximal(free, q, 0)
    ensures q in LoneSet(free)
  {
    Single(q);
    assert Range(RemoveTag(q, 0), 1) == {q, Neighbour(q)};
  }

  lemma PairRequest(free: set<int>, n: int)
    requires Aligned(n, 1) && WhollyFree(free, n, 1)
    ensures Enough(StockOf(free), 0, 1) && StockOf(free - Range(n, 1)) == Spent(StockOf(free), 0, 1)
  {
    Single(n);
    assert Range(n, 1) == {n, n + 1};
    assert free - Range(n, 1) == free - {n} - {n + 1};
    PairTaken(free, n);
  }

  lemma Refused(free: set<int>)
    ensures (forall n :: Aligned(n, 0) ==> !WhollyFree(free, n, 0)) <==> !Enough(StockOf(free), 1, 0)
    ensures (forall n :: Aligned(n, 1) ==> !WhollyFree(free, n, 1)) <==> !Enough(StockOf(free), 0, 1)
  {
    NothingInStock(free);
    forall n: int
      ensures Aligned(n, 0) && (WhollyFree(free, n, 0) <==> n in free)
    {
      Single(n);
    }
    if free != {} {
      var n :| n in free;
      assert Aligned(n, 0) && WhollyFree(free, n, 0);
    }
    NoPairs(free);
    forall n: int
      ensures Aligned(n, 1) && WhollyFree(free, n, 1) <==> StartsPair(free, n)
    {
      Single(n);
      assert Range(n, 1) == {n, n + 1};
    }
  }

  // ----- Tables -----

  /** The tables on the way from the root to a virtual page. */
  function TablesTo(w: nat): set<Path> {
    {Mid(Px(2, w * PGSIZE)), LeafPath(w * PGSIZE)}
  }

  ghost function TablesFor(pages: set<nat>): set<Path> {
    set w, p | w in pages && p in TablesTo(w) :: p
  }

  /** Free pages, and the tables that a page table has. */
  datatype Means = Means(stock: Stock, tables: set<Path>)

  ghost function TablesLacking(m: Means, pages: set<nat>): nat {
    |TablesFor(pages) - m.tables|
  }

  /** Enough for so many single pages and pairs, and for the tables that these virtual pages lack. */
  ghost predicate Affords(m: Means, ones: nat, twos: nat, pages: set<nat>) {
    Enough(m.stock, ones, twos + TablesLacking(m, pages))
  }

  ghost function After(m: Means, ones: nat, twos: nat, pages: set<nat>): Means {
    Means(Spent(m.stock, ones, twos + TablesLacking(m, pages)), m.tables + TablesFor(pages))
  }

  lemma AffordsTwice(m: Means, a: nat, b: nat, s: set<nat>, c: nat, d: nat, t: set<nat>)
    ensures Affords(m, a + c, b + d, s + t) <==> Affords(m, a, b, s) && Affords(After(m, a, b, s), c, d, t)
    ensures Affords(m, a + c, b + d, s + t) ==> After(m, a + c, b + d, s + t) == After(After(m, a, b, s), c, d, t)
  {
    MissingTwice(m, s, t);
    EnoughTwice(m.stock, a, b + TablesLacking(m, s), c, d + TablesLacking(After(m, a, b, s), t));
  }

  lemma MissingTwice(m: Means, s: set<nat>, t: set<nat>)
    ensures m.tables + TablesFor(s + t) == m.tables + TablesFor(s) + TablesFor(t)
    ensures TablesLacking(m, s + t) == TablesLacking(m, s) + |TablesFor(t) - (m.tables + TablesFor(s))|
  {
    var more := TablesFor(t) - (m.tables + TablesFor(s));
    assert TablesFor(s + t) - m.tables == (TablesFor(s) - m.tables) + more;
  }

  lemma NothingNeeded(m: Means)
    ensures TablesFor({}) == {} && TablesLacking(m, {}) == 0 && Affords(m, 0, 0, {}) && After(m, 0, 0, {}) == m
  {
    assert m.tables + {} == m.tables;
  }

  /** No tables are needed for no pages. */
  lemma NoTables(m: Means, ones: nat, twos: nat)
    ensures Affords(m, ones, twos, {}) <==> Enough(m.stock, ones, twos)
    ensures After(m, ones, twos, {}) == Means(Spent(m.stock, ones, twos), m.tables)
  {
    hide Enough, Spent;
    NothingNeeded(m);
    assert m.tables + {} == m.tables;
  }

  /** The means after a page was taken. */
  function PageLess(m: Means): Means {
    Means(Spent(m.stock, 1, 0), m.tables)
  }

  /** A page first, then tables. */
  lemma PageAndTables(m: Means, s: set<nat>)
    ensures Affords(m, 1, 0, s) <==> Enough(m.stock, 1, 0) && Affords(PageLess(m), 0, 0, s)
    ensures Affords(m, 1, 0, s) ==> After(m, 1, 0, s) == After(PageLess(m), 0, 0, s)
  {
    EnoughTwice(m.stock, 1, 0, 0, TablesLacking(m, s));
  }

  /** `allocate(1)` for one table that is not there. */
  function OneTable(m: Means, p: Path): Means {
    if p in m.tables || m.stock.pairs == 0 then m else Means(Stock(m.stock.pairs - 1, m.stock.lones), m.tables + {p})
  }

  /** `pagetable_entry(pagetable, va, 1)`. */
  function Built(m: Means, va: nat): Means {
    OneTable(OneTable(m, Mid(Px(2, va))), LeafPath(va))
  }

  predicate Reached(m: Means, va: nat) {
    LeafPath(va) in Built(m, va).tables
  }

  /** A page for the user, and the tables on the way to it. */
  function WithPage(m: Means, va: nat): Means {
    Built(PageLess(m), va)
  }

  predicate CanMap(m: Means, va: nat) {
    Enough(m.stock, 1, 0) && Reached(PageLess(m), va)
  }

  /** Every leaf table hangs in a table. */
  ghost predicate Rooted(tables: set<Path>) {
    forall p :: p in tables && p.Leaf? ==> Mid(p.i) in tables
  }

  lemma RootedAfter(m: Means, ones: nat, twos: nat, pages: set<nat>)
    requires Rooted(m.tables)
    ensures Rooted(After(m, ones, twos, pages).tables)
  {
    forall p | p in TablesFor(pages) && p.Leaf?
      ensures Mid(p.i) in TablesFor(pages)
    {
      var w :| w in pages && p in TablesTo(w);
      assert Mid(p.i) in TablesTo(w);
    }
  }

  lemma BuiltIff(m: Means, w: nat, va: nat)
    requires Rooted(m.tables) && va == w * PGSIZE
    ensures Reached(m, va) <==> Affords(m, 0, 0, {w})
    ensures Affords(m, 0, 0, {w}) ==> Built(m, va) == After(m, 0, 0, {w})
    ensures !Affords(m, 0, 0, {w}) ==> Built(m, va).stock == Stock(0, m.stock.lones)
  {
    TablesForOne(w);
    AddBoth(m, Mid(Px(2, w * PGSIZE)), LeafPath(w * PGSIZE));
  }

  lemma CanMapIff(m: Means, w: nat, va: nat)
    requires Rooted(m.tables) && va == w * PGSIZE
    ensures CanMap(m, va) <==> Affords(m, 1, 0, {w})
    ensures CanMap(m, va) ==> WithPage(m, va) == After(m, 1, 0, {w})
  {
    PageAndTables(m, {w});
    BuiltIff(PageLess(m), w, va);
  }

  lemma TablesForOne(w: nat)
    ensures TablesFor({w}) == TablesTo(w)
  {
    forall p | p in TablesTo(w)
      ensures p in TablesFor({w})
    {
      assert w in {w};
    }
  }

  lemma AddBoth(m: Means, p: Path, q: Path)
    requires p != q && (q in m.tables ==> p in m.tables)
    ensures var n := |{p, q} - m.tables|; var m' := OneTable(OneTable(m, p), q);
      && (q in m'.tables <==> n <= m.stock.pairs)
      && m'.stock == Stock(if n <= m.stock.pairs then m.stock.pairs - n else 0, m.stock.lones)
      && (n <= m.stock.pairs ==> m'.tables == m.tables + {p, q})
  {
    Lacking(p, q, m.tables);
    var m1 := OneTable(m, p);
    if p in m.tables || m.stock.pairs > 0 {
      assert m1.tables == m.tables + {p};
      assert m1.tables + {q} == m.tables + {p, q};
      assert q in m1.tables ==> m1.tables == m.tables + {p, q};
    }
  }

  lemma Lacking(p: Path, q: Path, s: set<Path>)
    requires p != q
    ensures |{p, q} - s| == (if p in s then 0 else 1) + if q in s then 0 else 1
  {
    if p in s && q in s {
      assert {p, q} - s == {};
    } else if p in s {
      assert {p, q} - s == {q};
    } else if q in s {
      assert {p, q} - s == {p};
    } else {
      assert {p, q} - s == {p, q};
    }
  }

  // ----- Ranges -----

  /** The `n` virtual pages from `v` on. */
  ghost function Stretch(v: nat, n: nat): (r: set<nat>)
    ensures forall w :: w in r <==> v <= w < v + n
  {
    if n == 0 then {} else Stretch(v, n - 1) + {v + n - 1}
  }

  /** The means after the `n` pages from `v` on were mapped one by one. */
  function RangeMeans(m: Means, v: nat, n: nat): Means {
    if n == 0 then m else WithPage(RangeMeans(m, v, n - 1), (v + n - 1) * PGSIZE)
  }

  predicate CanMapRange(m: Means, v: nat, n: nat) {
    n == 0 || (CanMapRange(m, v, n - 1) && CanMap(RangeMeans(m, v, n - 1), (v + n - 1) * PGSIZE))
  }

  /** There is a page for each of the `n`, whether there are tables or not. */
  predicate PagesLast(m: Means, v: nat, n: nat) {
    n == 0 || (PagesLast(m, v, n - 1) && Enough(RangeMeans(m, v, n - 1).stock, 1, 0))
  }

  lemma {:induction false} CanMapLasts(m: Means, v: nat, n: nat)
    requires CanMapRange(m, v, n)
    ensures PagesLast(m, v, n)
  {
    if n > 0 {
      CanMapLasts(m, v, n - 1);
    }
  }

  lemma {:induction false} LastsLess(m: Means, v: nat, k: nat, n: nat)
    requires k <= n && PagesLast(m, v, n)
    ensures PagesLast(m, v, k)
    decreases n
  {
    if k < n {
      LastsLess(m, v, k, n - 1);
    }
  }

  lemma {:induction false} CanMapLess(m: Means, v: nat, k: nat, n: nat)
    requires k <= n && CanMapRange(m, v, n)
    ensures CanMapRange(m, v, k)
    decreases n
  {
    if k < n {
      CanMapLess(m, v, k, n - 1);
    }
  }

  /** One by one is as good as all at once. */
  lemma {:induction false} RangeIff(m: Means, v: nat, n: nat)
    requires Rooted(m.tables)
    ensures CanMapRange(m, v, n) <==> Affords(m, n, 0, Stretch(v, n))
    ensures CanMapRange(m, v, n) ==> RangeMeans(m, v, n) == After(m, n, 0, Stretch(v, n))
  {
    hide Affords, After, CanMap, WithPage;
    if n == 0 {
      NothingNeeded(m);
    } else {
      var w: nat := v + n - 1;
      RangeIff(m, v, n - 1);
      OneMorePage(m, n - 1, Stretch(v, n - 1), w, w * PGSIZE);
      assert Stretch(v, n) == Stretch(v, n - 1) + {w};
    }
  }

  lemma OneMorePage(m: Means, n: nat, s: set<nat>, w: nat, va: nat)
    requires Rooted(m.tables) && va == w * PGSIZE
    ensures Affords(m, n + 1, 0, s + {w}) <==> Affords(m, n, 0, s) && CanMap(After(m, n, 0, s), va)
    ensures Affords(m, n + 1, 0, s + {w}) ==> After(m, n + 1, 0, s + {w}) == WithPage(After(m, n, 0, s), va)
  {
    hide Affords, After, CanMap, WithPage;
    AffordsTwice(m, n, 0, s, 1, 0, {w});
    RootedAfter(m, n, 0, s);
    CanMapIff(After(m, n, 0, s), w, va);
  }
}

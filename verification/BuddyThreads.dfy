/** Free lists threaded through the free blocks themselves.

    Every free block and every head slot of `buddy_pool.space` is a `node` with one field,
    `next`. All of them live in one array of links: page `p` is node `p`, the head of the
    list of order `k` is node `PAGES + k`, and `NIL` is the null pointer. */
module BuddyThreads {
  import opened BuddyBlocks

  const NIL: int := -1
  const NODES: nat := PAGES + MAX_ORDER + 1

  /** The node before position `i` of a list: its head slot, or element `i - 1`. */
  function NodeAt(k: nat, list: seq<int>, i: nat): int
    requires i <= |list|
  {
    if i == 0 then PAGES + k else list[i - 1]
  }

  function NextAt(list: seq<int>, i: nat): int
    requires i <= |list|
  {
    if i < |list| then list[i] else NIL
  }

  ghost predicate Chain(link: seq<int>, k: nat, list: seq<int>) {
    && k <= MAX_ORDER
    && |link| == NODES
    && (forall i :: 0 <= i < |list| ==> 0 <= list[i] < PAGES)
    && forall i :: 0 <= i <= |list| ==> link[NodeAt(k, list, i)] == NextAt(list, i)
  }

  ghost predicate Threaded(link: seq<int>, lists: seq<seq<int>>) {
    && |link| == NODES
    && |lists| == MAX_ORDER + 1
    && forall k :: 0 <= k <= MAX_ORDER ==> Chain(link, k, lists[k])
  }

  /** No page is on two lists, nor twice on one. */
  ghost predicate Separate(lists: seq<seq<int>>) {
    && |lists| == MAX_ORDER + 1
    && (forall k :: 0 <= k <= MAX_ORDER ==> StrictlySorted(lists[k]))
    && forall j, k, p :: 0 <= j <= MAX_ORDER && 0 <= k <= MAX_ORDER && j != k && p in lists[j] ==> p !in lists[k]
  }

  lemma CanonicalSeparate(lists: seq<seq<int>>, free: set<int>)
    requires Canonical(lists, free)
    ensures Separate(lists)
  {
    forall j, k, p | 0 <= j <= MAX_ORDER && 0 <= k <= MAX_ORDER && j != k && p in lists[j]
      ensures p !in lists[k]
    {
      if p in lists[k] {
        MaximalDisjoint(free, p, j, p, k);
        assert false;
      }
    }
  }

  function InsertAt(list: seq<int>, i: nat, a: int): seq<int>
    requires i <= |list|
  {
    list[..i] + [a] + list[i..]
  }

  function RemoveAt(list: seq<int>, i: nat): seq<int>
    requires i < |list|
  {
    list[..i] + list[i + 1..]
  }

  /** Updating one node leaves a chain that does not pass through it as it was. */
  lemma ChainFrame(link: seq<int>, k: nat, list: seq<int>, x: int, y: int)
    requires Chain(link, k, list) && 0 <= x < NODES
    requires x != PAGES + k && x !in list
    ensures Chain(link[x := y], k, list)
  {}

  /** Two writes put a new node after position `i` of list `k`. */
  lemma InsertThreads(link: seq<int>, lists: seq<seq<int>>, k: nat, i: nat, a: int)
    requires Threaded(link, lists) && Separate(lists) && k <= MAX_ORDER && i <= |lists[k]|
    requires 0 <= a < PAGES && forall j :: 0 <= j <= MAX_ORDER ==> a !in lists[j]
    ensures 0 <= NodeAt(k, lists[k], i) < NODES
    ensures Threaded(link[a := NextAt(lists[k], i)][NodeAt(k, lists[k], i) := a],
                     lists[k := InsertAt(lists[k], i, a)])
  {
    var list := lists[k];
    var before := NodeAt(k, list, i);
    var link1 := link[a := NextAt(list, i)];
    var link2 := link1[before := a];
    var lists' := lists[k := InsertAt(list, i, a)];
    forall j | 0 <= j <= MAX_ORDER
      ensures Chain(link2, j, lists'[j])
    {
      assert Chain(link, j, lists[j]);
      ChainFrame(link, j, lists[j], a, NextAt(list, i));
      if j != k {
        assert before !in lists[j] by { BeforeIsForeign(lists, k, i, j); }
        ChainFrame(link1, j, lists[j], before, a);
      } else {
        InsertChain(link1, k, list, i, a);
      }
    }
  }

  lemma BeforeIsForeign(lists: seq<seq<int>>, k: nat, i: nat, j: nat)
    requires Separate(lists) && k <= MAX_ORDER && j <= MAX_ORDER && j != k && i <= |lists[k]|
    requires forall i :: 0 <= i < |lists[j]| ==> lists[j][i] < PAGES
    ensures NodeAt(k, lists[k], i) !in lists[j]
  {}

  lemma InsertChain(link: seq<int>, k: nat, list: seq<int>, i: nat, a: int)
    requires Chain(link, k, list) && StrictlySorted(list) && i <= |list|
    requires 0 <= a < PAGES && a !in list && link[a] == NextAt(list, i)
    ensures 0 <= NodeAt(k, list, i) < NODES
    ensures Chain(link[NodeAt(k, list, i) := a], k, InsertAt(list, i, a))
  {
    var before := NodeAt(k, list, i);
    var link' := link[before := a];
    var list' := InsertAt(list, i, a);
    forall n | 0 <= n <= |list'|
      ensures link'[NodeAt(k, list', n)] == NextAt(list', n)
    {
      if n < i {
        assert NodeAt(k, list', n) == NodeAt(k, list, n) && link[NodeAt(k, list, n)] == NextAt(list, n);
      } else if n == i {
        assert NodeAt(k, list', n) == before;
      } else if n == i + 1 {
        assert NodeAt(k, list', n) == a;
        assert i > 0 ==> list[i - 1] in list;
      } else {
        assert NodeAt(k, list', n) == NodeAt(k, list, n - 1) && link[NodeAt(k, list, n - 1)] == NextAt(list, n - 1);
      }
    }
  }

  /** One write takes the node at position `i` off list `k`. */
  lemma RemoveThreads(link: seq<int>, lists: seq<seq<int>>, k: nat, i: nat)
    requires Threaded(link, lists) && Separate(lists) && k <= MAX_ORDER && i < |lists[k]|
    ensures 0 <= NodeAt(k, lists[k], i) < NODES
    ensures Threaded(link[NodeAt(k, lists[k], i) := NextAt(lists[k], i + 1)],
                     lists[k := RemoveAt(lists[k], i)])
  {
    var list := lists[k];
    var before := NodeAt(k, list, i);
    var link' := link[before := NextAt(list, i + 1)];
    var lists' := lists[k := RemoveAt(list, i)];
    forall j | 0 <= j <= MAX_ORDER
      ensures Chain(link', j, lists'[j])
    {
      assert Chain(link, j, lists[j]);
      if j != k {
        BeforeIsForeign(lists, k, i, j);
        ChainFrame(link, j, lists[j], before, NextAt(list, i + 1));
      } else {
        RemoveChain(link, k, list, i);
      }
    }
  }

  lemma RemoveChain(link: seq<int>, k: nat, list: seq<int>, i: nat)
    requires Chain(link, k, list) && StrictlySorted(list) && i < |list|
    ensures 0 <= NodeAt(k, list, i) < NODES
    ensures Chain(link[NodeAt(k, list, i) := NextAt(list, i + 1)], k, RemoveAt(list, i))
  {
    var before := NodeAt(k, list, i);
    var link' := link[before := NextAt(list, i + 1)];
    var list' := RemoveAt(list, i);
    forall n | 0 <= n <= |list'|
      ensures link'[NodeAt(k, list', n)] == NextAt(list', n)
    {
      if n <= i {
        assert NodeAt(k, list', n) == NodeAt(k, list, n) && link[NodeAt(k, list, n)] == NextAt(list, n);
      } else {
        assert NodeAt(k, list', n) == NodeAt(k, list, n + 1) && link[NodeAt(k, list, n + 1)] == NextAt(list, n + 1);
      }
    }
  }

  // ----- The same two edits on the canonical lists -----

  lemma RemoveMembers(list: seq<int>, i: nat)
    requires StrictlySorted(list) && i < |list|
    ensures StrictlySorted(RemoveAt(list, i))
    ensures forall p :: p in RemoveAt(list, i) <==> p in list && p != list[i]
  {}

  lemma InsertMembers(list: seq<int>, i: nat, a: int)
    requires StrictlySorted(list) && i <= |list|
    requires i > 0 ==> list[i - 1] < a
    requires i < |list| ==> a < list[i]
    ensures StrictlySorted(InsertAt(list, i, a))
    ensures forall p :: p in InsertAt(list, i, a) <==> p in list || p == a
  {}

  /** Taking a listed block off its list is taking its pages out of the free set. */
  lemma RemoveCanonical(lists: seq<seq<int>>, free: set<int>, k: nat, i: nat)
    requires Canonical(lists, free) && k <= MAX_ORDER && i < |lists[k]|
    ensures Maximal(free, lists[k][i], k)
    ensures Canonical(lists[k := RemoveAt(lists[k], i)], free - Range(lists[k][i], k))
  {
    var b := lists[k][i];
    assert b in lists[k];
    WithoutMaximal(free, b, k);
    var list' := RemoveAt(lists[k], i);
    RemoveMembers(lists[k], i);
    assert CanonicalList(list', free - Range(b, k), k);
    forall j | 0 <= j <= MAX_ORDER && j != k
      ensures CanonicalList(lists[j], free - Range(b, k), j)
    {
      assert CanonicalList(lists[j], free, j);
    }
  }

  /** Putting a freed block whose buddy is not listed on its list is adding its pages. */
  lemma InsertCanonical(lists: seq<seq<int>>, free: set<int>, k: nat, i: nat, a: int)
    requires Canonical(lists, free) && k <= MAX_ORDER && i <= |lists[k]|
    requires Aligned(a, k) && Range(a, k) !! free && BuddyOf(a, k) !in lists[k]
    requires i > 0 ==> lists[k][i - 1] < a
    requires i < |lists[k]| ==> a < lists[k][i]
    ensures Canonical(lists[k := InsertAt(lists[k], i, a)], free + Range(a, k))
  {
    var free' := free + Range(a, k);
    BecomesMaximal(free, a, k);
    WithoutMaximal(free', a, k);
    assert forall p, j: nat :: Maximal(free, p, j) <==> Maximal(free', p, j) && !(p == a && j == k);
    var list := lists[k];
    var list' := InsertAt(list, i, a);
    InsertMembers(list, i, a);
    assert CanonicalList(list', free', k);
    forall j | 0 <= j <= MAX_ORDER && j != k
      ensures CanonicalList(lists[j], free', j)
    {
      assert CanonicalList(lists[j], free, j);
    }
  }
}

/** kernel/mm/page_cache.c: cached file pages, indexed by a red-black tree over (inode,
    offset) and kept in order of last use on a linked list.  Pages are clean; the
    allocation of a descriptor is a choice between NULL and any unused address, and the
    time of day is a parameter.
 */
module PageCache {
  import opened Machine
  import opened Sequences
  import opened Bits
  import opened RbTheory
  import opened RbTree
  import opened LinkedList

  datatype Key = Key(inode: nat, offset: nat)

  ghost predicate Less(a: Key, b: Key)
  {
    a.inode < b.inode || (a.inode == b.inode && a.offset < b.offset)
  }

  /** compare_cache_key decides the lexicographic order. */
  function CompareCacheKey(a: Key, b: Key): (cmp: int)
    ensures (cmp < 0 <==> Less(a, b)) && (cmp > 0 <==> Less(b, a)) && (cmp == 0 <==> a == b)
  {
    if a.inode < b.inode then -1
    else if a.inode > b.inode then 1
    else if a.offset < b.offset then -1
    else if a.offset > b.offset then 1
    else 0
  }

  /** struct cached_page, apart from its links. */
  datatype Page = Page(frame: nat, locked: bool, key: Key, refcount: nat, accessTime: nat)

  type Pages = map<Addr, Page>

  /** The head of the LRU list in the manager. */
  const LRU_LIST: Addr := 1

  const MAX_CACHE_PAGES: nat := 1024

  /** struct page_cache_manager with the descriptors it holds, and the frames given back. */
  datatype Cache = Cache(mem: Memory, root: Ptr, links: Links, pages: Pages, total: nat, hits: nat, misses: nat,
                         evictions: nat, freed: seq<nat>)

  /** What the proof keeps beside it. */
  datatype Shadow = Shadow(tree: Tree<Addr>, lru: seq<Addr>, clock: nat)

  ghost predicate Sorted(s: seq<Addr>, pages: Pages)
  {
    && (forall x :: x in s ==> x in pages)
    && (forall i, j :: 0 <= i < j < |s| ==> Less(pages[s[i]].key, pages[s[j]].key))
  }

  /** Most recently used first. */
  ghost predicate Recency(s: seq<Addr>, pages: Pages, clock: nat)
  {
    && (forall x :: x in s ==> x in pages && pages[x].accessTime <= clock)
    && (forall i, j :: 0 <= i < j < |s| ==> pages[s[i]].accessTime >= pages[s[j]].accessTime)
  }

  ghost predicate SameElements(s: seq<Addr>, ns: set<Addr>)
  {
    forall x :: x in s <==> x in ns
  }

  /** The tree is a red-black tree over the cached pages in key order. */
  ghost predicate Indexed(mem: Memory, root: Ptr, t: Tree<Addr>, pages: Pages)
  {
    Shaped(mem, t, root) && RedBlack(t) && pages.Keys == Nodes(t) && Sorted(Inorder(t), pages)
  }

  /** The LRU list is a permutation of the cached pages in order of use. */
  ghost predicate Listed(links: Links, lru: seq<Addr>, pages: Pages, clock: nat)
  {
    Ring(links, LRU_LIST, lru) && SameElements(lru, pages.Keys) && Recency(lru, pages, clock)
  }

  ghost predicate Valid(c: Cache, g: Shadow)
  {
    Indexed(c.mem, c.root, g.tree, c.pages) && Listed(c.links, g.lru, c.pages, g.clock) && c.total == |g.lru|
  }

  ghost predicate UniqueKeys(pages: Pages)
  {
    forall p, q :: p in pages && q in pages && pages[p].key == pages[q].key ==> p == q
  }

  lemma {:induction false} SortedUnique(t: Tree<Addr>, pages: Pages)
    requires pages.Keys == Nodes(t) && Sorted(Inorder(t), pages)
    ensures UniqueKeys(pages)
  {
    forall p, q | p in pages && q in pages && pages[p].key == pages[q].key ensures p == q {
      InorderNode(t, p);
      InorderNode(t, q);
      var s := Inorder(t);
      var i :| 0 <= i < |s| && s[i] == p;
      var j :| 0 <= j < |s| && s[j] == q;
    }
  }

  ghost function Index(pages: Pages): (m: map<Key, Addr>)
    requires UniqueKeys(pages)
    ensures IsIndex(m, pages)
  {
    map p | p in pages :: pages[p].key := p
  }

  /** `m` leads from exactly the keys of `pages` to them. */
  ghost predicate IsIndex(m: map<Key, Addr>, pages: Pages)
  {
    && (forall p :: p in pages ==> pages[p].key in m && m[pages[p].key] == p)
    && (forall k :: k in m ==> m[k] in pages && pages[m[k]].key == k)
  }

  /** What the cache means: a map from keys to pages. */
  ghost function Cached(c: Cache, g: Shadow): (m: map<Key, Addr>)
    requires Valid(c, g)
    ensures IsIndex(m, c.pages)
  {
    SortedUnique(g.tree, c.pages);
    Index(c.pages)
  }

  lemma {:induction false} OnlyIndex(pages: Pages, m: map<Key, Addr>, n: map<Key, Addr>)
    requires IsIndex(m, pages) && IsIndex(n, pages)
    ensures m == n
  {
    forall k ensures (k in m <==> k in n) && (k in m ==> m[k] == n[k]) {
      if k in m { assert m[k] in pages; }
      if k in n { assert n[k] in pages; }
    }
  }

  lemma {:induction false} CachedIs(c: Cache, g: Shadow, m: map<Key, Addr>)
    requires Valid(c, g) && IsIndex(m, c.pages)
    ensures m == Cached(c, g)
  {
    OnlyIndex(c.pages, m, Cached(c, g));
  }

  /** `p` is the page cached under `k`, or NULL when there is none. */
  ghost predicate Finds(pages: Pages, k: Key, p: Ptr)
  {
    if p == 0 then forall q :: q in pages ==> pages[q].key != k else p in pages && pages[p].key == k
  }

  ghost function Found(m: map<Key, Addr>, k: Key): Ptr
  {
    if k in m then m[k] else 0
  }

  /** Finding, touching, adding and dropping a descriptor are operations of the map. */
  lemma {:induction false} IndexFinds(m: map<Key, Addr>, pages: Pages, k: Key, p: Ptr)
    requires IsIndex(m, pages)
    ensures Finds(pages, k, p) <==> p == Found(m, k)
  {
    if k in m { assert m[k] in pages; }
  }

  lemma {:induction false} IndexTouched(m: map<Key, Addr>, pages: Pages, n: Addr, page: Page)
    requires IsIndex(m, pages) && n in pages && page.key == pages[n].key
    ensures IsIndex(m, pages[n := page])
  {
  }

  lemma {:induction false} IndexAdded(m: map<Key, Addr>, pages: Pages, n: Addr, page: Page)
    requires IsIndex(m, pages) && n !in pages && page.key !in m
    ensures IsIndex(m[page.key := n], pages[n := page])
  {
  }

  lemma {:induction false} IndexDropped(m: map<Key, Addr>, pages: Pages, n: Addr)
    requires IsIndex(m, pages) && n in pages
    ensures IsIndex(m - {pages[n].key}, pages - {n})
  {
  }

  /** `m` with only the pages of `s`. */
  ghost function Among(m: map<Key, Addr>, s: seq<Addr>): map<Key, Addr>
  {
    map k | k in m && m[k] in s :: m[k]
  }

  lemma {:induction false} IndexAmong(m: map<Key, Addr>, pages0: Pages, pages: Pages, s: seq<Addr>)
    requires IsIndex(m, pages0) && SameElements(s, pages.Keys)
      && forall p :: p in pages ==> p in pages0 && pages[p] == pages0[p]
    ensures IsIndex(Among(m, s), pages)
  {
  }

  /** `m` without the keys of an inode. */
  ghost function Outside(m: map<Key, Addr>, inode: nat): map<Key, Addr>
  {
    map k | k in m && k.inode != inode :: m[k]
  }

  lemma {:induction false} IndexOutside(m: map<Key, Addr>, pages0: Pages, pages: Pages, inode: nat)
    requires IsIndex(m, pages0) && forall p :: p in pages ==> p in pages0 && pages[p] == pages0[p]
    requires forall p :: p in pages0 ==> (p in pages <==> pages0[p].key.inode != inode)
    ensures IsIndex(Outside(m, inode), pages)
  {
  }

  // ----- descending by key -----

  /** A page with key `k` belongs between `b` and `a`. */
  ghost predicate Fits(b: seq<Addr>, a: seq<Addr>, pages: Pages, k: Key)
  {
    && (forall x :: x in b ==> x in pages && Less(pages[x].key, k))
    && (forall x :: x in a ==> x in pages && Less(k, pages[x].key))
  }

  lemma {:induction false} OrderAround(a: seq<Addr>, n: Addr, b: seq<Addr>, pages: Pages, x: Addr)
    requires Sorted(a + [n] + b, pages) && n in pages && x in pages
    ensures x in a ==> Less(pages[x].key, pages[n].key)
    ensures x in b ==> Less(pages[n].key, pages[x].key)
  {
    var s := a + [n] + b;
    assert s[|a|] == n;
    if x in a {
      var i :| 0 <= i < |a| && a[i] == x;
      assert s[i] == x;
    }
    if x in b {
      var i :| 0 <= i < |b| && b[i] == x;
      assert s[|a| + 1 + i] == x;
    }
  }

  lemma {:induction false} Descend(c: Ctx<Addr>, t: Tree<Addr>, pages: Pages, k: Key)
    requires Distinct(Plug(c, t)) && Sorted(Inorder(Plug(c, t)), pages) && t.Node?
      && Fits(Before(c), After(c), pages, k)
    ensures t.node in pages
    ensures var c' := LeftOf(c, t.node, t.color, t.right);
      Less(k, pages[t.node].key) ==> Fits(Before(c'), After(c'), pages, k)
    ensures var c' := RightOf(c, t.node, t.color, t.left);
      Less(pages[t.node].key, k) ==> Fits(Before(c'), After(c'), pages, k)
  {
    SplitAt(c, t);
    var n, a, b := t.node, Before(c) + Inorder(t.left), Inorder(t.right) + After(c);
    assert (a + [n] + b)[|a|] == n;
    forall x | x in Inorder(t.right) ensures x in pages && Less(pages[n].key, pages[x].key) {
      assert x in a + [n] + b;
      OrderAround(a, n, b, pages, x);
    }
    forall x | x in Inorder(t.left) ensures x in pages && Less(pages[x].key, pages[n].key) {
      assert x in a + [n] + b;
      OrderAround(a, n, b, pages, x);
    }
  }

  lemma {:induction false} Absent(c: Ctx<Addr>, pages: Pages, k: Key)
    requires pages.Keys == Nodes(Plug(c, Leaf)) && Fits(Before(c), After(c), pages, k)
    ensures forall p :: p in pages ==> pages[p].key != k
  {
    forall p | p in pages ensures pages[p].key != k {
      InorderNode(Plug(c, Leaf), p);
      PlugInorder(c, Leaf);
    }
  }

  /** The descent of page_cache_lookup. */
  method FindPage(mem: Memory, root: Ptr, pages: Pages, k: Key, ghost tree: Tree<Addr>)
    returns (node: Ptr, ghost steps: nat)
    requires Indexed(mem, root, tree, pages)
    ensures Finds(pages, k, node) && Logarithmic(steps, |Inorder(tree)|)
  {
    node, steps := root, 0;
    ghost var c, t := Top, tree;
    while node != 0
      invariant tree == Plug(c, t) && node == Ref(t) && Fits(Before(c), After(c), pages, k)
      invariant steps + Height(t) <= Height(tree)
      decreases t
    {
      Reads(mem, root, c, t);
      Descend(c, t, pages, k);
      var cmp := CompareCacheKey(k, pages[node].key);
      if cmp < 0 {
        c, t := LeftOf(c, node, t.color, t.right), t.left;
        node := mem[node].left;
      } else if cmp > 0 {
        c, t := RightOf(c, node, t.color, t.left), t.right;
        node := mem[node].right;
      } else {
        StepsBound(tree, steps);
        return;
      }
      steps := steps + 1;
    }
    Absent(c, pages, k);
    StepsBound(tree, steps);
  }

  /** The descent of page_cache_add, for a key that is not cached. */
  method FindPlace(mem: Memory, root: Ptr, pages: Pages, k: Key, ghost tree: Tree<Addr>)
    returns (parent: Ptr, atLeft: bool, ghost c: Ctx<Addr>, ghost steps: nat)
    requires Indexed(mem, root, tree, pages) && forall p :: p in pages ==> pages[p].key != k
    ensures tree == Plug(c, Leaf) && Fits(Before(c), After(c), pages, k) && Logarithmic(steps, |Inorder(tree)|)
    ensures parent == CtxRef(c, 0) && (parent != 0 ==> (atLeft <==> c.LeftOf?))
  {
    var node := root;
    parent, atLeft, c, steps := 0, true, Top, 0;
    ghost var t := tree;
    while node != 0
      invariant tree == Plug(c, t) && node == Ref(t) && Fits(Before(c), After(c), pages, k)
        && steps + Height(t) <= Height(tree)
      invariant parent == CtxRef(c, 0) && (parent != 0 ==> (atLeft <==> c.LeftOf?))
      decreases t
    {
      Reads(mem, root, c, t);
      Descend(c, t, pages, k);
      parent := node;
      var cmp := CompareCacheKey(k, pages[parent].key);
      if cmp < 0 {
        node, atLeft := mem[parent].left, true;
        c, t := LeftOf(c, parent, t.color, t.right), t.left;
      } else {
        node, atLeft := mem[parent].right, false;
        c, t := RightOf(c, parent, t.color, t.left), t.right;
      }
      steps := steps + 1;
    }
    StepsBound(tree, steps);
  }

  // ----- sequences without repetitions -----

  /** `s` without `p`, if `p` is not NULL. */
  ghost function Dropped(s: seq<Addr>, p: Ptr): seq<Addr>
  {
    if p == 0 then s else Without<Addr>(s, p)
  }

  ghost function ToFront(s: seq<Addr>, p: Ptr): seq<Addr>
  {
    if p == 0 then s else [p as Addr] + Dropped(s, p)
  }

  lemma {:induction false} RemovedIsDropped(s: seq<Addr>, p: Addr) returns (k: nat)
    requires NoRepeats(s) && p in s
    ensures k < |s| && s[k] == p && RemoveAt(s, k) == Dropped(s, p) && IsRemoveAt(Dropped(s, p), s, k)
  {
    k :| 0 <= k < |s| && s[k] == p;
    RemoveAtIs(s, k);
    WithoutIsRemoveAt<Addr>(s, k);
  }

  lemma {:induction false} RemovedElements(r: seq<Addr>, s: seq<Addr>, k: nat, ns: set<Addr>)
    requires NoRepeats(s) && IsRemoveAt(r, s, k) && SameElements(s, ns)
    ensures SameElements(r, ns - {s[k]})
  {
    forall x | x in s && x != s[k] ensures x in r {
      var i :| 0 <= i < |s| && s[i] == x;
      assert if i < k then r[i] == x else r[i - 1] == x;
    }
  }

  lemma {:induction false} RemovedRecency(r: seq<Addr>, s: seq<Addr>, k: nat, pages: Pages, clock: nat)
    requires NoRepeats(s) && IsRemoveAt(r, s, k) && Recency(s, pages, clock)
    ensures Recency(r, pages - {s[k]}, clock)
  {
    forall i, j | 0 <= i < j < |r|
      ensures r[i] in pages && r[j] in pages && pages[r[i]].accessTime >= pages[r[j]].accessTime
    {
      var i', j' := if i < k then i else i + 1, if j < k then j else j + 1;
      assert r[i] == s[i'] && r[j] == s[j'] && s[i'] in s && s[j'] in s;
    }
  }

  lemma {:induction false} RemovedSorted(r: seq<Addr>, s: seq<Addr>, k: nat, pages: Pages)
    requires IsRemoveAt(r, s, k) && Sorted(s, pages)
    ensures Sorted(r, pages - {s[k]})
  {
    forall i, j | 0 <= i < j < |r| ensures r[i] in pages && r[j] in pages && Less(pages[r[i]].key, pages[r[j]].key) {
      var i', j' := if i < k then i else i + 1, if j < k then j else j + 1;
      assert r[i] == s[i'] && r[j] == s[j'] && s[i'] in s && s[j'] in s;
    }
    assert s[k] in s;
  }

  /** page_cache_init: nothing is cached. */
  method Init() returns (c: Cache, ghost g: Shadow)
    ensures Valid(c, g) && g == Shadow(Leaf, [], 0) && Cached(c, g) == map[] && c.hits == c.misses == c.evictions == 0
  {
    var links := InitListHead(map[], LRU_LIST);
    c := Cache(map[], 0, links, map[], 0, 0, 0, 0, []);
    g := Shadow(Leaf, [], 0);
    CachedIs(c, g, map[]);
  }

  // ----- lookup -----

  lemma {:induction false} FrontRecency(w: seq<Addr>, p: Addr, pages: Pages, pages': Pages, clock: nat, now: nat)
    requires Recency(w, pages, clock) && clock <= now && p in pages' && pages'[p].accessTime == now
    requires p !in pages && forall x :: x in pages ==> x in pages' && pages'[x] == pages[x]
    ensures Recency([p] + w, pages', now)
  {
    var r := [p] + w;
    forall i, j | 0 <= i < j < |r|
      ensures r[i] in pages' && r[j] in pages' && pages'[r[i]].accessTime >= pages'[r[j]].accessTime
    {
      assert r[j] == w[j - 1] && w[j - 1] in w;
      if i > 0 { assert r[i] == w[i - 1] && w[i - 1] in w; }
    }
  }

  /** A page is used: it moves to the front of the list. */
  lemma {:induction false} Used(s: seq<Addr>, p: Addr, pages: Pages, clock: nat, now: nat)
    requires NoRepeats(s) && p in s && Recency(s, pages, clock) && clock <= now && SameElements(s, pages.Keys)
    ensures Recency(ToFront(s, p), pages[p := pages[p].(accessTime := now)], now)
      && SameElements(ToFront(s, p), pages.Keys)
    ensures |ToFront(s, p)| == |s|
  {
    var k := RemovedIsDropped(s, p);
    RemovedElements(Dropped(s, p), s, k, pages.Keys);
    RemovedRecency(Dropped(s, p), s, k, pages, clock);
    FrontRecency(Dropped(s, p), p, pages - {p}, pages[p := pages[p].(accessTime := now)], clock, now);
  }

  lemma {:induction false} KeysKept(mem: Memory, root: Ptr, t: Tree<Addr>, pages: Pages, p: Addr, page: Page)
    requires Indexed(mem, root, t, pages) && p in pages && page.key == pages[p].key
    ensures Indexed(mem, root, t, pages[p := page])
  {
  }

  /** list_del and list_add: the page becomes the most recently used. */
  method MoveToFront(links0: Links, pages: Pages, page: Addr, now: nat, ghost lru: seq<Addr>, ghost clock: nat)
    returns (links: Links)
    requires Listed(links0, lru, pages, clock) && page in pages && clock <= now
    ensures Listed(links, ToFront(lru, page), pages[page := pages[page].(accessTime := now)], now)
      && |ToFront(lru, page)| == |lru|
  {
    ghost var i := RemovedIsDropped(lru, page);
    Used(lru, page, pages, clock, now);
    links := LinkedList.MoveToFront(links0, page, LRU_LIST, lru, i);
  }

  /** page_cache_lookup has found the page. */
  method Hit(c0: Cache, page: Addr, now: nat, ghost g0: Shadow) returns (c: Cache, ghost g: Shadow)
    requires Valid(c0, g0) && g0.clock <= now && page in c0.pages
    ensures Valid(c, g) && Cached(c, g) == Cached(c0, g0) && g == g0.(lru := ToFront(g0.lru, page), clock := now)
    ensures c == c0.(links := c.links, pages := c0.pages[page := c0.pages[page].(accessTime := now)],
                     hits := c0.hits + 1)
  {
    var used := c0.pages[page].(accessTime := now);
    KeysKept(c0.mem, c0.root, g0.tree, c0.pages, page, used);
    var links := MoveToFront(c0.links, c0.pages, page, now, g0.lru, g0.clock);
    c := c0.(links := links, pages := c0.pages[page := used], hits := c0.hits + 1);
    g := g0.(lru := ToFront(g0.lru, page), clock := now);
    IndexTouched(Cached(c0, g0), c0.pages, page, used);
    CachedIs(c, g, Cached(c0, g0));
  }

  /** page_cache_lookup */
  method Lookup(c0: Cache, k: Key, now: nat, ghost g0: Shadow) returns (c: Cache, page: Ptr, ghost g: Shadow)
    requires Valid(c0, g0) && g0.clock <= now
    ensures Valid(c, g) && Finds(c0.pages, k, page) && page == Found(Cached(c0, g0), k)
      && Cached(c, g) == Cached(c0, g0)
    ensures page == 0 ==> c == c0.(misses := c0.misses + 1) && g == g0
    ensures page != 0 ==> g == g0.(lru := ToFront(g0.lru, page), clock := now)
    ensures page != 0 ==>
      c == c0.(links := c.links, pages := c0.pages[page := c0.pages[page].(accessTime := now)], hits := c0.hits + 1)
  {
    ghost var steps;
    page, steps := FindPage(c0.mem, c0.root, c0.pages, k, g0.tree);
    IndexFinds(Cached(c0, g0), c0.pages, k, page);
    c, g := c0, g0;
    if page == 0 {
      c := c.(misses := c.misses + 1);
    } else {
      c, g := Hit(c0, page, now, g0);
    }
  }

  // ----- adding and removing one page -----

  /** The tree part of page_cache_add. */
  method AddToTree(mem0: Memory, root0: Ptr, pages0: Pages, page: Addr, pages: Pages, ghost t0: Tree<Addr>)
    returns (mem: Memory, root: Ptr, ghost t: Tree<Addr>)
    requires Indexed(mem0, root0, t0, pages0) && page !in pages0 && page in pages
      && pages == pages0[page := pages[page]]
    requires forall p :: p in pages0 ==> pages0[p].key != pages[page].key
    ensures Indexed(mem, root, t, pages)
  {
    mem := mem0[page := RbNode(0, 0, 0, Red)];
    KeepTree(mem0, mem, t0, 0, 0);
    var parent, atLeft;
    ghost var place, steps;
    parent, atLeft, place, steps := FindPlace(mem, root0, pages0, pages[page].key, t0);
    mem, root, t := InsertAt(mem, root0, page, parent, atLeft, place);
    SortedInsert(Before(place), page, After(place), pages0, pages);
  }

  /** The list part of page_cache_add. */
  method AddToList(links0: Links, pages0: Pages, page: Addr, pages: Pages, ghost lru: seq<Addr>, ghost clock: nat)
    returns (links: Links)
    requires Listed(links0, lru, pages0, clock) && page !in pages0 && page != LRU_LIST
    requires page in pages && pages == pages0[page := pages[page]] && clock <= pages[page].accessTime
    ensures Listed(links, [page] + lru, pages, pages[page].accessTime)
  {
    links := ListAdd(links0, page, LRU_LIST, lru);
    FrontRecency(lru, page, pages0, pages, clock, pages[page].accessTime);
  }

  /** The insertion part of page_cache_add. */
  method AddNew(c0: Cache, k: Key, frame: nat, page: Addr, now: nat, ghost g0: Shadow)
    returns (c: Cache, ghost g: Shadow)
    requires Valid(c0, g0) && g0.clock <= now && (forall p :: p in c0.pages ==> c0.pages[p].key != k)
    requires page !in c0.pages && page != LRU_LIST
    ensures Valid(c, g) && g == Shadow(g.tree, [page] + g0.lru, now) && Cached(c, g) == Cached(c0, g0)[k := page]
    ensures c == c0.(mem := c.mem, root := c.root, links := c.links,
                     pages := c0.pages[page := Page(frame, false, k, 1, now)], total := c0.total + 1)
  {
    var pages := c0.pages[page := Page(frame, false, k, 1, now)];
    var mem, root;
    ghost var tree;
    mem, root, tree := AddToTree(c0.mem, c0.root, c0.pages, page, pages, g0.tree);
    var links := AddToList(c0.links, c0.pages, page, pages, g0.lru, g0.clock);
    c := c0.(mem := mem, root := root, links := links, pages := pages, total := c0.total + 1);
    g := Shadow(tree, [page] + g0.lru, now);
    IndexFinds(Cached(c0, g0), c0.pages, k, 0);
    IndexAdded(Cached(c0, g0), c0.pages, page, Page(frame, false, k, 1, now));
    CachedIs(c, g, Cached(c0, g0)[k := page]);
  }

  lemma {:induction false} SortedInsert(b: seq<Addr>, n: Addr, a: seq<Addr>, pages: Pages, pages': Pages)
    requires Sorted(b + a, pages) && n !in pages && n in pages' && pages' == pages[n := pages'[n]]
      && Fits(b, a, pages, pages'[n].key)
    ensures Sorted(b + [n] + a, pages')
  {
    var s, r := b + a, b + [n] + a;
    forall i, j | 0 <= i < j < |r|
      ensures r[i] in pages' && r[j] in pages' && Less(pages'[r[i]].key, pages'[r[j]].key)
    {
      var i', j' := if i < |b| then i else i - 1, if j < |b| then j else j - 1;
      if i != |b| { assert r[i] == s[i']; }
      if j != |b| { assert r[j] == s[j']; }
      assert i == |b| ==> r[j] in a;
      assert j == |b| ==> r[i] in b;
    }
  }

  lemma {:induction false} InorderNoRepeats(t: Tree<Addr>, pages: Pages)
    requires Sorted(Inorder(t), pages)
    ensures NoRepeats(Inorder(t))
  {
  }

  lemma {:induction false} SortedWithout(t: Tree<Addr>, p: Addr, pages: Pages)
    requires p in Nodes(t) && Sorted(Inorder(t), pages)
    ensures Sorted(Dropped(Inorder(t), p), pages - {p})
  {
    InorderNode(t, p);
    InorderNoRepeats(t, pages);
    var k := RemovedIsDropped(Inorder(t), p);
    RemovedSorted(Dropped(Inorder(t), p), Inorder(t), k, pages);
  }

  lemma {:induction false} Unlisted(s: seq<Addr>, p: Addr, pages: Pages, clock: nat)
    requires NoRepeats(s) && p in s && Recency(s, pages, clock) && SameElements(s, pages.Keys)
    ensures Recency(Dropped(s, p), pages - {p}, clock) && SameElements(Dropped(s, p), pages.Keys - {p})
      && |Dropped(s, p)| == |s| - 1
  {
    var k := RemovedIsDropped(s, p);
    RemovedElements(Dropped(s, p), s, k, pages.Keys);
    RemovedRecency(Dropped(s, p), s, k, pages, clock);
  }

  /** page_cache_remove of a clean page: its frame is given back. */
  method Remove(c0: Cache, page: Ptr, ghost g0: Shadow) returns (c: Cache, ghost g: Shadow)
    requires Valid(c0, g0) && (page != 0 ==> page in c0.pages)
    ensures Valid(c, g)
    ensures page == 0 ==> c == c0 && g == g0
    ensures page != 0 ==> Cached(c, g) == Cached(c0, g0) - {c0.pages[page].key}
    ensures page != 0 ==>
      g == Shadow(g.tree, Dropped(g0.lru, page), g0.clock) && Inorder(g.tree) == Dropped(Inorder(g0.tree), page)
    ensures page != 0 ==> c == c0.(mem := c.mem, root := c.root, links := c.links, pages := c0.pages - {page},
                                   total := c0.total - 1, freed := c0.freed + [c0.pages[page].frame])
  {
    c, g := c0, g0;
    if page != 0 {
      var mem, root, links;
      ghost var tree;
      SortedWithout(g0.tree, page, c0.pages);
      Unlisted(g0.lru, page, c0.pages, g0.clock);
      mem, root, tree := Erase(c0.mem, c0.root, page, g0.tree);
      ghost var i := RemovedIsDropped(g0.lru, page);
      links := ListDel(c0.links, page, LRU_LIST, g0.lru, i);
      c := c0.(mem := mem, root := root, links := links, pages := c0.pages - {page}, total := c0.total - 1,
               freed := c0.freed + [c0.pages[page].frame]);
      g := Shadow(tree, Dropped(g0.lru, page), g0.clock);
      IndexDropped(Cached(c0, g0), c0.pages, page);
      CachedIs(c, g, Cached(c0, g0) - {c0.pages[page].key});
    }
  }

  // ----- reclaim -----

  predicate Reclaimable(page: Page)
  {
    !page.locked && page.refcount == 0
  }

  /** The list after reclaiming up to `n` pages from its old end. */
  ghost function Evict(s: seq<Addr>, pages: Pages, n: nat): seq<Addr>
    requires forall x :: x in s ==> x in pages
  {
    if s == [] || n == 0 then s
    else
      var k := |s| - 1;
      assert s[k] in s && forall x :: x in s[..k] ==> x in s;
      if Reclaimable(pages[s[k]]) then Evict(s[..k], pages, n - 1) else Evict(s[..k], pages, n) + [s[k]]
  }

  /** The frames it gives back, oldest first. */
  ghost function Reclaimed(s: seq<Addr>, pages: Pages, n: nat): seq<nat>
    requires forall x :: x in s ==> x in pages
  {
    if s == [] || n == 0 then []
    else
      var k := |s| - 1;
      assert s[k] in s && forall x :: x in s[..k] ==> x in s;
      if Reclaimable(pages[s[k]]) then [pages[s[k]].frame] + Reclaimed(s[..k], pages, n - 1)
      else Reclaimed(s[..k], pages, n)
  }

  ghost function Pinned(s: seq<Addr>, pages: Pages): seq<Addr>
    requires forall x :: x in s ==> x in pages
  {
    if s == [] then []
    else
      var k := |s| - 1;
      assert s[k] in s && forall x :: x in s[..k] ==> x in s;
      Pinned(s[..k], pages) + if Reclaimable(pages[s[k]]) then [] else [s[k]]
  }

  /** Reclaim empties a stretch at the old end of the list of everything reclaimable, and
      nothing else; it stops early only when it has reached its number. */
  lemma {:induction false} EvictCut(s: seq<Addr>, pages: Pages, n: nat) returns (cut: nat)
    requires forall x :: x in s ==> x in pages
    ensures cut <= |s| && (forall x :: x in s[cut..] ==> x in pages)
      && Evict(s, pages, n) == s[..cut] + Pinned(s[cut..], pages)
    ensures 0 <= |s| - |Evict(s, pages, n)| <= n && (cut > 0 ==> |s| - |Evict(s, pages, n)| == n)
  {
    if s == [] || n == 0 {
      cut := |s|;
      assert s[..cut] == s && s[cut..] == [];
    } else {
      var k := |s| - 1;
      assert s[k] in s && forall x :: x in s[..k] ==> x in s;
      cut := EvictCut(s[..k], pages, if Reclaimable(pages[s[k]]) then n - 1 else n);
      ButLast(s, cut);
      Longer(s[..cut], Pinned(s[..k][cut..], pages), s[k]);
    }
  }

  lemma {:induction false} ButLast(s: seq<Addr>, cut: nat)
    requires cut < |s|
    ensures var (k, t) := (|s| - 1, s[cut..]);
      s[..k][..cut] == s[..cut] && t[|t| - 1] == s[k] && t[..|t| - 1] == s[..k][cut..] && forall x :: x in t ==> x in s
  {
  }

  lemma {:induction false} Longer(a: seq<Addr>, b: seq<Addr>, p: Addr)
    ensures a + b + [p] == a + (b + [p]) && b + [] == b
  {
  }

  lemma {:induction false} PinnedMember(s: seq<Addr>, pages: Pages, x: Addr)
    requires forall y :: y in s ==> y in pages
    ensures x in Pinned(s, pages) <==> x in s && (pages[x].locked || pages[x].refcount > 0)
  {
    if s != [] {
      var k := |s| - 1;
      assert s[k] in s && s == s[..k] + [s[k]];
      PinnedMember(s[..k], pages, x);
    }
  }

  /** What reclaiming up to `n` of the pages `pages0`, listed in `s`, leaves: every page that is
      locked or referenced; only such pages, if it falls short; and only such ones further at the
      old end than a page that went. */
  ghost predicate Spares(s: seq<Addr>, pages0: Pages, pages: Pages, n: nat, reclaimed: nat)
    requires forall x :: x in s ==> x in pages0
  {
    && (forall p :: p in pages0 && (pages0[p].locked || pages0[p].refcount > 0) ==> p in pages)
    && (reclaimed < n ==> forall p :: p in pages && p in pages0 ==> pages0[p].locked || pages0[p].refcount > 0)
    && (forall i, j :: 0 <= i < j < |s| && s[i] !in pages && s[j] in pages ==>
        pages0[s[j]].locked || pages0[s[j]].refcount > 0)
  }

  lemma {:induction false} EvictSpares(s: seq<Addr>, pages0: Pages, n: nat, pages: Pages)
    requires NoRepeats(s) && SameElements(s, pages0.Keys) && SameElements(Evict(s, pages0, n), pages.Keys)
    ensures |Evict(s, pages0, n)| <= |s| && Spares(s, pages0, pages, n, |s| - |Evict(s, pages0, n)|)
  {
    var cut := EvictCut(s, pages0, n);
    forall x: Addr ensures x in pages <==> StaysIn(s, cut, pages0, x) {
      PinnedMember(s[cut..], pages0, x);
      assert x in pages <==> x in pages.Keys;
    }
    CutSpares(s, cut, pages0, pages, n, |s| - |Evict(s, pages0, n)|);
  }

  /** Where the list is cut, everything before it stays and behind it what is locked or referenced. */
  ghost predicate StaysIn(s: seq<Addr>, cut: nat, pages: Pages, x: Addr)
    requires cut <= |s|
  {
    x in s[..cut] || (x in s[cut..] && x in pages && (pages[x].locked || pages[x].refcount > 0))
  }

  lemma {:induction false} CutSpares(s: seq<Addr>, cut: nat, pages0: Pages, pages: Pages, n: nat, reclaimed: nat)
    requires NoRepeats(s) && SameElements(s, pages0.Keys) && cut <= |s| && (cut > 0 ==> reclaimed == n)
    requires forall x: Addr :: x in pages <==> StaysIn(s, cut, pages0, x)
    ensures Spares(s, pages0, pages, n, reclaimed)
  {
    forall p | p in pages0 ensures p in s[..cut] || p in s[cut..] {
      assert p in pages0.Keys && s == s[..cut] + s[cut..];
    }
    forall i | 0 <= i < cut ensures s[i] in pages { assert s[..cut][i] == s[i]; }
    forall j | cut <= j < |s| && s[j] in pages ensures pages0[s[j]].locked || pages0[s[j]].refcount > 0 {
      NotInFront(s, cut, j);
      assert StaysIn(s, cut, pages0, s[j]);
    }
  }

  lemma {:induction false} NotInFront(s: seq<Addr>, cut: nat, j: nat)
    requires NoRepeats(s) && cut <= j < |s|
    ensures s[j] !in s[..cut]
  {
    forall i | 0 <= i < cut ensures s[..cut][i] != s[j] { assert s[..cut][i] == s[i]; }
  }

  ghost function TailOf(s: seq<Addr>): Addr
  {
    if s == [] then LRU_LIST else s[|s| - 1]
  }

  lemma {:induction false} TailApart(s: seq<Addr>)
    requires s != []
    ensures s == s[..|s| - 1] + [TailOf(s)]
  {
  }

  /** One step of a walk from the old end: the page at the cursor and the page before it. */
  lemma {:induction false} ReverseStep(links: Links, left: seq<Addr>, kept: seq<Addr>, rest: seq<Addr>, p: Addr)
    requires Ring(links, LRU_LIST, left + kept) && left == rest + [p]
    ensures p in links && links[p].prev == TailOf(rest) && p != LRU_LIST && p in left + kept
    ensures Dropped(left + kept, p) == rest + kept && left + kept == rest + ([p] + kept)
  {
    var s, k := left + kept, |rest|;
    assert s[k] == p && (k > 0 ==> s[k - 1] == rest[k - 1]);
    Neighbours(links, LRU_LIST, s, k);
    assert s == rest + [p] + kept;
    forall i | 0 <= i < |rest| ensures rest[i] != p { assert s[i] == rest[i]; }
    WithoutAt(rest, p, kept);
  }

  lemma {:induction false} EvictStep(left: seq<Addr>, rest: seq<Addr>, p: Addr, pages: Pages, n: nat)
    requires left == rest + [p] && n > 0 && p in pages && forall x :: x in rest ==> x in pages
    ensures Evict(left, pages, n) ==
      if Reclaimable(pages[p]) then Evict(rest, pages, n - 1) else Evict(rest, pages, n) + [p]
    ensures Reclaimed(left, pages, n) ==
      if Reclaimable(pages[p]) then [pages[p].frame] + Reclaimed(rest, pages, n - 1) else Reclaimed(rest, pages, n)
  {
    assert left[..|left| - 1] == rest;
  }

  /** Nothing but the tree, the list and the removed pages has changed. */
  ghost predicate Shrunk(c0: Cache, c: Cache)
  {
    && (forall p :: p in c.pages ==> p in c0.pages && c.pages[p] == c0.pages[p])
    && c.hits == c0.hits && c.misses == c0.misses
  }

  /** The walk has `left` before it and has kept `kept` behind it. */
  ghost predicate Walking(c0: Cache, n: nat, g0: Shadow, c: Cache, reclaimed: nat, g: Shadow, left: seq<Addr>,
                          kept: seq<Addr>)
  {
    && Valid(c, g) && g.clock == g0.clock && g.lru == left + kept && reclaimed <= n
    && (forall x :: x in g0.lru + left ==> x in c0.pages)
    && Evict(g0.lru, c0.pages, n) == Evict(left, c0.pages, n - reclaimed) + kept
    && c0.freed + Reclaimed(g0.lru, c0.pages, n) == c.freed + Reclaimed(left, c0.pages, n - reclaimed)
    && |g.lru| + reclaimed == |g0.lru| && Shrunk(c0, c) && c.evictions == c0.evictions + reclaimed
  }

  lemma {:induction false} WalkStarts(c: Cache, n: nat, g: Shadow)
    requires Valid(c, g)
    ensures Walking(c, n, g, c, 0, g, g.lru, [])
  {
    assert g.lru + [] == g.lru && Evict(g.lru, c.pages, n) + [] == Evict(g.lru, c.pages, n);
  }

  lemma {:induction false} WalkKeeps(c0: Cache, n: nat, g0: Shadow, c: Cache, r: nat, g: Shadow, left: seq<Addr>,
                                     kept: seq<Addr>, rest: seq<Addr>, p: Addr)
    requires Walking(c0, n, g0, c, r, g, left, kept) && left == rest + [p] && r < n && p in c.pages
      && !Reclaimable(c.pages[p])
    ensures Walking(c0, n, g0, c, r, g, rest, [p] + kept)
  {
    assert p in left && forall x :: x in rest ==> x in left;
    EvictStep(left, rest, p, c0.pages, n - r);
    Regrouped(rest, p, kept);
    Regrouped(Evict(rest, c0.pages, n - r), p, kept);
  }

  lemma {:induction false} Regrouped(a: seq<Addr>, p: Addr, b: seq<Addr>)
    ensures a + [p] + b == a + ([p] + b)
  {
  }

  /** The page at the cursor. */
  lemma {:induction false} WalkSees(c0: Cache, n: nat, g0: Shadow, c: Cache, r: nat, g: Shadow, left: seq<Addr>,
                                    kept: seq<Addr>, rest: seq<Addr>, p: Addr)
    requires Walking(c0, n, g0, c, r, g, left, kept) && left == rest + [p]
    ensures p in c.links && c.links[p].prev == TailOf(rest) && p in c.pages && Dropped(g.lru, p) == rest + kept
  {
    ReverseStep(c.links, left, kept, rest, p);
  }

  lemma {:induction false} WalkEvicts(c0: Cache, n: nat, g0: Shadow, c: Cache, r: nat, g: Shadow, left: seq<Addr>,
                                      kept: seq<Addr>, rest: seq<Addr>, p: Addr, c': Cache, g': Shadow)
    requires Walking(c0, n, g0, c, r, g, left, kept) && left == rest + [p] && r < n && p in c.pages
      && Reclaimable(c.pages[p])
    requires Valid(c', g') && g' == Shadow(g'.tree, rest + kept, g.clock)
    requires c' == c.(mem := c'.mem, root := c'.root, links := c'.links, pages := c.pages - {p}, total := c.total - 1,
                      freed := c.freed + [c.pages[p].frame], evictions := c.evictions + 1)
    ensures Walking(c0, n, g0, c', r + 1, g', rest, kept)
  {
    assert p in left && forall x :: x in rest ==> x in left;
    EvictStep(left, rest, p, c0.pages, n - r);
    MoreFreed(c.freed, c.pages[p].frame, Reclaimed(rest, c0.pages, n - r - 1));
  }

  lemma {:induction false} MoreFreed(a: seq<nat>, f: nat, b: seq<nat>)
    ensures a + ([f] + b) == a + [f] + b
  {
  }

  /** page_cache_reclaim removes the page at the cursor. */
  method EvictPage(c1: Cache, p: Addr, ghost c0: Cache, ghost n: nat, ghost g0: Shadow, ghost r: nat,
                   ghost g1: Shadow, ghost left: seq<Addr>, ghost kept: seq<Addr>, ghost rest: seq<Addr>)
    returns (c: Cache, ghost g: Shadow)
    requires Walking(c0, n, g0, c1, r, g1, left, kept) && left == rest + [p] && r < n && p in c1.pages
      && Reclaimable(c1.pages[p])
    requires Dropped(g1.lru, p) == rest + kept
    ensures Walking(c0, n, g0, c, r + 1, g, rest, kept)
  {
    c, g := Remove(c1, p, g1);
    c := c.(evictions := c.evictions + 1);
    WalkEvicts(c0, n, g0, c1, r, g1, left, kept, rest, p, c, g);
  }

  /** page_cache_reclaim: the walk from the old end keeps going although it removes pages
      under way. */
  method Reclaim(c0: Cache, n: nat, ghost g0: Shadow) returns (c: Cache, reclaimed: nat, ghost g: Shadow)
    requires Valid(c0, g0)
    ensures Valid(c, g) && g == Shadow(g.tree, Evict(g0.lru, c0.pages, n), g0.clock)
      && Cached(c, g) == Among(Cached(c0, g0), g.lru)
    ensures reclaimed == |g0.lru| - |g.lru| && c.freed == c0.freed + Reclaimed(g0.lru, c0.pages, n)
    ensures Shrunk(c0, c) && c.evictions == c0.evictions + reclaimed && Spares(g0.lru, c0.pages, c.pages, n, reclaimed)
  {
    c, reclaimed, g := c0, 0, g0;
    ghost var left, kept := g0.lru, [];
    WalkStarts(c, n, g);
    var page := c.links[LRU_LIST].prev;
    while page != LRU_LIST && reclaimed < n
      invariant Walking(c0, n, g0, c, reclaimed, g, left, kept) && page == TailOf(left)
      decreases |left|
    {
      ghost var rest := left[..|left| - 1];
      TailApart(left);
      WalkSees(c0, n, g0, c, reclaimed, g, left, kept, rest, page);
      var tmp := c.links[page].prev;
      if !Reclaimable(c.pages[page]) {
        WalkKeeps(c0, n, g0, c, reclaimed, g, left, kept, rest, page);
        kept := [page as Addr] + kept;
      } else {
        c, g := EvictPage(c, page, c0, n, g0, reclaimed, g, left, kept, rest);
        reclaimed := reclaimed + 1;
      }
      page, left := tmp, rest;
    }
    WalkEnds(c0, n, g0, c, reclaimed, g, left, kept);
    EvictSpares(g0.lru, c0.pages, n, c.pages);
  }

  lemma {:induction false} WalkEnds(c0: Cache, n: nat, g0: Shadow, c: Cache, reclaimed: nat, g: Shadow,
                                    left: seq<Addr>, kept: seq<Addr>)
    requires Walking(c0, n, g0, c, reclaimed, g, left, kept) && (left == [] || reclaimed == n)
    ensures g.lru == Evict(g0.lru, c0.pages, n) && c.freed == c0.freed + Reclaimed(g0.lru, c0.pages, n)
    ensures Valid(c0, g0) ==> Cached(c, g) == Among(Cached(c0, g0), g.lru)
  {
    assert c.freed + [] == c.freed && [] + kept == kept;
    if Valid(c0, g0) { ShrunkIndex(c0, g0, c, g); }
  }

  lemma {:induction false} ShrunkIndex(c0: Cache, g0: Shadow, c: Cache, g: Shadow)
    requires Valid(c0, g0) && Valid(c, g) && Shrunk(c0, c)
    ensures Cached(c, g) == Among(Cached(c0, g0), g.lru)
  {
    IndexAmong(Cached(c0, g0), c0.pages, c.pages, g.lru);
    CachedIs(c, g, Among(Cached(c0, g0), g.lru));
  }

  /** The LRU list once page_cache_add has made room. */
  ghost function Room(s: seq<Addr>, pages: Pages): seq<Addr>
    requires forall x :: x in s ==> x in pages
  {
    if |s| >= MAX_CACHE_PAGES then Evict(s, pages, 1) else s
  }

  /** The frame that this gives back, if any. */
  ghost function Evicted(s: seq<Addr>, pages: Pages): seq<nat>
    requires forall x :: x in s ==> x in pages
  {
    if |s| >= MAX_CACHE_PAGES then Reclaimed(s, pages, 1) else []
  }

  /** Apart from `page`, every page was there before and is as it was. */
  ghost predicate Apart(pages0: Pages, pages: Pages, page: Ptr)
  {
    forall p :: p in pages && p != page ==> p in pages0 && pages[p] == pages0[p]
  }

  lemma {:induction false} AddedApart(pages0: Pages, pages: Pages, page: Addr, x: Page)
    requires Apart(pages0, pages, 0)
    ensures Apart(pages0, pages[page := x], page)
  {
  }

  /** page_cache_add reclaims one page when the cache is full. */
  method MakeRoom(c0: Cache, ghost g0: Shadow) returns (c: Cache, ghost g: Shadow)
    requires Valid(c0, g0)
    ensures Valid(c, g) && g == Shadow(g.tree, Room(g0.lru, c0.pages), g0.clock) && Apart(c0.pages, c.pages, 0)
    ensures Cached(c, g) == Among(Cached(c0, g0), g.lru) && c.freed == c0.freed + Evicted(g0.lru, c0.pages)
    ensures c.hits == c0.hits && c.misses == c0.misses && c.evictions == c0.evictions + |g0.lru| - |g.lru|
    ensures forall p :: p in c0.pages && (c0.pages[p].locked || c0.pages[p].refcount > 0) ==> p in c.pages
  {
    c, g := c0, g0;
    if c.total >= MAX_CACHE_PAGES {
      var reclaimed;
      c, reclaimed, g := Reclaim(c, 1, g);
    } else {
      IndexAmong(Cached(c, g), c.pages, c.pages, g.lru);
      CachedIs(c, g, Among(Cached(c, g), g.lru));
      assert c.freed + [] == c.freed;
    }
  }

  ghost predicate Counters(c0: Cache, c: Cache, hits: nat, misses: nat, evictions: int)
  {
    c.hits == c0.hits + hits && c.misses == c0.misses + misses && c.evictions == c0.evictions + evictions
  }

  /** page_cache_add: an existing page is returned as by page_cache_lookup; otherwise a full
      cache gives up its oldest reclaimable page, if it has one, and the new page goes in
      front.  `memory` says whether a descriptor can be allocated. */
  method Add(c0: Cache, k: Key, frame: nat, now: nat, memory: bool, ghost g0: Shadow)
    returns (c: Cache, page: Ptr, ghost g: Shadow)
    requires Valid(c0, g0) && g0.clock <= now
    ensures Valid(c, g) && (page == 0 <==> k !in Cached(c0, g0) && !memory)
    ensures k in Cached(c0, g0) ==> Counters(c0, c, 1, 0, 0) && c.freed == c0.freed
    ensures k !in Cached(c0, g0) ==> c.freed == c0.freed + Evicted(g0.lru, c0.pages)
    ensures k !in Cached(c0, g0) ==> Counters(c0, c, 0, 1, |g0.lru| - |Room(g0.lru, c0.pages)|)
    ensures forall p :: p in c0.pages && (c0.pages[p].locked || c0.pages[p].refcount > 0) ==> p in c.pages
    ensures Finds(c0.pages, k, 0) && page == 0 ==> g.lru == Room(g0.lru, c0.pages)
    ensures Finds(c0.pages, k, 0) && page != 0 ==>
      page !in Room(g0.lru, c0.pages) && g.lru == ToFront(Room(g0.lru, c0.pages), page)
    ensures Finds(c0.pages, k, 0) && page != 0 ==> page in c.pages && c.pages[page] == Page(frame, false, k, 1, now)
    ensures Finds(c0.pages, k, 0) ==> Apart(c0.pages, c.pages, page)
    ensures k !in Cached(c0, g0) ==>
      var m := Among(Cached(c0, g0), Room(g0.lru, c0.pages));
      Cached(c, g) == if page == 0 then m else m[k := page]
    ensures k in Cached(c0, g0) ==> page == Cached(c0, g0)[k] && Cached(c, g) == Cached(c0, g0)
    ensures !Finds(c0.pages, k, 0) ==> Finds(c0.pages, k, page) && page != 0 && g.lru == ToFront(g0.lru, page)
    ensures !Finds(c0.pages, k, 0) ==> c.pages == c0.pages[page := c0.pages[page].(accessTime := now)]
  {
    c, page, g := Lookup(c0, k, now, g0);
    IndexFinds(Cached(c0, g0), c0.pages, k, 0);
    if page == 0 {
      c, g := MakeRoom(c, g);
      if memory {
        ghost var unused := Unused(c.pages.Keys + {LRU_LIST});
        assert unused !in c.pages && unused != LRU_LIST;
        page :| page != 0 && page !in c.pages && page != LRU_LIST;
        NotYetListed(g.lru, page);
        AddedApart(c0.pages, c.pages, page, Page(frame, false, k, 1, now));
        c, g := AddNew(c, k, frame, page, now, g);
      }
    }
  }

  lemma {:induction false} NotYetListed(s: seq<Addr>, p: Addr)
    requires p !in s
    ensures ToFront(s, p) == [p] + s
  {
    WithoutAbsent<Addr>(s, p);
  }

  // ----- invalidation -----

  ghost function Surviving(s: seq<Addr>, ks: set<Addr>): seq<Addr>
  {
    if s == [] then [] else if s[0] in ks then [s[0]] + Surviving(s[1..], ks) else Surviving(s[1..], ks)
  }

  lemma {:induction false} AllSurvive(s: seq<Addr>, ks: set<Addr>)
    requires forall x :: x in s ==> x in ks
    ensures Surviving(s, ks) == s
  {
    if s != [] {
      assert s[0] in s;
      AllSurvive(s[1..], ks);
    }
  }

  lemma {:induction false} SurvivorsDrop(s: seq<Addr>, ks: set<Addr>, p: Addr)
    requires NoRepeats(s)
    ensures Surviving(s, ks - {p}) == Dropped(Surviving(s, ks), p)
  {
    if s != [] {
      assert NoRepeats(s[1..]);
      SurvivorsDrop(s[1..], ks, p);
      if s[0] == p {
        assert p !in s[1..];
        SurvivorsAmong(s[1..], ks, p);
        WithoutAbsent<Addr>(Surviving(s[1..], ks), p);
        if p in ks { assert Surviving(s, ks)[1..] == Surviving(s[1..], ks); }
      } else if s[0] in ks {
        assert Surviving(s, ks)[1..] == Surviving(s[1..], ks);
      }
    }
  }

  lemma {:induction false} SurvivorsAmong(s: seq<Addr>, ks: set<Addr>, p: Addr)
    ensures p in Surviving(s, ks) ==> p in s && p in ks
  {
    if s != [] { SurvivorsAmong(s[1..], ks, p); }
  }

  /** The frames of the pages of an inode. */
  ghost function Doomed(s: seq<Addr>, pages: Pages, inode: nat): seq<nat>
  {
    if s == [] then []
    else
      var (k, x) := (|s| - 1, s[|s| - 1]);
      Doomed(s[..k], pages, inode) + if x in pages && pages[x].key.inode == inode then [pages[x].frame] else []
  }

  lemma {:induction false} DoomedMore(s: seq<Addr>, x: Addr, pages: Pages, inode: nat, f: seq<nat>)
    requires x in pages
    ensures f + Doomed(s + [x], pages, inode) ==
      f + Doomed(s, pages, inode) + if pages[x].key.inode == inode then [pages[x].frame] else []
  {
    assert (s + [x])[..|s|] == s;
  }

  /** The sweep has met `seen`, in key order, and still has `rest` before it. */
  ghost predicate Sweeping(c0: Cache, g0: Shadow, inode: nat, c: Cache, g: Shadow, seen: seq<Addr>, kept: seq<Addr>,
                           rest: seq<Addr>)
  {
    && Valid(c0, g0) && Valid(c, g) && g.clock == g0.clock
    && Inorder(g0.tree) == seen + rest && Inorder(g.tree) == kept + rest
    && g.lru == Surviving(g0.lru, c.pages.Keys) && c.freed == c0.freed + Doomed(seen, c0.pages, inode)
    && (forall p :: p in c.pages ==> p in c0.pages && c.pages[p] == c0.pages[p])
    && (forall p :: p in c0.pages ==> (p in c.pages <==> p in rest || c0.pages[p].key.inode != inode))
    && (forall p :: p in kept ==> p in c.pages && c.pages[p].key.inode != inode) && Counters(c0, c, 0, 0, 0)
  }

  /** page_cache_invalidate_inode: exactly the pages of the inode go; the walk, which erases
      under its own feet, meets every page once and in key order. */
  method InvalidateInode(c0: Cache, inode: nat, ghost g0: Shadow)
    returns (c: Cache, ghost g: Shadow, ghost seen: seq<Addr>)
    requires Valid(c0, g0)
    ensures Valid(c, g) && seen == Inorder(g0.tree) && Cached(c, g) == Outside(Cached(c0, g0), inode)
    ensures c.freed == c0.freed + Doomed(seen, c0.pages, inode)
    ensures forall p :: p in c.pages ==> p in c0.pages && c.pages[p] == c0.pages[p]
    ensures forall p :: p in c0.pages ==> (p in c.pages <==> c0.pages[p].key.inode != inode)
    ensures g.lru == Surviving(g0.lru, c.pages.Keys) && Counters(c0, c, 0, 0, 0)
  {
    c, g, seen := c0, g0, [];
    ghost var kept, rest := [], Inorder(g0.tree);
    SweepStarts(c0, g0, inode);
    var node := First(c.mem, c.root, g.tree);
    while node != 0
      invariant Sweeping(c0, g0, inode, c, g, seen, kept, rest) && node == FirstOf(rest)
      decreases |rest|
    {
      var next;
      ghost var a, b;
      SweepNode(c.pages, g.tree, kept, rest);
      next, a, b := Next(c.mem, c.root, node, g.tree);
      SameSplit(kept, rest[1..], a, b, node);
      if c.pages[node].key.inode == inode {
        ghost var c1, g1 := c, g;
        c, g := Remove(c, node, g);
        SweepRemoves(c0, g0, inode, c1, g1, seen, kept, rest, c, g);
      } else {
        SweepKeeps(c0, g0, inode, c, g, seen, kept, rest);
        kept := kept + [node as Addr];
      }
      seen, rest := seen + [node as Addr], rest[1..];
      node := next;
    }
    SweepEnds(c0, g0, inode, c, g, seen, kept, rest);
  }

  lemma {:induction false} SweepEnds(c0: Cache, g0: Shadow, inode: nat, c: Cache, g: Shadow, seen: seq<Addr>,
                                     kept: seq<Addr>, rest: seq<Addr>)
    requires Sweeping(c0, g0, inode, c, g, seen, kept, rest) && rest == []
    ensures seen == Inorder(g0.tree) && Cached(c, g) == Outside(Cached(c0, g0), inode)
  {
    assert seen + rest == seen;
    IndexOutside(Cached(c0, g0), c0.pages, c.pages, inode);
    CachedIs(c, g, Outside(Cached(c0, g0), inode));
  }

  lemma {:induction false} SweepStarts(c: Cache, g: Shadow, inode: nat)
    requires Valid(c, g)
    ensures Sweeping(c, g, inode, c, g, [], [], Inorder(g.tree))
  {
    AllSurvive(g.lru, c.pages.Keys);
    InorderNodes(g.tree);
    assert c.freed + [] == c.freed;
  }

  lemma {:induction false} SweepNode(pages: Pages, t: Tree<Addr>, kept: seq<Addr>, rest: seq<Addr>)
    requires pages.Keys == Nodes(t) && Inorder(t) == kept + rest && rest != []
    ensures rest[0] in pages && rest[0] in Nodes(t) && kept + rest == kept + [rest[0]] + rest[1..]
  {
    InorderNode(t, rest[0]);
  }

  lemma {:induction false} SameSplit(a: seq<Addr>, b: seq<Addr>, a': seq<Addr>, b': seq<Addr>, x: Addr)
    requires a + [x] + b == a' + [x] + b' && x !in a' && x !in b'
    ensures a == a' && b == b'
  {
    var s := a + [x] + b;
    assert s[|a|] == x && s[|a'|] == x;
    assert a == s[..|a|] && a' == s[..|a'|];
    assert b == s[|a| + 1..] && b' == s[|a'| + 1..];
  }

  lemma {:induction false} SweepKeeps(c0: Cache, g0: Shadow, inode: nat, c: Cache, g: Shadow, seen: seq<Addr>,
                                      kept: seq<Addr>, rest: seq<Addr>)
    requires Sweeping(c0, g0, inode, c, g, seen, kept, rest) && rest != [] && rest[0] in c.pages
      && c.pages[rest[0]].key.inode != inode
    ensures Sweeping(c0, g0, inode, c, g, seen + [rest[0]], kept + [rest[0]], rest[1..])
  {
    Shifted(seen, rest);
    Shifted(kept, rest);
    DoomedMore(seen, rest[0], c0.pages, inode, c0.freed);
    assert c.freed + [] == c.freed;
  }

  lemma {:induction false} SweepRemoves(c0: Cache, g0: Shadow, inode: nat, c: Cache, g: Shadow, seen: seq<Addr>,
                                        kept: seq<Addr>, rest: seq<Addr>, c': Cache, g': Shadow)
    requires Sweeping(c0, g0, inode, c, g, seen, kept, rest) && rest != [] && rest[0] in c.pages
      && c.pages[rest[0]].key.inode == inode
    requires Valid(c', g') && c'.pages == c.pages - {rest[0]} && g' == Shadow(g'.tree, Dropped(g.lru, rest[0]), g.clock)
    requires Inorder(g'.tree) == Dropped(Inorder(g.tree), rest[0]) && c'.freed == c.freed + [c.pages[rest[0]].frame]
    requires Counters(c, c', 0, 0, 0)
    ensures Sweeping(c0, g0, inode, c', g', seen + [rest[0]], kept, rest[1..])
  {
    Shifted(seen, rest);
    Shifted(kept, rest);
    WithoutAt(kept, rest[0], rest[1..]);
    SurvivorsDrop(g0.lru, c.pages.Keys, rest[0]);
    InorderNoRepeats(g0.tree, c0.pages);
    RestIsNew(seen, rest);
    DoomedMore(seen, rest[0], c0.pages, inode, c0.freed);
  }

  lemma {:induction false} Shifted(a: seq<Addr>, b: seq<Addr>)
    requires b != []
    ensures a + b == a + [b[0]] + b[1..] && a + b == (a + [b[0]]) + b[1..]
    ensures forall x :: x in b <==> x == b[0] || x in b[1..]
  {
  }

  lemma {:induction false} RestIsNew(a: seq<Addr>, b: seq<Addr>)
    requires NoRepeats(a + b) && b != []
    ensures b[0] !in b[1..]
  {
    var s := a + b;
    forall i | 0 < i < |b| ensures b[i] != b[0] { assert s[|a| + i] == b[i] && s[|a|] == b[0]; }
  }
}

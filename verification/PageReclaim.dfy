/** kernel/mm/page_reclaim.c: page frames on an active and an inactive LRU list, and the
    scans that demote, promote and free them while walking the lists from their old ends.
 */
module PageReclaim {
  import opened Machine
  import opened Sequences
  import opened LinkedList

  /** The two list heads in the manager. */
  const ACTIVE: Addr := 1
  const INACTIVE: Addr := 2

  /** struct page_descriptor, its flags written out. */
  datatype Page = Page(frame: nat, refs: nat, locked: bool, dirty: bool, accessed: bool, active: bool, reserved: bool)

  type Pages = map<Addr, Page>

  /** The LRU manager, the page descriptors with their links, and the frames given back. */
  datatype Lru = Lru(links: Links, pages: Pages, activeCount: nat, inactiveCount: nat, freed: seq<nat>)

  /** What the lists hold. */
  datatype Lists = Lists(active: seq<Addr>, inactive: seq<Addr>)

  /** The counters are the lengths of the lists, the ACTIVE flag of a listed page is right,
      and a page on no list has its links on itself. */
  ghost predicate Valid(m: Lru, g: Lists)
  {
    && Ring(m.links, ACTIVE, g.active) && Ring(m.links, INACTIVE, g.inactive)
    && Disjoint(ACTIVE, g.active, INACTIVE, g.inactive)
    && m.activeCount == |g.active| && m.inactiveCount == |g.inactive|
    && Flagged(m.pages, g) && Idle(m.links, m.pages, g)
  }

  ghost predicate Flagged(pages: Pages, g: Lists)
  {
    && (forall x :: x in g.active ==> x in pages && pages[x].active)
    && (forall x :: x in g.inactive ==> x in pages && !pages[x].active)
    && ACTIVE !in pages && INACTIVE !in pages
  }

  ghost predicate Idle(links: Links, pages: Pages, g: Lists)
  {
    forall x :: x in pages && x !in g.active && x !in g.inactive ==> x in links && links[x] == Link(x, x)
  }

  /** The same pages are listed. */
  ghost predicate SamePages(g0: Lists, g: Lists)
  {
    multiset(g.active) + multiset(g.inactive) == multiset(g0.active) + multiset(g0.inactive)
  }

  /** list_empty on a page: it is on no list. */
  method Unlisted(m: Lru, p: Addr, ghost g: Lists) returns (r: bool)
    requires Valid(m, g) && p in m.pages
    ensures r == (p !in g.active && p !in g.inactive)
  {
    if p in g.active {
      ghost var k :| 0 <= k < |g.active| && g.active[k] == p;
      NotItself(m.links, ACTIVE, g.active, k);
    } else if p in g.inactive {
      ghost var k :| 0 <= k < |g.inactive| && g.inactive[k] == p;
      NotItself(m.links, INACTIVE, g.inactive, k);
    }
    r := m.links[p].next == p;
  }

  lemma {:induction false} NotItself(h: Links, head: Addr, s: seq<Addr>, k: nat)
    requires Ring(h, head, s) && k < |s|
    ensures s[k] in h && h[s[k]].next != s[k]
  {
    Neighbours(h, head, s, k + 1);
    assert s[k] in s;
  }

  // ----- moving one page -----

  /** Page `p` has gone from one list to the other: `s` without its element `k` and `t` with it
      in front. */
  lemma {:induction false} Shifted(s: seq<Addr>, k: nat, t: seq<Addr>)
    requires NoRepeats(s) && k < |s|
    ensures multiset(RemoveAt(s, k)) + multiset([s[k]] + t) == multiset(s) + multiset(t)
    ensures multiset([s[k]] + t) + multiset(RemoveAt(s, k)) == multiset(t) + multiset(s)
    ensures forall x :: x in s || x in t <==> x in RemoveAt(s, k) || x in [s[k]] + t
  {
    RemovedMembers(s, k);
  }

  lemma {:induction false} StillIdle(links: Links, links': Links, pages: Pages, p: Addr, page: Page, g: Lists,
                                     g': Lists)
    requires Idle(links, pages, g) && p in pages && (p in g.active || p in g.inactive) && ACTIVE !in pages
      && INACTIVE !in pages
    requires forall x :: x in g.active || x in g.inactive <==> x in g'.active || x in g'.inactive
    requires Outside(links, links', ACTIVE, g.active, INACTIVE, g.inactive)
    ensures Idle(links', pages[p := page], g')
  {
  }

  /** From the active list to the front of the inactive list. */
  method Deactivate(m0: Lru, p: Addr, ghost g0: Lists, ghost k: nat) returns (m: Lru, ghost g: Lists)
    requires Valid(m0, g0) && k < |g0.active| && g0.active[k] == p
    ensures Valid(m, g) && g == Lists(RemoveAt(g0.active, k), [p] + g0.inactive) && SamePages(g0, g) && p in m0.pages
    ensures m == m0.(links := m.links, pages := m0.pages[p := m0.pages[p].(active := false)],
                     activeCount := m.activeCount, inactiveCount := m.inactiveCount)
  {
    assert p in g0.active;
    var links := Transfer(m0.links, p, ACTIVE, INACTIVE, g0.active, k, g0.inactive);
    var page := m0.pages[p].(active := false);
    m := m0.(links := links, pages := m0.pages[p := page], activeCount := m0.activeCount - 1,
             inactiveCount := m0.inactiveCount + 1);
    g := Lists(RemoveAt(g0.active, k), [p] + g0.inactive);
    Shifted(g0.active, k, g0.inactive);
    StillIdle(m0.links, links, m0.pages, p, page, g0, g);
    LeftActive(m0.pages, g0, k, page, g);
  }

  lemma {:induction false} LeftActive(pages: Pages, g0: Lists, k: nat, page: Page, g: Lists)
    requires Flagged(pages, g0) && Disjoint(ACTIVE, g0.active, INACTIVE, g0.inactive) && NoRepeats(g0.active)
      && k < |g0.active|
    requires g == Lists(RemoveAt(g0.active, k), [g0.active[k]] + g0.inactive) && !page.active
    ensures Flagged(pages[g0.active[k] := page], g)
  {
    RemovedMembers(g0.active, k);
    assert g0.active[k] in g0.active;
  }

  /** From the inactive list to the front of the active list. */
  method Activate(m0: Lru, p: Addr, ghost g0: Lists, ghost k: nat) returns (m: Lru, ghost g: Lists)
    requires Valid(m0, g0) && k < |g0.inactive| && g0.inactive[k] == p
    ensures Valid(m, g) && g == Lists([p] + g0.active, RemoveAt(g0.inactive, k)) && SamePages(g0, g) && p in m0.pages
    ensures m == m0.(links := m.links, pages := m0.pages[p := m0.pages[p].(active := true)],
                     activeCount := m.activeCount, inactiveCount := m.inactiveCount)
  {
    assert p in g0.inactive;
    DisjointSwapped(ACTIVE, g0.active, INACTIVE, g0.inactive);
    var links := Transfer(m0.links, p, INACTIVE, ACTIVE, g0.inactive, k, g0.active);
    Swapped(m0.links, links, INACTIVE, g0.inactive, ACTIVE, g0.active);
    DisjointSwapped(INACTIVE, RemoveAt(g0.inactive, k), ACTIVE, [p] + g0.active);
    var page := m0.pages[p].(active := true);
    m := m0.(links := links, pages := m0.pages[p := page], inactiveCount := m0.inactiveCount - 1,
             activeCount := m0.activeCount + 1);
    g := Lists([p] + g0.active, RemoveAt(g0.inactive, k));
    Shifted(g0.inactive, k, g0.active);
    StillIdle(m0.links, links, m0.pages, p, page, g0, g);
    JoinedActive(m0.pages, g0, k, page, g);
  }

  lemma {:induction false} JoinedActive(pages: Pages, g0: Lists, k: nat, page: Page, g: Lists)
    requires Flagged(pages, g0) && Disjoint(ACTIVE, g0.active, INACTIVE, g0.inactive) && NoRepeats(g0.inactive)
      && k < |g0.inactive|
    requires g == Lists([g0.inactive[k]] + g0.active, RemoveAt(g0.inactive, k)) && page.active
    ensures Flagged(pages[g0.inactive[k] := page], g)
  {
    RemovedMembers(g0.inactive, k);
    assert g0.inactive[k] in g0.inactive;
  }

  /** Changing flags other than ACTIVE changes nothing about the lists. */
  lemma {:induction false} Reflagged(m: Lru, g: Lists, p: Addr, page: Page)
    requires Valid(m, g) && p in m.pages && page.active == m.pages[p].active
    ensures Valid(m.(pages := m.pages[p := page]), g)
  {
  }

  // ----- the interface -----

  lemma {:induction false} Position(s: seq<Addr>, p: Addr) returns (k: nat)
    requires NoRepeats(s) && p in s
    ensures k < |s| && s[k] == p && Without<Addr>(s, p) == RemoveAt(s, k)
  {
    k :| 0 <= k < |s| && s[k] == p;
    WithoutIsRemoveAt<Addr>(s, k);
  }

  /** A page on no list joins the inactive list. */
  method Join(m0: Lru, p: Addr, ghost g0: Lists) returns (m: Lru, ghost g: Lists)
    requires Valid(m0, g0) && p in m0.pages && p !in g0.active && p !in g0.inactive
    ensures Valid(m, g) && g == Lists(g0.active, [p] + g0.inactive)
    ensures m == m0.(links := m.links, pages := m0.pages[p := m0.pages[p].(active := false)],
                     inactiveCount := m0.inactiveCount + 1)
  {
    var links := ListAdd(m0.links, p, INACTIVE, g0.inactive);
    OtherRing(m0.links, links, ACTIVE, g0.active);
    m := m0.(links := links, pages := m0.pages[p := m0.pages[p].(active := false)],
             inactiveCount := m0.inactiveCount + 1);
    g := Lists(g0.active, [p] + g0.inactive);
  }

  /** lru_add_page: wherever the page was, it is now at the front of the inactive list. */
  method AddPage(m0: Lru, p: Ptr, ghost g0: Lists) returns (m: Lru, ghost g: Lists)
    requires Valid(m0, g0) && (p != 0 ==> p in m0.pages)
    ensures Valid(m, g)
    ensures p == 0 ==> m == m0 && g == g0
    ensures p != 0 ==> g == Lists(Without<Addr>(g0.active, p), [p as Addr] + Without<Addr>(g0.inactive, p))
    ensures p != 0 ==> m.pages == m0.pages[p := m0.pages[p].(active := false)] && m.freed == m0.freed
  {
    m, g := m0, g0;
    if p == 0 {
      return;
    }
    var unlisted := Unlisted(m, p, g);
    if unlisted {
      WithoutAbsent<Addr>(g0.active, p);
      WithoutAbsent<Addr>(g0.inactive, p);
      m, g := Join(m, p, g);
    } else if m.pages[p].active {
      ghost var k := Position(g0.active, p);
      WithoutAbsent<Addr>(g0.inactive, p);
      m, g := Deactivate(m, p, g, k);
    } else {
      ghost var k := Position(g0.inactive, p);
      WithoutAbsent<Addr>(g0.active, p);
      m, g := Refresh(m, p, g, k);
    }
  }

  /** To the front of the inactive list, for a page that is on it. */
  method Refresh(m0: Lru, p: Addr, ghost g0: Lists, ghost k: nat) returns (m: Lru, ghost g: Lists)
    requires Valid(m0, g0) && k < |g0.inactive| && g0.inactive[k] == p
    ensures Valid(m, g) && g == Lists(g0.active, [p] + RemoveAt(g0.inactive, k)) && p in m0.pages
    ensures m == m0.(links := m.links) && m0.pages == m0.pages[p := m0.pages[p].(active := false)]
  {
    RemovedMembers(g0.inactive, k);
    assert p in g0.inactive;
    var links := MoveToFront(m0.links, p, INACTIVE, g0.inactive, k);
    OtherRing(m0.links, links, ACTIVE, g0.active);
    m := m0.(links := links);
    g := Lists(g0.active, [p] + RemoveAt(g0.inactive, k));
    Same(m0.pages, p, m0.pages[p].(active := false));
  }

  lemma {:induction false} Same(pages: Pages, p: Addr, page: Page)
    requires p in pages && pages[p] == page
    ensures pages == pages[p := page]
  {
  }

  /** Off the inactive list, the links left on the page itself. */
  method TakeInactive(m0: Lru, p: Addr, ghost g0: Lists, ghost k: nat) returns (m: Lru, ghost g: Lists)
    requires Valid(m0, g0) && k < |g0.inactive| && g0.inactive[k] == p
    ensures Valid(m, g) && g == Lists(g0.active, RemoveAt(g0.inactive, k))
    ensures m == m0.(links := m.links, inactiveCount := m.inactiveCount)
  {
    RemovedMembers(g0.inactive, k);
    var links := ListDel(m0.links, p, INACTIVE, g0.inactive, k);
    OtherRing(m0.links, links, ACTIVE, g0.active);
    ghost var h := links;
    links := links[p := Link(p, p)];
    OtherRing(h, links, ACTIVE, g0.active);
    OtherRing(h, links, INACTIVE, RemoveAt(g0.inactive, k));
    m := m0.(links := links, inactiveCount := m0.inactiveCount - 1);
    g := Lists(g0.active, RemoveAt(g0.inactive, k));
  }

  /** Off the active list, the links left on the page itself. */
  method TakeActive(m0: Lru, p: Addr, ghost g0: Lists, ghost k: nat) returns (m: Lru, ghost g: Lists)
    requires Valid(m0, g0) && k < |g0.active| && g0.active[k] == p
    ensures Valid(m, g) && g == Lists(RemoveAt(g0.active, k), g0.inactive)
    ensures m == m0.(links := m.links, activeCount := m.activeCount)
  {
    RemovedMembers(g0.active, k);
    var links := ListDel(m0.links, p, ACTIVE, g0.active, k);
    OtherRing(m0.links, links, INACTIVE, g0.inactive);
    ghost var h := links;
    links := links[p := Link(p, p)];
    OtherRing(h, links, INACTIVE, g0.inactive);
    OtherRing(h, links, ACTIVE, RemoveAt(g0.active, k));
    m := m0.(links := links, activeCount := m0.activeCount - 1);
    g := Lists(RemoveAt(g0.active, k), g0.inactive);
  }

  /** lru_remove_page */
  method RemovePage(m0: Lru, p: Ptr, ghost g0: Lists) returns (m: Lru, ghost g: Lists)
    requires Valid(m0, g0) && (p != 0 ==> p in m0.pages)
    ensures Valid(m, g) && m.pages == m0.pages && m.freed == m0.freed
    ensures p == 0 ==> m == m0 && g == g0
    ensures p != 0 ==> g == Lists(Without<Addr>(g0.active, p), Without<Addr>(g0.inactive, p))
  {
    m, g := m0, g0;
    if p == 0 {
      return;
    }
    var unlisted := Unlisted(m, p, g);
    if unlisted {
      WithoutAbsent<Addr>(g0.active, p);
      WithoutAbsent<Addr>(g0.inactive, p);
    } else if m.pages[p].active {
      ghost var k := Position(g0.active, p);
      WithoutAbsent<Addr>(g0.inactive, p);
      m, g := TakeActive(m, p, g, k);
    } else {
      ghost var k := Position(g0.inactive, p);
      WithoutAbsent<Addr>(g0.active, p);
      m, g := TakeInactive(m, p, g, k);
    }
  }

  /** mark_page_accessed: an inactive page moves to the front of the active list. */
  method MarkAccessed(m0: Lru, p: Ptr, ghost g0: Lists) returns (m: Lru, ghost g: Lists)
    requires Valid(m0, g0) && (p != 0 ==> p in m0.pages)
    ensures Valid(m, g) && SamePages(g0, g) && m.freed == m0.freed
    ensures p == 0 ==> m == m0 && g == g0
    ensures p != 0 && p in g0.inactive ==> g == Lists([p as Addr] + g0.active, Without<Addr>(g0.inactive, p))
    ensures p != 0 && p !in g0.inactive ==> g == g0
    ensures p != 0 ==>
      m.pages == m0.pages[p := m0.pages[p].(accessed := true, active := m0.pages[p].active || p in g0.inactive)]
  {
    m, g := m0, g0;
    if p == 0 {
      return;
    }
    var unlisted := Unlisted(m, p, g);
    var page := m.pages[p].(accessed := true);
    Reflagged(m, g, p, page);
    Overwritten(m.pages, p, page, page.(active := true));
    m := m.(pages := m.pages[p := page]);
    if !page.active && !unlisted {
      ghost var k := Position(g0.inactive, p);
      m, g := Activate(m, p, g, k);
    }
  }

  lemma {:induction false} Overwritten(pages: Pages, p: Addr, a: Page, b: Page)
    ensures pages[p := a][p := b] == pages[p := b]
  {
  }

  // ----- the scan of the inactive list -----

  predicate Pinned(page: Page) { page.locked || page.reserved }

  /** Where the pages of a scanned list go. */
  datatype Scan = Scan(kept: seq<Addr>, promoted: seq<Addr>, freed: seq<Addr>)

  /** The scan from the old end, until `n` pages have been freed. */
  ghost function ScanInactive(s: seq<Addr>, pages: Pages, n: nat): Scan
    requires forall x :: x in s ==> x in pages
  {
    if s == [] || n == 0 then Scan(s, [], [])
    else
      var (k, x) := (|s| - 1, s[|s| - 1]);
      assert x in s && forall y :: y in s[..k] ==> y in s;
      if Pinned(pages[x]) then var r := ScanInactive(s[..k], pages, n); r.(kept := r.kept + [x])
      else if pages[x].accessed then var r := ScanInactive(s[..k], pages, n); r.(promoted := r.promoted + [x])
      else if pages[x].refs == 0 then var r := ScanInactive(s[..k], pages, n - 1); r.(freed := [x] + r.freed)
      else var r := ScanInactive(s[..k], pages, n); r.(kept := r.kept + [x])
  }

  ghost predicate Eligible(page: Page)
  {
    !page.locked && !page.reserved && !page.accessed && page.refs == 0
  }

  ghost function NextCount(page: Page, n: nat): nat
    requires n > 0
  {
    if Eligible(page) then n - 1 else n
  }

  /** Every page goes to exactly one place. */
  lemma {:induction false} ScanPartition(s: seq<Addr>, pages: Pages, n: nat)
    requires forall x :: x in s ==> x in pages
    ensures var r := ScanInactive(s, pages, n);
      |r.freed| <= n && multiset(r.kept) + multiset(r.promoted) + multiset(r.freed) == multiset(s)
  {
    if s != [] && n > 0 {
      var k, x := |s| - 1, s[|s| - 1];
      assert s == s[..k] + [x];
      assert x in s && forall y :: y in s[..k] ==> y in s;
      ScanPartition(s[..k], pages, NextCount(pages[x], n));
    }
  }

  /** Neither locked nor reserved nor referenced. */
  ghost predicate Unused(page: Page)
  {
    !Pinned(page) && page.refs == 0
  }

  /** Only unused pages that were not accessed are freed, and if fewer than asked for, no
      unused page is left; accessed pages are promoted instead. */
  lemma {:induction false} ScanFacts(s: seq<Addr>, pages: Pages, n: nat, x: Addr)
    requires (forall y :: y in s ==> y in pages) && x in pages
    ensures var r := ScanInactive(s, pages, n);
      && (x in r.freed ==> x in s && Eligible(pages[x]))
      && (x in r.promoted ==> pages[x].accessed && !pages[x].locked && !pages[x].reserved)
      && (x in r.kept && |r.freed| < n ==>
          pages[x].locked || pages[x].reserved || (!pages[x].accessed && pages[x].refs > 0))
  {
    if s != [] && n > 0 {
      var k, y := |s| - 1, s[|s| - 1];
      assert y in s && forall z :: z in s[..k] ==> z in s;
      ScanFacts(s[..k], pages, NextCount(pages[y], n), x);
    }
  }

  /** The rest of a scan together with what has been done. */
  ghost function Onto(r: Scan, done: Scan): Scan
  {
    Scan(r.kept + done.kept, r.promoted + done.promoted, done.freed + r.freed)
  }

  /** What happens to the last page of `left`. */
  ghost function Sort(done: Scan, x: Addr, page: Page): Scan
  {
    if Pinned(page) then done.(kept := [x] + done.kept)
    else if page.accessed then done.(promoted := [x] + done.promoted)
    else if page.refs == 0 then done.(freed := done.freed + [x])
    else done.(kept := [x] + done.kept)
  }

  lemma {:induction false} ScanStep(left: seq<Addr>, rest: seq<Addr>, x: Addr, pages: Pages, n: nat, done: Scan)
    requires left == rest + [x] && n > 0 && x in pages && forall y :: y in rest ==> y in pages
    ensures forall y :: y in left ==> y in pages
    ensures var n' := if Eligible(pages[x]) then n - 1 else n;
      Onto(ScanInactive(left, pages, n), done) == Onto(ScanInactive(rest, pages, n'), Sort(done, x, pages[x]))
  {
    assert left[..|left| - 1] == rest;
    var r := ScanInactive(rest, pages, if Eligible(pages[x]) then n - 1 else n);
    Regrouped(r.kept, x, done.kept);
    Regrouped(r.promoted, x, done.promoted);
    Regrouped(done.freed, x, r.freed);
  }

  lemma {:induction false} Regrouped(a: seq<Addr>, x: Addr, b: seq<Addr>)
    ensures a + [x] + b == a + ([x] + b)
  {
  }

  /** A page apart from the flags that the scans change. */
  ghost predicate SameButFlags(a: Page, b: Page)
  {
    a == b.(dirty := a.dirty, accessed := a.accessed, active := a.active)
  }

  /** The flags of a page that the scan has met: a pinned one is left alone, an accessed one loses the
      mark and becomes active, any other is clean. */
  ghost function Met(page: Page): Page
  {
    if page.locked || page.reserved then page
    else if page.accessed then page.(accessed := false, active := true)
    else page.(dirty := false)
  }

  lemma {:induction false} NotChanged(pages: Pages, x: Addr)
    requires x in pages
    ensures pages[x := pages[x]] == pages
  {
  }

  ghost function Frames(s: seq<Addr>, pages: Pages): seq<nat>
  {
    if s == [] then [] else Frames(s[..|s| - 1], pages) + [if s[|s| - 1] in pages then pages[s[|s| - 1]].frame else 0]
  }

  lemma {:induction false} FramesAppend(s: seq<Addr>, x: Addr, pages: Pages, f: seq<nat>)
    requires x in pages
    ensures f + Frames(s + [x], pages) == f + Frames(s, pages) + [pages[x].frame]
  {
    assert (s + [x])[..|s|] == s;
  }

  /** The scan of `s0` has `left` before it and has done `done`. */
  ghost predicate Progress(s0: seq<Addr>, pages0: Pages, n: nat, pages: Pages, left: seq<Addr>, done: Scan)
  {
    && |done.freed| <= n && (forall x :: x in s0 ==> x in pages0) && (forall x :: x in left ==> x in pages0)
    && ScanInactive(s0, pages0, n) == Onto(ScanInactive(left, pages0, n - |done.freed|), done)
    && pages.Keys == pages0.Keys && (forall x :: x in left ==> x in s0)
    && (forall x :: x in pages0 ==> pages[x] == if x in s0 && x !in left then Met(pages0[x]) else pages0[x])
    && Placed(done, s0, left, pages0)
  }

  /** Where the pages that have been met have gone: promoted when accessed, freed when not referenced,
      and kept when pinned or referenced. */
  ghost predicate Placed(done: Scan, s0: seq<Addr>, left: seq<Addr>, pages: Pages)
  {
    && (forall x :: x in done.promoted ==>
        x in s0 && x !in left && x in pages && !pages[x].locked && !pages[x].reserved && pages[x].accessed)
    && (forall x :: x in done.freed ==> x in s0 && x !in left && x in pages && Eligible(pages[x]))
    && (forall x :: x in done.kept ==>
        && x in s0 && x !in left && x in pages
        && (pages[x].locked || pages[x].reserved || (!pages[x].accessed && pages[x].refs > 0)))
  }

  lemma {:induction false} PlacedMore(done: Scan, s0: seq<Addr>, left: seq<Addr>, rest: seq<Addr>, x: Addr,
                                      pages: Pages)
    requires Placed(done, s0, left, pages) && left == rest + [x] && x !in rest && x in s0 && x in pages
    ensures Placed(Sort(done, x, pages[x]), s0, rest, pages)
  {
    assert forall y :: y in rest ==> y in left;
  }

  /** The flags after a scan of `s` with the outcome `r`. */
  ghost predicate Reflags(s: seq<Addr>, pages0: Pages, n: nat, r: Scan, pages: Pages)
  {
    && pages.Keys == pages0.Keys
    && (forall x :: x in pages0 && x !in s ==> pages[x] == pages0[x])
    && (forall x :: x in r.promoted ==> x in pages0 && pages[x] == pages0[x].(accessed := false, active := true))
    && (forall x :: x in r.freed ==> x in pages0 && pages[x] == pages0[x].(dirty := false))
    && (forall x :: x in r.kept ==> x in pages0 && pages[x] in {pages0[x], pages0[x].(dirty := false)})
    && (forall x :: x in r.kept && |r.freed| < n ==>
        if pages0[x].locked || pages0[x].reserved then pages[x] == pages0[x]
        else !pages0[x].accessed && pages0[x].refs > 0 && pages[x] == pages0[x].(dirty := false))
  }

  lemma {:induction false} ReflagsAtEnd(s0: seq<Addr>, pages0: Pages, n: nat, pages: Pages, left: seq<Addr>, done: Scan)
    requires Progress(s0, pages0, n, pages, left, done) && (left == [] || |done.freed| == n)
    ensures Reflags(s0, pages0, n, done.(kept := left + done.kept), pages) && SamePagesButFlags(pages0, pages)
  {
  }

  ghost predicate Scanning(m0: Lru, g0: Lists, n: nat, m: Lru, g: Lists, left: seq<Addr>, done: Scan)
  {
    && Valid(m, g) && g == Lists(done.promoted + g0.active, left + done.kept)
    && Progress(g0.inactive, m0.pages, n, m.pages, left, done) && m.freed == m0.freed + Frames(done.freed, m0.pages)
  }

  lemma {:induction false} Visited(s0: seq<Addr>, pages0: Pages, n: nat, pages: Pages, left: seq<Addr>, done: Scan,
                                   rest: seq<Addr>, x: Addr, pages': Pages, done': Scan)
    requires Progress(s0, pages0, n, pages, left, done) && left == rest + [x] && x !in rest && |done.freed| < n
      && x in pages
    requires done' == Sort(done, x, pages[x]) && pages' == pages[x := Met(pages[x])]
    ensures Progress(s0, pages0, n, pages', rest, done')
  {
    assert x in left && forall y :: y in left <==> y in rest || y == x;
    ScanStep(left, rest, x, pages0, n - |done.freed|, done);
    PlacedMore(done, s0, left, rest, x, pages0);
  }

  ghost function TailOf(s: seq<Addr>, head: Addr): Addr
  {
    if s == [] then head else s[|s| - 1]
  }

  /** The page at the cursor of a reverse walk, and the page before it. */
  lemma {:induction false} ReverseStep(h: Links, head: Addr, left: seq<Addr>, kept: seq<Addr>, rest: seq<Addr>, x: Addr)
    requires Ring(h, head, left + kept) && left == rest + [x]
    ensures x in h && h[x].prev == TailOf(rest, head) && x != head && x !in rest
    ensures |rest| < |left + kept| && (left + kept)[|rest|] == x && RemoveAt(left + kept, |rest|) == rest + kept
      && left + kept == rest + ([x] + kept)
  {
    var s, k := left + kept, |rest|;
    assert s[k] == x && (k > 0 ==> s[k - 1] == rest[k - 1]);
    Neighbours(h, head, s, k);
    assert s[k] in s;
    forall i | 0 <= i < |rest| ensures rest[i] != x { assert s[i] == rest[i]; }
  }

  /** A recently accessed page is promoted and loses the mark. */
  method Promote(m1: Lru, x: Addr, ghost g1: Lists, ghost k: nat) returns (m: Lru, ghost g: Lists)
    requires Valid(m1, g1) && k < |g1.inactive| && g1.inactive[k] == x && x in m1.pages
    ensures Valid(m, g) && g == Lists([x] + g1.active, RemoveAt(g1.inactive, k)) && m.freed == m1.freed
    ensures m.pages == m1.pages[x := m1.pages[x].(accessed := false, active := true)]
  {
    var page := m1.pages[x].(accessed := false);
    Reflagged(m1, g1, x, page);
    Overwritten(m1.pages, x, page, page.(active := true));
    m := m1.(pages := m1.pages[x := page]);
    m, g := Activate(m, x, g1, k);
  }

  /** A page that is neither pinned nor accessed: written back if dirty, freed if unused. */
  method Retire(m1: Lru, x: Addr, ghost g1: Lists, ghost k: nat) returns (m: Lru, freed: bool, ghost g: Lists)
    requires Valid(m1, g1) && k < |g1.inactive| && g1.inactive[k] == x && x in m1.pages
    ensures Valid(m, g) && freed == (m1.pages[x].refs == 0)
      && g == (if freed then Lists(g1.active, RemoveAt(g1.inactive, k)) else g1)
    ensures m.pages == m1.pages[x := m1.pages[x].(dirty := false)]
      && m.freed == m1.freed + if freed then [m1.pages[x].frame] else []
  {
    m, g, freed := m1, g1, false;
    var page := m.pages[x].(dirty := false);
    Reflagged(m, g, x, page);
    if m.pages[x].dirty {
      m := m.(pages := m.pages[x := page]);
    } else {
      Same(m1.pages, x, page);
    }
    assert m1.freed + [] == m1.freed;
    if m.pages[x].refs == 0 {
      m, g := TakeInactive(m, x, g, k);
      m := m.(freed := m.freed + [m.pages[x].frame]);
      freed := true;
    }
  }

  /** One page of the inactive list: skipped, promoted, freed or left where it is. */
  method ScanPage(m1: Lru, x: Addr, ghost active0: seq<Addr>, ghost g1: Lists, ghost rest: seq<Addr>, ghost done: Scan)
    returns (m: Lru, freed: bool, ghost g: Lists)
    requires Valid(m1, g1) && g1 == Lists(done.promoted + active0, rest + [x] + done.kept) && x in m1.pages
    ensures var d := Sort(done, x, m1.pages[x]);
      Valid(m, g) && g == Lists(d.promoted + active0, rest + d.kept)
    ensures freed == Eligible(m1.pages[x]) && m.freed == m1.freed + if freed then [m1.pages[x].frame] else []
    ensures m.pages == m1.pages[x := Met(m1.pages[x])]
  {
    m, g, freed := m1, g1, false;
    ReverseStep(m1.links, INACTIVE, rest + [x], done.kept, rest, x);
    assert m1.freed + [] == m1.freed;
    if Pinned(m.pages[x]) {
      NotChanged(m1.pages, x);
    } else if m.pages[x].accessed {
      m, g := Promote(m, x, g, |rest|);
      InFront(x, done.promoted, active0);
    } else {
      m, freed, g := Retire(m, x, g, |rest|);
    }
  }

  lemma {:induction false} InFront(x: Addr, a: seq<Addr>, b: seq<Addr>)
    ensures [x] + (a + b) == [x] + a + b
  {
  }

  /** One turn of the scan: the page at `pos`, and the page to go on with. */
  method ScanOne(m1: Lru, pos: Addr, ghost m0: Lru, ghost g0: Lists, ghost n: nat, ghost g1: Lists,
                 ghost left: seq<Addr>, ghost done1: Scan)
    returns (m: Lru, tmp: Ptr, freed: bool, ghost g: Lists, ghost rest: seq<Addr>, ghost done: Scan)
    requires Scanning(m0, g0, n, m1, g1, left, done1) && left != [] && pos == left[|left| - 1] && |done1.freed| < n
    ensures Scanning(m0, g0, n, m, g, rest, done) && |rest| == |left| - 1 && tmp == TailOf(rest, INACTIVE)
    ensures |done.freed| == |done1.freed| + if freed then 1 else 0
  {
    rest := left[..|left| - 1];
    AtCursor(m1, g1, left, done1.kept, rest, pos);
    tmp := m1.links[pos].prev;
    m, freed, g := ScanPage(m1, pos, g0.active, g1, rest, done1);
    done := Sort(done1, pos, m1.pages[pos]);
    Turned(m0, g0, n, m1, g1, left, done1, rest, pos, m, g, done);
  }

  lemma {:induction false} AtCursor(m: Lru, g: Lists, left: seq<Addr>, kept: seq<Addr>, rest: seq<Addr>, x: Addr)
    requires Valid(m, g) && g.inactive == left + kept && left != [] && rest == left[..|left| - 1]
      && x == left[|left| - 1]
    ensures x in m.links && m.links[x].prev == TailOf(rest, INACTIVE) && x in m.pages && left == rest + [x]
      && x !in rest
  {
    assert left == rest + [x];
    ReverseStep(m.links, INACTIVE, left, kept, rest, x);
    assert x in g.inactive;
  }

  lemma {:induction false} Turned(m0: Lru, g0: Lists, n: nat, m1: Lru, g1: Lists, left: seq<Addr>, done1: Scan,
                                  rest: seq<Addr>, x: Addr, m: Lru, g: Lists, done: Scan)
    requires Scanning(m0, g0, n, m1, g1, left, done1) && left == rest + [x] && x !in rest && |done1.freed| < n
      && x in m1.pages
    requires done == Sort(done1, x, m1.pages[x]) && Valid(m, g)
      && g == Lists(done.promoted + g0.active, rest + done.kept)
    requires m.pages == m1.pages[x := Met(m1.pages[x])]
    requires m.freed == m1.freed + if Eligible(m1.pages[x]) then [m1.pages[x].frame] else []
    ensures Scanning(m0, g0, n, m, g, rest, done)
  {
    Visited(g0.inactive, m0.pages, n, m1.pages, left, done1, rest, x, m.pages, done);
    FramesAppend(done1.freed, x, m0.pages, m0.freed);
    assert x in left;
  }

  /** The loop of shrink_inactive_list. */
  method ScanList(m0: Lru, n: nat, ghost g0: Lists)
    returns (m: Lru, reclaimed: nat, ghost g: Lists, ghost left: seq<Addr>, ghost done: Scan)
    requires Valid(m0, g0)
    ensures Scanning(m0, g0, n, m, g, left, done) && reclaimed == |done.freed| && (left == [] || |done.freed| == n)
  {
    m, reclaimed, g := m0, 0, g0;
    left, done := g0.inactive, Scan([], [], []);
    ScanStarts(m0, g0, n);
    var pos: Ptr := m.links[INACTIVE].prev;
    while pos != INACTIVE && reclaimed < n
      invariant Scanning(m0, g0, n, m, g, left, done) && pos == TailOf(left, INACTIVE) && reclaimed == |done.freed|
      decreases |left|
    {
      var freed;
      m, pos, freed, g, left, done := ScanOne(m, pos, m0, g0, n, g, left, done);
      if freed {
        reclaimed := reclaimed + 1;
      }
    }
  }

  /** shrink_inactive_list */
  method ShrinkInactive(m0: Lru, n: nat, ghost g0: Lists) returns (m: Lru, reclaimed: nat, ghost g: Lists)
    requires Valid(m0, g0)
    ensures Valid(m, g) && (forall x :: x in g0.inactive ==> x in m0.pages)
    ensures var r := ScanInactive(g0.inactive, m0.pages, n);
      && g == Lists(r.promoted + g0.active, r.kept) && reclaimed == |r.freed|
      && m.freed == m0.freed + Frames(r.freed, m0.pages)
    ensures Reflags(g0.inactive, m0.pages, n, ScanInactive(g0.inactive, m0.pages, n), m.pages)
    ensures SamePagesButFlags(m0.pages, m.pages)
  {
    ghost var left, done;
    m, reclaimed, g, left, done := ScanList(m0, n, g0);
    ScanEnds(m0, g0, n, m, g, left, done);
    ReflagsAtEnd(g0.inactive, m0.pages, n, m.pages, left, done);
  }

  lemma {:induction false} ScanStarts(m: Lru, g: Lists, n: nat)
    requires Valid(m, g)
    ensures Scanning(m, g, n, m, g, g.inactive, Scan([], [], []))
  {
    ProgressStarts(g.inactive, m.pages, n);
    Alone(g.inactive);
    Alone(g.active);
    assert m.freed + [] == m.freed;
  }

  lemma {:induction false} ProgressStarts(s: seq<Addr>, pages: Pages, n: nat)
    requires forall x :: x in s ==> x in pages
    ensures Progress(s, pages, n, pages, s, Scan([], [], []))
  {
    OntoNothing(ScanInactive(s, pages, n));
  }

  lemma {:induction false} OntoNothing(r: Scan)
    ensures Onto(r, Scan([], [], [])) == r
  {
    Alone(r.kept);
    Alone(r.promoted);
    Alone(r.freed);
  }

  lemma {:induction false} Alone(s: seq<Addr>)
    ensures s + [] == s && [] + s == s
  {
  }

  lemma {:induction false} ScanEnds(m0: Lru, g0: Lists, n: nat, m: Lru, g: Lists, left: seq<Addr>, done: Scan)
    requires Scanning(m0, g0, n, m, g, left, done) && (left == [] || |done.freed| == n)
    ensures ScanInactive(g0.inactive, m0.pages, n) == done.(kept := left + done.kept)
  {
    var r := ScanInactive(left, m0.pages, n - |done.freed|);
    assert r == Scan(left, [], []);
    assert [] + done.promoted == done.promoted && done.freed + [] == done.freed;
  }

  // ----- the scan of the active list -----

  ghost function Accessed(s: seq<Addr>, pages: Pages): nat
  {
    if s == [] then 0 else Accessed(s[1..], pages) + if s[0] in pages && pages[s[0]].accessed then 1 else 0
  }

  lemma {:induction false} AccessedAppend(s: seq<Addr>, x: Addr, pages: Pages)
    ensures Accessed(s + [x], pages) == Accessed([x] + s, pages) ==
      Accessed(s, pages) + if x in pages && pages[x].accessed then 1 else 0
  {
    assert ([x] + s)[1..] == s;
    if s == [] {
      assert s + [x] == [x] + s;
    } else {
      assert (s + [x])[1..] == s[1..] + [x];
      AccessedAppend(s[1..], x, pages);
    }
  }

  lemma {:induction false} AccessedElsewhere(s: seq<Addr>, x: Addr, pages: Pages, page: Page)
    requires x !in s
    ensures Accessed(s, pages[x := page]) == Accessed(s, pages)
  {
    if s != [] {
      assert s[0] in s;
      AccessedElsewhere(s[1..], x, pages, page);
    }
  }

  /** Fewer marks lie ahead, or as many and fewer pages. */
  ghost predicate Nearer(left: seq<Addr>, pages: Pages, left1: seq<Addr>, pages1: Pages)
  {
    || Accessed(left, pages) < Accessed(left1, pages1)
    || (Accessed(left, pages) <= Accessed(left1, pages1) && |left| < |left1|)
  }

  lemma {:induction false} NearerByOne(rest: seq<Addr>, x: Addr, pages: Pages, page: Page)
    requires x !in rest
    ensures Nearer(rest, pages[x := page], rest + [x], pages)
  {
    AccessedAppend(rest, x, pages);
    AccessedElsewhere(rest, x, pages, page);
  }

  lemma {:induction false} NearerByMark(rest: seq<Addr>, x: Addr, pages: Pages, page: Page)
    requires x !in rest && x in pages && pages[x].accessed && !page.accessed
    ensures Nearer([x] + rest, pages[x := page], rest + [x], pages)
  {
    AccessedAppend(rest, x, pages);
    AccessedAppend(rest, x, pages[x := page]);
    AccessedElsewhere(rest, x, pages, page);
  }

  /** The scan has `left` before it, has passed `kept` and demoted `demoted`. */
  ghost predicate Demoting(m0: Lru, g0: Lists, m: Lru, g: Lists, left: seq<Addr>, kept: seq<Addr>, demoted: seq<Addr>)
  {
    && Valid(m, g) && g == Lists(left + kept, demoted + g0.inactive) && m.freed == m0.freed
    && multiset(left) + multiset(kept) + multiset(demoted) == multiset(g0.active)
    && Softened(m0.pages, m.pages, kept, demoted)
  }

  /** Only ACCESSED and ACTIVE flags have been touched, ACCESSED only cleared; locked pages
      have stayed and demoted pages were not locked. */
  ghost predicate Softened(pages0: Pages, pages: Pages, kept: seq<Addr>, demoted: seq<Addr>)
  {
    && pages.Keys == pages0.Keys
    && (forall x :: x in pages0 ==> pages[x] == pages0[x].(accessed := pages[x].accessed, active := pages[x].active))
    && (forall x :: x in pages0 && pages[x].accessed ==> pages0[x].accessed)
    && (forall x :: x in kept ==> x in pages0 && pages0[x].locked)
    && (forall x :: x in demoted ==> x in pages0 && !pages0[x].locked)
  }

  /** A recently accessed page loses the mark and goes to the front of the active list. */
  method SecondChance(m1: Lru, x: Addr, ghost g1: Lists, ghost k: nat) returns (m: Lru, ghost g: Lists)
    requires Valid(m1, g1) && k < |g1.active| && g1.active[k] == x && x in m1.pages
    ensures Valid(m, g) && g == Lists([x] + RemoveAt(g1.active, k), g1.inactive)
    ensures m == m1.(links := m.links, pages := m1.pages[x := m1.pages[x].(accessed := false)])
  {
    var page := m1.pages[x].(accessed := false);
    Reflagged(m1, g1, x, page);
    RemovedMembers(g1.active, k);
    var links := MoveToFront(m1.links, x, ACTIVE, g1.active, k);
    OtherRing(m1.links, links, INACTIVE, g1.inactive);
    m := m1.(links := links, pages := m1.pages[x := page]);
    g := Lists([x] + RemoveAt(g1.active, k), g1.inactive);
  }

  lemma {:induction false} ActiveCursor(m: Lru, g: Lists, left: seq<Addr>, kept: seq<Addr>, rest: seq<Addr>, x: Addr)
    requires Valid(m, g) && g.active == left + kept && left != [] && rest == left[..|left| - 1] && x == left[|left| - 1]
    ensures x in m.links && m.links[x].prev == TailOf(rest, ACTIVE) && x in m.pages && left == rest + [x] && x !in rest
    ensures |rest| < |g.active| && g.active[|rest|] == x && RemoveAt(g.active, |rest|) == rest + kept
      && g.active == rest + ([x] + kept)
  {
    assert left == rest + [x];
    ReverseStep(m.links, ACTIVE, left, kept, rest, x);
    assert x in g.active;
  }

  lemma {:induction false} Shuffled(rest: seq<Addr>, x: Addr, kept: seq<Addr>, demoted: seq<Addr>, all: seq<Addr>)
    requires multiset(rest + [x]) + multiset(kept) + multiset(demoted) == multiset(all)
    ensures multiset(rest) + multiset([x] + kept) + multiset(demoted) == multiset(all)
    ensures multiset([x] + rest) + multiset(kept) + multiset(demoted) == multiset(all)
    ensures multiset(rest) + multiset(kept) + multiset([x] + demoted) == multiset(all)
  {
    assert multiset(rest + [x]) == multiset(rest) + multiset{x} == multiset([x] + rest);
    assert multiset([x] + kept) == multiset{x} + multiset(kept)
      && multiset([x] + demoted) == multiset{x} + multiset(demoted);
  }

  lemma {:induction false} StillSoft(pages0: Pages, pages: Pages, kept: seq<Addr>, demoted: seq<Addr>, x: Addr,
                                     page: Page)
    requires Softened(pages0, pages, kept, demoted) && x in pages && (page.accessed ==> pages[x].accessed)
    requires page == pages[x].(accessed := page.accessed, active := page.active)
    ensures Softened(pages0, pages[x := page], kept, demoted)
    ensures pages[x].locked ==> Softened(pages0, pages, [x] + kept, demoted)
    ensures !pages[x].locked ==> Softened(pages0, pages[x := page], kept, [x] + demoted)
  {
  }

  /** The three turns the scan of the active list can take at page `x`. */
  lemma {:induction false} KeepsLocked(m0: Lru, g0: Lists, m: Lru, g: Lists, rest: seq<Addr>, x: Addr,
                                       kept: seq<Addr>, demoted: seq<Addr>)
    requires Demoting(m0, g0, m, g, rest + [x], kept, demoted) && x in m.pages && m.pages[x].locked
    ensures Demoting(m0, g0, m, g, rest, [x] + kept, demoted)
  {
    Shuffled(rest, x, kept, demoted, g0.active);
    StillSoft(m0.pages, m.pages, kept, demoted, x, m.pages[x]);
    Regrouped(rest, x, kept);
  }

  lemma {:induction false} GivesChance(m0: Lru, g0: Lists, m: Lru, g: Lists, rest: seq<Addr>, x: Addr,
                                       kept: seq<Addr>, demoted: seq<Addr>, m': Lru, g': Lists)
    requires Demoting(m0, g0, m, g, rest + [x], kept, demoted) && x in m.pages && Valid(m', g')
      && g' == Lists([x] + (rest + kept), g.inactive)
    requires m' == m.(links := m'.links, pages := m.pages[x := m.pages[x].(accessed := false)])
    ensures Demoting(m0, g0, m', g', [x] + rest, kept, demoted)
  {
    Shuffled(rest, x, kept, demoted, g0.active);
    StillSoft(m0.pages, m.pages, kept, demoted, x, m.pages[x].(accessed := false));
    InFront(x, rest, kept);
  }

  lemma {:induction false} Demotes(m0: Lru, g0: Lists, m: Lru, g: Lists, rest: seq<Addr>, x: Addr, kept: seq<Addr>,
                                   demoted: seq<Addr>, m': Lru, g': Lists)
    requires Demoting(m0, g0, m, g, rest + [x], kept, demoted) && x in m.pages && !m.pages[x].locked
    requires Valid(m', g') && g' == Lists(rest + kept, [x] + g.inactive)
    requires m'.freed == m.freed && m'.pages == m.pages[x := m.pages[x].(active := false)]
    ensures Demoting(m0, g0, m', g', rest, kept, [x] + demoted)
  {
    Shuffled(rest, x, kept, demoted, g0.active);
    StillSoft(m0.pages, m.pages, kept, demoted, x, m.pages[x].(active := false));
    InFront(x, demoted, g0.inactive);
  }

  /** The scan has passed the pages of `s0` from `r` on and given those in `chance` another chance: a
      page that had been accessed is not demoted before all of `s0` has been passed. */
  ghost predicate Chances(s0: seq<Addr>, pages0: Pages, pages: Pages, left: seq<Addr>, demoted: seq<Addr>,
                          chance: seq<Addr>, r: nat)
  {
    && r <= |s0| && left == chance + s0[..r] && NoRepeats(s0) && pages.Keys == pages0.Keys
    && (forall x :: x in s0 ==> x in pages0)
    && (forall x :: x in chance ==> x in pages && !pages[x].accessed && !pages[x].locked)
    && (forall i :: 0 <= i < r ==> pages[s0[i]] == pages0[s0[i]])
    && (forall i :: r <= i < |s0| && !pages0[s0[i]].locked && !pages0[s0[i]].accessed ==> s0[i] in demoted)
    && (forall x :: x in demoted ==> x in pages && !pages[x].accessed && x !in s0[..r])
    && (r > 0 ==> forall x :: x in demoted ==> !pages0[x].accessed)
  }

  /** The page at the cursor. */
  lemma {:induction false} LastOf(s0: seq<Addr>, chance: seq<Addr>, r: nat, left: seq<Addr>, rest: seq<Addr>, x: Addr)
    requires r <= |s0| && left == chance + s0[..r] && left == rest + [x] && NoRepeats(s0)
    ensures r > 0 ==> x == s0[r - 1] && rest == chance + s0[..r - 1] && x !in s0[..r - 1]
    ensures r == 0 ==> chance != [] && x in chance && rest == chance[..|chance| - 1] + s0[..0]
  {
    assert rest == left[..|left| - 1];
    if r > 0 {
      var t := s0[..r - 1];
      assert left == chance + t + [s0[r - 1]];
      forall i | 0 <= i < |t| ensures t[i] != s0[r - 1] { assert t[i] == s0[i]; }
    } else {
      assert left == chance;
    }
  }

  lemma {:induction false} PassesLocked(s0: seq<Addr>, pages0: Pages, pages: Pages, rest: seq<Addr>, x: Addr,
                                        demoted: seq<Addr>, chance: seq<Addr>, r: nat)
    requires Chances(s0, pages0, pages, rest + [x], demoted, chance, r) && x in pages && pages[x].locked
    ensures r > 0 && Chances(s0, pages0, pages, rest, demoted, chance, r - 1)
  {
    LastOf(s0, chance, r, rest + [x], rest, x);
    assert r > 0;
    Shorter(s0, r, demoted);
  }

  lemma {:induction false} Shorter(s0: seq<Addr>, r: nat, demoted: seq<Addr>)
    requires 0 < r <= |s0| && forall y :: y in demoted ==> y !in s0[..r]
    ensures forall y :: y in demoted ==> y !in s0[..r - 1]
  {
    assert s0[..r] == s0[..r - 1] + [s0[r - 1]];
  }

  lemma {:induction false} AnotherChance(s0: seq<Addr>, pages0: Pages, pages: Pages, rest: seq<Addr>, x: Addr,
                                         demoted: seq<Addr>, chance: seq<Addr>, r: nat, pages': Pages)
    requires Chances(s0, pages0, pages, rest + [x], demoted, chance, r) && x in pages && !pages[x].locked
      && pages[x].accessed && pages' == pages[x := pages[x].(accessed := false)]
    ensures r > 0 && Chances(s0, pages0, pages', [x] + rest, demoted, [x] + chance, r - 1)
  {
    LastOf(s0, chance, r, rest + [x], rest, x);
    assert r > 0;
    Shorter(s0, r, demoted);
    assert [x] + rest == [x] + chance + s0[..r - 1];
    assert s0[..r][r - 1] == x;
    forall i | 0 <= i < r - 1 ensures s0[i] != x { assert s0[..r - 1][i] == s0[i]; }
  }

  lemma {:induction false} DemotesLast(s0: seq<Addr>, pages0: Pages, pages: Pages, rest: seq<Addr>, x: Addr,
                                       demoted: seq<Addr>, chance: seq<Addr>, r: nat, pages': Pages)
    returns (chance': seq<Addr>, r': nat)
    requires Chances(s0, pages0, pages, rest + [x], demoted, chance, r) && x in pages && !pages[x].locked
      && !pages[x].accessed && pages' == pages[x := pages[x].(active := false)]
    ensures Chances(s0, pages0, pages', rest, [x] + demoted, chance', r')
  {
    LastOf(s0, chance, r, rest + [x], rest, x);
    if r > 0 {
      Shorter(s0, r, demoted);
      chance', r' := chance, r - 1;
      forall i | 0 <= i < r - 1 ensures s0[i] != x { assert s0[..r - 1][i] == s0[i]; }
    } else {
      chance', r' := chance[..|chance| - 1], 0;
    }
  }

  ghost predicate Underway(m0: Lru, g0: Lists, m: Lru, g: Lists, left: seq<Addr>, kept: seq<Addr>, demoted: seq<Addr>,
                           chance: seq<Addr>, r: nat)
  {
    && Demoting(m0, g0, m, g, left, kept, demoted)
    && Chances(g0.active, m0.pages, m.pages, left, demoted, chance, r)
  }

  lemma {:induction false} SetsOut(m: Lru, g: Lists)
    requires Valid(m, g)
    ensures Underway(m, g, m, g, g.active, [], [], [], |g.active|)
    ensures m.links[ACTIVE].prev == TailOf(g.active, ACTIVE)
  {
    assert g.active + [] == g.active && [] + g.inactive == g.inactive && [] + g.active[..|g.active|] == g.active;
  }

  lemma {:induction false} OnPastLocked(m0: Lru, g0: Lists, m: Lru, g: Lists, rest: seq<Addr>, x: Addr, kept: seq<Addr>,
                                        demoted: seq<Addr>, chance: seq<Addr>, r: nat)
    requires Underway(m0, g0, m, g, rest + [x], kept, demoted, chance, r) && x in m.pages && m.pages[x].locked
    ensures r > 0 && Underway(m0, g0, m, g, rest, [x] + kept, demoted, chance, r - 1)
  {
    KeepsLocked(m0, g0, m, g, rest, x, kept, demoted);
    PassesLocked(g0.active, m0.pages, m.pages, rest, x, demoted, chance, r);
  }

  lemma {:induction false} OnPastAccessed(m0: Lru, g0: Lists, m: Lru, g: Lists, rest: seq<Addr>, x: Addr,
                                          kept: seq<Addr>, demoted: seq<Addr>, m': Lru, g': Lists, chance: seq<Addr>,
                                          r: nat)
    requires Underway(m0, g0, m, g, rest + [x], kept, demoted, chance, r) && x in m.pages && Valid(m', g')
      && g' == Lists([x] + (rest + kept), g.inactive) && !m.pages[x].locked && m.pages[x].accessed
    requires m' == m.(links := m'.links, pages := m.pages[x := m.pages[x].(accessed := false)])
    ensures r > 0 && Underway(m0, g0, m', g', [x] + rest, kept, demoted, [x] + chance, r - 1)
  {
    GivesChance(m0, g0, m, g, rest, x, kept, demoted, m', g');
    AnotherChance(g0.active, m0.pages, m.pages, rest, x, demoted, chance, r, m'.pages);
  }

  lemma {:induction false} OnPastIdle(m0: Lru, g0: Lists, m: Lru, g: Lists, rest: seq<Addr>, x: Addr, kept: seq<Addr>,
                                      demoted: seq<Addr>, m': Lru, g': Lists, chance: seq<Addr>, r: nat)
    returns (chance': seq<Addr>, r': nat)
    requires Underway(m0, g0, m, g, rest + [x], kept, demoted, chance, r) && x in m.pages && !m.pages[x].locked
      && !m.pages[x].accessed
    requires Valid(m', g') && g' == Lists(rest + kept, [x] + g.inactive)
    requires m'.freed == m.freed && m'.pages == m.pages[x := m.pages[x].(active := false)]
    ensures Underway(m0, g0, m', g', rest, kept, [x] + demoted, chance', r')
  {
    Demotes(m0, g0, m, g, rest, x, kept, demoted, m', g');
    chance', r' := DemotesLast(g0.active, m0.pages, m.pages, rest, x, demoted, chance, r, m'.pages);
  }

  /** Where the scan stands. */
  datatype Rotation = Rotation(lists: Lists, left: seq<Addr>, kept: seq<Addr>, demoted: seq<Addr>, chance: seq<Addr>,
                                r: nat)

  ghost predicate Ongoing(m0: Lru, g0: Lists, m: Lru, s: Rotation)
  {
    Underway(m0, g0, m, s.lists, s.left, s.kept, s.demoted, s.chance, s.r)
  }

  /** The turn that finds the page `x` locked. */
  lemma {:induction false} PassBy(m: Lru, x: Addr, m0: Lru, g0: Lists, s1: Rotation, rest: seq<Addr>)
    returns (s: Rotation)
    requires Ongoing(m0, g0, m, s1) && s1.left == rest + [x] && x in m.pages && m.pages[x].locked
    ensures Ongoing(m0, g0, m, s) && s.left == rest && s.demoted == s1.demoted
    ensures Nearer(rest, m.pages, rest + [x], m.pages)
  {
    OnPastLocked(m0, g0, m, s1.lists, rest, x, s1.kept, s1.demoted, s1.chance, s1.r);
    s := s1.(left := rest, kept := [x] + s1.kept, r := s1.r - 1);
    AccessedAppend(rest, x, m.pages);
  }

  /** The turn that finds the page `x` accessed. */
  method PutBack(m1: Lru, x: Addr, ghost m0: Lru, ghost g0: Lists, ghost s1: Rotation, ghost rest: seq<Addr>)
    returns (m: Lru, ghost s: Rotation)
    requires Ongoing(m0, g0, m1, s1) && s1.left == rest + [x] && x in m1.pages && !m1.pages[x].locked
      && m1.pages[x].accessed && x !in rest
    ensures Ongoing(m0, g0, m, s) && s.left == [x] + rest && s.demoted == s1.demoted
    ensures Nearer([x] + rest, m.pages, rest + [x], m1.pages)
  {
    FoundAt(rest, x, s1.kept);
    ghost var g;
    m, g := SecondChance(m1, x, s1.lists, |rest|);
    OnPastAccessed(m0, g0, m1, s1.lists, rest, x, s1.kept, s1.demoted, m, g, s1.chance, s1.r);
    s := s1.(lists := g, left := [x] + rest, chance := [x] + s1.chance, r := s1.r - 1);
    NearerByMark(rest, x, m1.pages, m.pages[x]);
  }

  /** The turn that finds the page `x` idle. */
  method TakeOut(m1: Lru, x: Addr, ghost m0: Lru, ghost g0: Lists, ghost s1: Rotation, ghost rest: seq<Addr>)
    returns (m: Lru, ghost s: Rotation)
    requires Ongoing(m0, g0, m1, s1) && s1.left == rest + [x] && x in m1.pages && !m1.pages[x].locked
      && !m1.pages[x].accessed && x !in rest
    ensures Ongoing(m0, g0, m, s) && s.left == rest && s.demoted == [x] + s1.demoted
    ensures Nearer(rest, m.pages, rest + [x], m1.pages)
  {
    FoundAt(rest, x, s1.kept);
    ghost var g;
    m, g := Deactivate(m1, x, s1.lists, |rest|);
    ghost var chance, r := OnPastIdle(m0, g0, m1, s1.lists, rest, x, s1.kept, s1.demoted, m, g, s1.chance, s1.r);
    s := Rotation(g, rest, s1.kept, [x] + s1.demoted, chance, r);
    NearerByOne(rest, x, m1.pages, m.pages[x]);
  }

  lemma {:induction false} FoundAt(rest: seq<Addr>, x: Addr, kept: seq<Addr>)
    ensures (rest + [x] + kept)[|rest|] == x && RemoveAt(rest + [x] + kept, |rest|) == rest + kept
  {
    assert rest + [x] + kept == rest + ([x] + kept);
  }

  /** One turn of the scan of the active list. */
  method DemoteOne(m1: Lru, x: Addr, ghost m0: Lru, ghost g0: Lists, ghost s1: Rotation, ghost rest: seq<Addr>)
    returns (m: Lru, tmp: Ptr, moved: bool, ghost s: Rotation)
    requires Ongoing(m0, g0, m1, s1) && s1.left == rest + [x]
    ensures Ongoing(m0, g0, m, s) && |s.demoted| == |s1.demoted| + if moved then 1 else 0
    ensures tmp == TailOf(s.left, ACTIVE) || (tmp == ACTIVE && |s.left| == 1)
    ensures Nearer(s.left, m.pages, rest + [x], m1.pages)
  {
    ActiveCursor(m1, s1.lists, rest + [x], s1.kept, rest, x);
    tmp, moved := m1.links[x].prev, false;
    if m1.pages[x].locked {
      m := m1;
      s := PassBy(m1, x, m0, g0, s1, rest);
    } else if m1.pages[x].accessed {
      m, s := PutBack(m1, x, m0, g0, s1, rest);
    } else {
      m, s := TakeOut(m1, x, m0, g0, s1, rest);
      moved := true;
    }
  }

  /** shrink_active_list: ends although it puts pages back in front of its own cursor, since
      each time one mark less is left.  At most `n` unlocked pages are demoted, in front of
      the inactive list; if fewer, only locked pages stay active behind the first one. */
  method ShrinkActive(m0: Lru, n: nat, ghost g0: Lists)
    returns (m: Lru, moved: nat, ghost g: Lists, ghost demoted: seq<Addr>)
    requires Valid(m0, g0)
    ensures Valid(m, g) && SamePages(g0, g) && moved == |demoted| <= n && g.inactive == demoted + g0.inactive
    ensures m.freed == m0.freed && m.pages.Keys == m0.pages.Keys
    ensures forall x :: x in demoted ==> x in g0.active && x in m0.pages && !m0.pages[x].locked
    ensures forall x :: x in m0.pages ==>
      m.pages[x] == m0.pages[x].(accessed := m.pages[x].accessed, active := m.pages[x].active)
    ensures forall x :: x in m0.pages && m.pages[x].accessed ==> m0.pages[x].accessed
    ensures moved < n ==> forall i :: 0 < i < |g.active| ==> g.active[i] in m0.pages && m0.pages[g.active[i]].locked
    ensures OldestFirst(g0.active, m0.pages, demoted) && forall x :: x in demoted ==> !m.pages[x].accessed
  {
    ghost var s;
    m, moved, s := DemoteList(m0, n, g0);
    g, demoted := s.lists, s.demoted;
    Demoted(m0, g0, m, g, s.left, s.kept, demoted, moved, n);
    ChancesGiven(g0.active, m0.pages, m.pages, s.left, demoted, s.chance, s.r);
  }

  /** What the loop of shrink_active_list keeps, with its cursor at `pos`. */
  ghost predicate Turning(m0: Lru, g0: Lists, n: nat, m: Lru, s: Rotation, pos: Ptr, moved: nat)
  {
    && Ongoing(m0, g0, m, s) && moved == |s.demoted| <= n
    && (pos == TailOf(s.left, ACTIVE) || (pos == ACTIVE && |s.left| == 1))
  }

  /** The loop of shrink_active_list. */
  method DemoteList(m0: Lru, n: nat, ghost g0: Lists) returns (m: Lru, moved: nat, ghost s: Rotation)
    requires Valid(m0, g0)
    ensures Ongoing(m0, g0, m, s) && moved == |s.demoted| <= n
    ensures moved < n ==> |s.left| <= 1
  {
    m, moved := m0, 0;
    s := Rotation(g0, g0.active, [], [], [], |g0.active|);
    SetsOut(m0, g0);
    var pos: Ptr := m.links[ACTIVE].prev;
    while pos != ACTIVE && moved < n
      invariant Turning(m0, g0, n, m, s, pos, moved)
      decreases Accessed(s.left, m.pages), |s.left|
    {
      m, pos, moved, s := Turn(m, pos, moved, m0, g0, n, s);
    }
    HasEnded(m0, g0, n, m, s, pos, moved);
  }

  lemma {:induction false} HasEnded(m0: Lru, g0: Lists, n: nat, m: Lru, s: Rotation, pos: Ptr, moved: nat)
    requires Turning(m0, g0, n, m, s, pos, moved) && (pos == ACTIVE || moved >= n)
    ensures moved == |s.demoted| <= n && (moved < n ==> |s.left| <= 1)
  {
    if s.left != [] { NotTheHead(m, s.lists, s.left, s.kept); }
  }

  lemma {:induction false} NotTheHead(m: Lru, g: Lists, left: seq<Addr>, kept: seq<Addr>)
    requires Valid(m, g) && g.active == left + kept && left != []
    ensures left[|left| - 1] != ACTIVE
  {
    assert g.active[|left| - 1] == left[|left| - 1];
  }

  lemma {:induction false} EndsAt(left: seq<Addr>, pos: Ptr) returns (rest: seq<Addr>)
    requires pos != ACTIVE && pos == TailOf(left, ACTIVE)
    ensures pos != 0 && left == rest + [pos]
  {
    rest := left[..|left| - 1];
  }

  /** The body of the loop. */
  method Turn(m1: Lru, pos1: Ptr, moved1: nat, ghost m0: Lru, ghost g0: Lists, ghost n: nat, ghost s1: Rotation)
    returns (m: Lru, pos: Ptr, moved: nat, ghost s: Rotation)
    requires Turning(m0, g0, n, m1, s1, pos1, moved1) && pos1 != ACTIVE && moved1 < n
    ensures Turning(m0, g0, n, m, s, pos, moved) && Nearer(s.left, m.pages, s1.left, m1.pages)
  {
    var one;
    ghost var rest := EndsAt(s1.left, pos1);
    m, pos, one, s := DemoteOne(m1, pos1, m0, g0, s1, rest);
    moved := if one then moved1 + 1 else moved1;
  }

  /** Which pages of the list `s` are demoted: of those that are neither locked nor accessed the oldest
      ones, and accessed ones only behind all of these. */
  ghost predicate OldestFirst(s: seq<Addr>, pages: Pages, demoted: seq<Addr>)
    requires forall x :: x in s ==> x in pages
  {
    && (forall i, j :: 0 <= i < j < |s| && s[i] in demoted && !pages[s[j]].locked && !pages[s[j]].accessed ==>
        s[j] in demoted)
    && (forall x, y :: x in demoted && x in pages && pages[x].accessed && y in s ==>
        pages[y].locked || pages[y].accessed || y in demoted)
  }

  lemma {:induction false} ChancesGiven(s0: seq<Addr>, pages0: Pages, pages: Pages, left: seq<Addr>,
                                        demoted: seq<Addr>, chance: seq<Addr>, r: nat)
    requires Chances(s0, pages0, pages, left, demoted, chance, r)
    ensures OldestFirst(s0, pages0, demoted) && forall x :: x in demoted ==> !pages[x].accessed
  {
    forall i | 0 <= i < r ensures s0[i] !in demoted { assert s0[..r][i] == s0[i]; }
  }

  lemma {:induction false} Demoted(m0: Lru, g0: Lists, m: Lru, g: Lists, left: seq<Addr>, kept: seq<Addr>,
                                   demoted: seq<Addr>, moved: nat, n: nat)
    requires Demoting(m0, g0, m, g, left, kept, demoted) && (moved < n ==> |left| <= 1)
    ensures SamePages(g0, g) && forall x :: x in demoted ==> x in g0.active
    ensures moved < n ==> forall i :: 0 < i < |g.active| ==> g.active[i] in m0.pages && m0.pages[g.active[i]].locked
  {
    forall x | x in demoted ensures x in g0.active { PartOf(left, kept, demoted, g0.active, x); }
    ThreeParts(left, kept, demoted, g0.active, g0.inactive);
    forall i | 0 < i < |g.active| && moved < n ensures g.active[i] in kept { assert g.active[i] == kept[i - |left|]; }
  }

  lemma {:induction false} ThreeParts(a: seq<Addr>, b: seq<Addr>, c: seq<Addr>, s: seq<Addr>, t: seq<Addr>)
    requires multiset(a) + multiset(b) + multiset(c) == multiset(s)
    ensures multiset(a + b) + multiset(c + t) == multiset(s) + multiset(t)
  {
    assert multiset(a + b) == multiset(a) + multiset(b) && multiset(c + t) == multiset(c) + multiset(t);
  }

  lemma {:induction false} PartOf(a: seq<Addr>, b: seq<Addr>, c: seq<Addr>, s: seq<Addr>, x: Addr)
    requires multiset(a) + multiset(b) + multiset(c) == multiset(s) && x in c
    ensures x in s
  {
    assert x in multiset(c);
    assert multiset(s)[x] == multiset(a)[x] + multiset(b)[x] + multiset(c)[x];
    assert x in multiset(s);
  }

  // ----- freeing pages -----

  /** Apart from the flags that the scans change, all pages are as they were. */
  ghost predicate SamePagesButFlags(a: Pages, b: Pages)
  {
    b.Keys == a.Keys && forall x :: x in a ==> SameButFlags(b[x], a[x])
  }

  lemma {:induction false} StillTheSame(a: Pages, b: Pages, c: Pages)
    requires SamePagesButFlags(a, b) && SamePagesButFlags(b, c)
    ensures SamePagesButFlags(a, c)
  {
  }

  ghost predicate NoneUnused(s: seq<Addr>, pages: Pages)
  {
    forall x :: x in s && x in pages ==> !Unused(pages[x])
  }

  lemma {:induction false} StillNone(s: seq<Addr>, a: Pages, b: Pages)
    requires SamePagesButFlags(a, b) && NoneUnused(s, b)
    ensures NoneUnused(s, a)
  {
  }

  ghost predicate AllUnused(s: seq<Addr>, pages: Pages)
  {
    forall x :: x in s ==> x in pages && Unused(pages[x])
  }

  /** Exactly the pages of `out`, all unused, have left the lists, and their frames have been
      given back in this order. */
  ghost predicate Released(m0: Lru, g0: Lists, m: Lru, g: Lists, out: seq<Addr>)
  {
    && m.freed == m0.freed + Frames(out, m0.pages)
    && Everybody(g) + multiset(out) == Everybody(g0) && AllUnused(out, m0.pages) && SamePagesButFlags(m0.pages, m.pages)
  }

  ghost function Everybody(g: Lists): multiset<Addr>
  {
    multiset(g.active) + multiset(g.inactive)
  }

  lemma {:induction false} FramesAgree(s: seq<Addr>, a: Pages, b: Pages)
    requires SamePagesButFlags(a, b)
    ensures Frames(s, b) == Frames(s, a)
  {
    if s != [] { FramesAgree(s[..|s| - 1], a, b); }
  }

  lemma {:induction false} FramesConcat(s: seq<Addr>, t: seq<Addr>, pages: Pages)
    ensures Frames(s + t, pages) == Frames(s, pages) + Frames(t, pages)
  {
    if t == [] {
      assert s + t == s && Frames(s, pages) + [] == Frames(s, pages);
    } else {
      var k := |t| - 1;
      assert (s + t)[..|s + t| - 1] == s + t[..k];
      FramesConcat(s, t[..k], pages);
    }
  }

  lemma {:induction false} ThenReleased(m0: Lru, g0: Lists, m1: Lru, g1: Lists, a: seq<Addr>, m: Lru, g: Lists,
                                        b: seq<Addr>)
    requires Released(m0, g0, m1, g1, a) && Released(m1, g1, m, g, b)
    ensures Released(m0, g0, m, g, a + b)
  {
    MoreFrames(m0.freed, a, b, m0.pages, m1.pages);
    MoreOut(Everybody(g0), Everybody(g1), Everybody(g), a, b);
    MoreUnused(m0.pages, m1.pages, a, b);
    StillTheSame(m0.pages, m1.pages, m.pages);
  }

  lemma {:induction false} MoreFrames(f: seq<nat>, a: seq<Addr>, b: seq<Addr>, p0: Pages, p1: Pages)
    requires SamePagesButFlags(p0, p1)
    ensures f + Frames(a, p0) + Frames(b, p1) == f + Frames(a + b, p0)
  {
    FramesAgree(b, p0, p1);
    FramesConcat(a, b, p0);
    assert f + Frames(a, p0) + Frames(b, p0) == f + (Frames(a, p0) + Frames(b, p0));
  }

  lemma {:induction false} MoreOut(e0: multiset<Addr>, e1: multiset<Addr>, e: multiset<Addr>, a: seq<Addr>,
                                   b: seq<Addr>)
    requires e1 + multiset(a) == e0 && e + multiset(b) == e1
    ensures e + multiset(a + b) == e0
  {
  }

  lemma {:induction false} MoreUnused(p0: Pages, p1: Pages, a: seq<Addr>, b: seq<Addr>)
    requires SamePagesButFlags(p0, p1) && AllUnused(a, p0) && AllUnused(b, p1)
    ensures AllUnused(a + b, p0)
  {
  }

  lemma {:induction false} ScanReleases(m0: Lru, g0: Lists, n: nat, m: Lru, g: Lists)
    requires forall x :: x in g0.inactive ==> x in m0.pages
    requires var r := ScanInactive(g0.inactive, m0.pages, n);
      g == Lists(r.promoted + g0.active, r.kept) && m.freed == m0.freed + Frames(r.freed, m0.pages)
    requires SamePagesButFlags(m0.pages, m.pages)
    ensures var r := ScanInactive(g0.inactive, m0.pages, n);
      Released(m0, g0, m, g, r.freed) && |r.freed| <= n && (|r.freed| < n ==> NoneUnused(g.inactive, m0.pages))
  {
    var r := ScanInactive(g0.inactive, m0.pages, n);
    ScanPartition(g0.inactive, m0.pages, n);
    forall x | x in r.freed ensures x in m0.pages && Unused(m0.pages[x]) {
      FreedWasListed(g0.inactive, m0.pages, n, x);
      ScanFacts(g0.inactive, m0.pages, n, x);
    }
    forall x | x in r.kept && x in m0.pages && |r.freed| < n ensures !Unused(m0.pages[x]) {
      ScanFacts(g0.inactive, m0.pages, n, x);
    }
    Promoted(r.promoted, g0.active, r.kept, r.freed, g0.inactive);
  }

  lemma {:induction false} FreedWasListed(s: seq<Addr>, pages: Pages, n: nat, x: Addr)
    requires (forall y :: y in s ==> y in pages) && x in ScanInactive(s, pages, n).freed
    ensures x in s
  {
    var r := ScanInactive(s, pages, n);
    ScanPartition(s, pages, n);
    PartOf(r.kept, r.promoted, r.freed, s, x);
  }

  lemma {:induction false} Promoted(p: seq<Addr>, active: seq<Addr>, k: seq<Addr>, f: seq<Addr>, s: seq<Addr>)
    requires multiset(k) + multiset(p) + multiset(f) == multiset(s)
    ensures multiset(p + active) + multiset(k) + multiset(f) == multiset(active) + multiset(s)
  {
  }

  /** shrink_inactive_list: which pages have been freed, and that no unused page is left if
      they are fewer than asked for. */
  method Reclaim(m0: Lru, n: nat, ghost g0: Lists) returns (m: Lru, freed: nat, ghost g: Lists, ghost out: seq<Addr>)
    requires Valid(m0, g0)
    ensures Valid(m, g) && freed == |out| <= n && Released(m0, g0, m, g, out)
    ensures freed < n ==> NoneUnused(g.inactive, m0.pages)
  {
    m, freed, g := ShrinkInactive(m0, n, g0);
    out := ScanInactive(g0.inactive, m0.pages, n).freed;
    ScanReleases(m0, g0, n, m, g);
  }

  /** The first part of try_to_free_pages: nothing is freed. */
  method Demote(m0: Lru, n: nat, ghost g0: Lists) returns (m: Lru, ghost g: Lists)
    requires Valid(m0, g0)
    ensures Valid(m, g) && SamePages(g0, g) && m.freed == m0.freed && SamePagesButFlags(m0.pages, m.pages)
  {
    var moved;
    ghost var demoted;
    m, moved, g, demoted := ShrinkActive(m0, n, g0);
  }

  /** The second part: one scan, and another one if there is something left to do. */
  method ReclaimTwice(m0: Lru, n: nat, ghost g0: Lists)
    returns (m: Lru, freed: nat, ghost g: Lists, ghost out: seq<Addr>)
    requires Valid(m0, g0)
    ensures Valid(m, g) && freed == |out| <= n && Released(m0, g0, m, g, out)
    ensures freed < n ==> NoneUnused(g.inactive, m0.pages)
  {
    m, freed, g, out := Reclaim(m0, n, g0);
    if freed < n {
      var more;
      ghost var m1, g1, rest := m, g, [];
      m, more, g, rest := Reclaim(m, n - freed, g);
      ThenReleased(m0, g0, m1, g1, out, m, g, rest);
      freed := freed + more;
      if freed < n { StillNone(g.inactive, m0.pages, m1.pages); }
      out := out + rest;
    }
  }

  /** try_to_free_pages: what is reported has been freed, at most what was asked for, unused
      pages only and each of them once; if fewer, no unused page is left inactive. */
  method TryToFreePages(m0: Lru, n: nat, ghost g0: Lists)
    returns (m: Lru, freed: nat, ghost g: Lists, ghost out: seq<Addr>)
    requires Valid(m0, g0)
    ensures Valid(m, g) && freed == |out| <= n && Released(m0, g0, m, g, out)
    ensures freed < n ==> NoneUnused(g.inactive, m0.pages)
  {
    m, g := Demote(m0, n * 2, g0);
    ghost var m1, g1 := m, g;
    m, freed, g, out := ReclaimTwice(m, n, g);
    FirstReleased(m0, g0, m1, g1, m, g, out);
    if freed < n { StillNone(g.inactive, m0.pages, m1.pages); }
  }

  lemma {:induction false} FirstReleased(m0: Lru, g0: Lists, m1: Lru, g1: Lists, m: Lru, g: Lists, out: seq<Addr>)
    requires SamePages(g0, g1) && m1.freed == m0.freed && SamePagesButFlags(m0.pages, m1.pages)
      && Released(m1, g1, m, g, out)
    ensures Released(m0, g0, m, g, out)
  {
    FramesAgree(out, m0.pages, m1.pages);
    StillTheSame(m0.pages, m1.pages, m.pages);
    assert AllUnused(out, m0.pages);
  }
}

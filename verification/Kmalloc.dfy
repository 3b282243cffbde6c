/** kernel/mm/kmalloc.c: the kernel heap, a doubly linked list of blocks with headers of 20
    bytes that cover the heap without gaps.  First fit, splitting, coalescing and growth.
    `Kmalloc` keeps the headers by address, and beside them the list they represent.
 */
module Kmalloc {
  import opened Machine

  const HEADER: nat := 20
  const HEAP_MIN_SIZE: nat := 16
  const HEAP_MAX_SIZE: nat := 0x100000
  const HEAP_MAGIC: nat := 0x12345678
  const PAGE_SIZE: nat := 4096
  const WORD: nat := 0x100000000

  /** struct heap_block */
  datatype Header = Header(magic: nat, size: nat, inUse: bool, next: Ptr, prev: Ptr)

  type Headers = map<Addr, Header>

  /** The heap variables, with the headers at their addresses. */
  datatype Heap = Heap(hdr: Headers, first: Ptr, start: Addr, end: nat, max: nat)

  // ----- the list of blocks -----

  datatype Cell = Cell(addr: Addr, size: nat, used: bool)

  ghost predicate Own(h: Headers, c: Cell)
  {
    c.addr in h && h[c.addr].magic == HEAP_MAGIC && h[c.addr].size == c.size && h[c.addr].inUse == c.used
  }

  ghost predicate Joined(h: Headers, a: Cell, b: Cell)
  {
    a.addr in h && b.addr in h && h[a.addr].next == b.addr && h[b.addr].prev == a.addr
  }

  ghost function AddrAt(s: seq<Cell>, i: int): Ptr
  {
    if 0 <= i < |s| then s[i].addr else 0
  }

  ghost predicate Linked(h: Headers, first: Ptr, s: seq<Cell>)
  {
    && (forall i :: 0 <= i < |s| ==> Own(h, s[i]))
    && (forall i, j :: 0 <= i < j < |s| && j == i + 1 ==> Joined(h, s[i], s[j]))
    && first == AddrAt(s, 0) && (s != [] ==> h[s[0].addr].prev == 0 && h[s[|s| - 1].addr].next == 0)
  }

  /** The blocks cover the addresses from `start` to `end`, in order and without gaps. */
  ghost predicate Tiled(s: seq<Cell>, start: nat, end: nat)
  {
    && (forall i, j :: 0 <= i < j < |s| && j == i + 1 ==> s[i].addr + s[i].size == s[j].addr)
    && (forall i :: 0 <= i < |s| ==> s[i].size >= HEADER)
    && (if s == [] then end == start else s[0].addr == start && s[|s| - 1].addr + s[|s| - 1].size == end)
  }

  /** Blocks do not overlap. */
  lemma {:induction false} Apart(s: seq<Cell>, start: nat, end: nat, i: nat, j: nat)
    requires Tiled(s, start, end) && i < j < |s|
    ensures s[i].addr + s[i].size <= s[j].addr
    decreases j
  {
    if i < j - 1 {
      Apart(s, start, end, i, j - 1);
      assert s[j - 1].addr + s[j - 1].size == s[j].addr;
    }
  }

  /** No two neighbours are both free. */
  ghost predicate Coalesced(s: seq<Cell>)
  {
    forall i, j :: 0 <= i < j < |s| && j == i + 1 ==> s[i].used || s[j].used
  }

  ghost predicate Arranged(hp: Heap, s: seq<Cell>)
  {
    Linked(hp.hdr, hp.first, s) && Tiled(s, hp.start, hp.end) && hp.end <= hp.max
  }

  ghost predicate Valid(hp: Heap, s: seq<Cell>)
  {
    Arranged(hp, s) && Coalesced(s)
  }

  lemma {:induction false} Neighbours(h: Headers, first: Ptr, s: seq<Cell>, k: nat)
    requires Linked(h, first, s) && k < |s|
    ensures s[k].addr in h && h[s[k].addr].next == AddrAt(s, k + 1) && h[s[k].addr].prev == AddrAt(s, k - 1)
  {
    assert Own(h, s[k]);
    if k + 1 < |s| { assert Joined(h, s[k], s[k + 1]); }
    if k > 0 { assert Joined(h, s[k - 1], s[k]); }
  }

  // ----- splitting -----

  /** `r` is `s` with block `k` cut after `n` bytes. */
  ghost predicate IsSplit(r: seq<Cell>, s: seq<Cell>, k: nat, n: nat)
  {
    && k < |s| && 0 < n <= s[k].size && |r| == |s| + 1
    && r[k] == s[k].(size := n) && r[k + 1] == Cell(s[k].addr + n, s[k].size - n, false)
    && (forall i {:trigger r[i]} :: 0 <= i < k ==> r[i] == s[i]) && (forall i :: k + 1 < i < |r| ==> r[i] == s[i - 1])
  }

  /** A cut keeps the tiling exactly when both parts have room for a header. */
  lemma {:induction false} SplitTiled(r: seq<Cell>, s: seq<Cell>, k: nat, n: nat, start: nat, end: nat)
    requires IsSplit(r, s, k, n) && Tiled(s, start, end)
    ensures Tiled(r, start, end) <==> n >= HEADER && s[k].size - n >= HEADER
  {
    assert r[k].size == n && r[k + 1].size == s[k].size - n;
    forall i, j | 0 <= i < j < |r| && j == i + 1 ensures r[i].addr + r[i].size == r[j].addr {
      if j <= k { assert s[i].addr + s[i].size == s[j].addr; }
      if i > k { assert i > k + 1 ==> s[i - 1].addr + s[i - 1].size == s[j - 1].addr; }
    }
  }

  /** The stores of split_block. */
  ghost predicate SplitStores(h: Headers, h': Headers, a: Addr, n: nat)
  {
    && a in h && n <= h[a].size && h'.Keys == h.Keys + {a + n} && n > 0
    && h'[a + n] == Header(HEAP_MAGIC, h[a].size - n, false, h[a].next, a)
    && h'[a] == h[a].(size := n, next := a + n)
    && forall x :: x in h && x != a && x != a + n ==> h'[x] == if x == h[a].next then h[x].(prev := a + n) else h[x]
  }

  /** Among the blocks only `k` is at `a` and only its successor is at `next`; none is at `b`. */
  ghost predicate Alone(s: seq<Cell>, k: nat, a: Addr, b: Addr, next: Ptr)
  {
    forall i :: 0 <= i < |s| && i != k ==> s[i].addr != a && s[i].addr != b && (s[i].addr == next <==> i == k + 1)
  }

  lemma {:induction false} StandsAlone(s: seq<Cell>, start: nat, end: nat, k: nat, n: nat)
    requires Tiled(s, start, end) && k < |s| && 0 < n < s[k].size
    ensures Alone(s, k, s[k].addr, s[k].addr + n, AddrAt(s, k + 1))
  {
    forall i | 0 <= i < |s| && i != k
      ensures s[i].addr != s[k].addr && s[i].addr != s[k].addr + n && (s[i].addr == AddrAt(s, k + 1) <==> i == k + 1)
    {
      if i < k { Apart(s, start, end, i, k); } else { Apart(s, start, end, k, i); }
      if i > k + 1 { Apart(s, start, end, k + 1, i); }
      if i < k && k + 1 < |s| { Apart(s, start, end, i, k + 1); }
    }
  }

  lemma {:induction false} SplitLinked(h: Headers, h': Headers, first: Ptr, s: seq<Cell>, k: nat, n: nat, r: seq<Cell>)
    requires Linked(h, first, s) && IsSplit(r, s, k, n) && SplitStores(h, h', s[k].addr, n)
    requires Alone(s, k, s[k].addr, s[k].addr + n, AddrAt(s, k + 1))
    ensures Linked(h', first, r)
  {
    var a := s[k].addr;
    Neighbours(h, first, s, k);
    assert Own(h, s[k]);
    forall i | 0 <= i < |r| ensures Own(h', r[i]) {
      if i < k { assert Own(h, s[i]); } else if i > k + 1 { assert Own(h, s[i - 1]); }
    }
    forall i, j | 0 <= i < j < |r| && j == i + 1 ensures Joined(h', r[i], r[j]) {
      if j <= k { assert Joined(h, s[i], s[j]); } else if i > k + 1 { assert Joined(h, s[i - 1], s[j - 1]); }
    }
    Neighbours(h, first, s, |s| - 1);
    Neighbours(h, first, s, 0);
  }

  /** split_block */
  method SplitBlock(h0: Headers, a: Addr, n: nat, ghost first: Ptr, ghost s0: seq<Cell>, ghost k: nat,
                    ghost start: nat, ghost end: nat)
    returns (h: Headers, ghost s: seq<Cell>)
    requires Linked(h0, first, s0) && Tiled(s0, start, end) && k < |s0| && s0[k].addr == a && n >= HEADER
    ensures Linked(h, first, s) && Tiled(s, start, end)
    ensures if s0[k].size < n + HEADER + HEAP_MIN_SIZE then s == s0 else IsSplit(s, s0, k, n)
  {
    h, s := h0, s0;
    assert Own(h0, s0[k]);
    if h[a].size < n + HEADER + HEAP_MIN_SIZE {
      return;
    }
    Neighbours(h0, first, s0, k);
    StandsAlone(s0, start, end, k, n);
    var b: Addr := a + n;
    h := h[b := Header(HEAP_MAGIC, h[a].size - n, false, h[a].next, a)];
    if h[a].next != 0 {
      var next: Addr := h[a].next;
      NextInMap(h0, first, s0, k);
      h := h[next := h[next].(prev := b)];
    }
    h := h[a := h[a].(next := b, size := n)];
    s := s0[..k] + [s0[k].(size := n), Cell(b, s0[k].size - n, false)] + s0[k + 1..];
    SplitLinked(h0, h, first, s0, k, n, s);
    SplitTiled(s, s0, k, n, start, end);
  }

  lemma {:induction false} NextInMap(h: Headers, first: Ptr, s: seq<Cell>, k: nat)
    requires Linked(h, first, s) && k < |s|
    ensures k + 1 < |s| ==> s[k + 1].addr in h
  {
    if k + 1 < |s| { assert Own(h, s[k + 1]); }
  }

  // ----- merging -----

  /** `r` is `s` with blocks `k` and `k + 1` made one. */
  ghost predicate IsMerged(r: seq<Cell>, s: seq<Cell>, k: nat)
  {
    && k + 1 < |s| && |r| == |s| - 1
    && r[k] == s[k].(size := s[k].size + s[k + 1].size)
    && (forall i {:trigger r[i]} :: 0 <= i < k ==> r[i] == s[i]) && (forall i :: k < i < |r| ==> r[i] == s[i + 1])
  }

  lemma {:induction false} MergedTiled(r: seq<Cell>, s: seq<Cell>, k: nat, start: nat, end: nat)
    requires IsMerged(r, s, k) && Tiled(s, start, end)
    ensures Tiled(r, start, end)
  {
    assert s[k].addr + s[k].size == s[k + 1].addr;
    forall i, j | 0 <= i < j < |r| && j == i + 1 ensures r[i].addr + r[i].size == r[j].addr {
      if j <= k { assert s[i].addr + s[i].size == s[j].addr; }
      if i >= k { assert s[i + 1].addr + s[i + 1].size == s[j + 1].addr; }
    }
  }

  /** The stores of one merging step. */
  ghost predicate MergeStores(h: Headers, h': Headers, a: Addr, b: Addr)
  {
    && a in h && b in h && h'.Keys == h.Keys && h'[a] == h[a].(size := h[a].size + h[b].size, next := h[b].next)
    && forall x :: x in h && x != a ==> h'[x] == if x == h[b].next then h[x].(prev := a) else h[x]
  }

  /** The headers say as before whether they are headers and in use. */
  ghost predicate SameTags(h: Headers, h': Headers)
  {
    h'.Keys == h.Keys && forall x :: x in h ==> h'[x].magic == h[x].magic && h'[x].inUse == h[x].inUse
  }

  lemma {:induction false} StillTagged(a: Headers, b: Headers, c: Headers)
    requires SameTags(a, b) && SameTags(b, c)
    ensures SameTags(a, c)
  {
  }

  lemma {:induction false} MergedLinked(h: Headers, h': Headers, first: Ptr, s: seq<Cell>, k: nat, r: seq<Cell>)
    requires Linked(h, first, s) && IsMerged(r, s, k) && MergeStores(h, h', s[k].addr, s[k + 1].addr)
    requires Alone(s, k + 1, s[k + 1].addr, s[k + 1].addr, AddrAt(s, k + 2))
    requires forall i :: 0 <= i < |s| && i != k ==> s[i].addr != s[k].addr
    ensures Linked(h', first, r)
  {
    Neighbours(h, first, s, k);
    Neighbours(h, first, s, k + 1);
    assert Own(h, s[k]) && Own(h, s[k + 1]);
    forall i | 0 <= i < |r| ensures Own(h', r[i]) {
      if i < k { assert Own(h, s[i]); } else if i > k { assert Own(h, s[i + 1]); }
    }
    forall i, j | 0 <= i < j < |r| && j == i + 1 ensures Joined(h', r[i], r[j]) {
      if j <= k { assert Joined(h, s[i], s[j]); } else { assert Joined(h, s[i + 1], s[j + 1]); }
    }
    Neighbours(h, first, s, |s| - 1);
    Neighbours(h, first, s, 0);
  }

  ghost function Merged(s: seq<Cell>, k: nat): (r: seq<Cell>)
    requires k + 1 < |s|
    ensures IsMerged(r, s, k)
  {
    s[..k] + [s[k].(size := s[k].size + s[k + 1].size)] + s[k + 2..]
  }

  method MergeHeaders(h0: Headers, a: Addr) returns (h: Headers)
    requires a in h0 && h0[a].next != 0 && h0[a].next != a && h0[a].next in h0
    requires var after := h0[h0[a].next].next; after != 0 ==> after in h0 && after != a && after != h0[a].next
    ensures MergeStores(h0, h, a, h0[a].next) && SameTags(h0, h)
  {
    var next: Addr := h0[a].next;
    h := h0[a := h0[a].(size := h0[a].size + h0[next].size)];
    h := h[a := h[a].(next := h[next].next)];
    if h[next].next != 0 {
      var after: Addr := h[next].next;
      h := h[after := h[after].(prev := a)];
    }
  }

  /** One step of the forward loop of merge_blocks: the successor is swallowed. */
  method Swallow(h0: Headers, a: Addr, ghost first: Ptr, ghost s0: seq<Cell>, ghost k: nat, ghost start: nat,
                 ghost end: nat)
    returns (h: Headers, ghost s: seq<Cell>)
    requires Linked(h0, first, s0) && Tiled(s0, start, end) && k + 1 < |s0| && s0[k].addr == a
    ensures Linked(h, first, s) && Tiled(s, start, end) && s == Merged(s0, k) && SameTags(h0, h)
  {
    Ahead(h0, first, s0, k, start, end);
    h := MergeHeaders(h0, a);
    s := Merged(s0, k);
    MergedLinked(h0, h, first, s0, k, s);
    MergedTiled(s, s0, k, start, end);
  }

  lemma {:induction false} Ahead(h: Headers, first: Ptr, s: seq<Cell>, k: nat, start: nat, end: nat)
    requires Linked(h, first, s) && Tiled(s, start, end) && k + 1 < |s|
    ensures var (a, b, c) := (s[k].addr, s[k + 1].addr, AddrAt(s, k + 2));
      a in h && b in h && h[a].next == b && h[b].next == c && a != b && (c != 0 ==> c in h && c != a && c != b)
    ensures Alone(s, k + 1, s[k + 1].addr, s[k + 1].addr, AddrAt(s, k + 2))
    ensures forall i :: 0 <= i < |s| && i != k ==> s[i].addr != s[k].addr
  {
    Neighbours(h, first, s, k);
    Neighbours(h, first, s, k + 1);
    NextInMap(h, first, s, k + 1);
    StandsAlone(s, start, end, k + 1, 1);
    StandsAlone(s, start, end, k, 1);
  }

  /** `r` is `s` with the blocks from `lo` to `hi` made one free block. */
  ghost predicate IsCoalesced(r: seq<Cell>, s: seq<Cell>, lo: nat, hi: nat)
  {
    && lo < hi <= |s| && |r| == |s| - (hi - lo) + 1 && r[lo].addr == s[lo].addr && !r[lo].used
    && (forall i {:trigger r[i]} :: 0 <= i < lo ==> r[i] == s[i])
    && (forall i :: lo < i < |r| ==> r[i] == s[i + (hi - lo) - 1])
  }

  /** The blocks from `lo` to `hi` are the free blocks around `k`. */
  ghost predicate FreeRun(s: seq<Cell>, lo: nat, k: nat, hi: nat)
  {
    && lo <= k < hi <= |s| && (forall i :: lo <= i < hi ==> !s[i].used)
    && (lo == 0 || s[lo - 1].used) && (hi == |s| || s[hi].used)
  }

  lemma {:induction false} OneSwallowed(r: seq<Cell>, t: seq<Cell>, s: seq<Cell>, k: nat, m: nat)
    requires IsCoalesced(t, s, k, m) && IsMerged(r, t, k) && m < |s|
    ensures IsCoalesced(r, s, k, m + 1)
  {
  }

  lemma {:induction false} BothWays(r: seq<Cell>, t: seq<Cell>, s: seq<Cell>, lo: nat, k: nat, hi: nat, m: nat)
    requires IsCoalesced(t, s, k, m) && 0 < k && !t[k - 1].used && FreeRun(t, lo, k - 1, hi)
      && IsCoalesced(r, t, lo, hi)
    requires (forall i :: k <= i < m ==> !s[i].used) && (m == |s| || s[m].used)
    ensures FreeRun(s, lo, k, m) && IsCoalesced(r, s, lo, m)
  {
    assert m < |s| ==> t[k + 1] == s[m];
    assert hi == k + 1;
    forall i | lo <= i < m ensures !s[i].used {
      if i < k { assert t[i] == s[i]; }
    }
    forall i | lo < i < |r| ensures r[i] == s[i + (m - lo) - 1] {
      assert r[i] == t[i + (hi - lo) - 1];
    }
  }

  /** The blocks behind `k` swallowed one by one, up to `hi`. */
  ghost function Fold(s: seq<Cell>, k: nat, hi: nat): (r: seq<Cell>)
    requires k < hi <= |s|
    ensures |r| == |s| - (hi - k) + 1
  {
    if hi == k + 1 then s else Merged(Fold(s, k, hi - 1), k)
  }

  lemma {:induction false} FoldIs(s: seq<Cell>, k: nat, hi: nat)
    requires k < hi <= |s| && !s[k].used
    ensures IsCoalesced(Fold(s, k, hi), s, k, hi)
  {
    if hi == k + 1 {
      NoneSwallowed(s, k);
    } else {
      FoldIs(s, k, hi - 1);
      OneSwallowed(Merged(Fold(s, k, hi - 1), k), Fold(s, k, hi - 1), s, k, hi - 1);
    }
  }

  lemma {:induction false} NoneSwallowed(s: seq<Cell>, k: nat)
    requires k < |s| && !s[k].used
    ensures IsCoalesced(s, s, k, k + 1)
  {
  }

  /** What the forward loop has done so far, and what it sees next. */
  ghost predicate Merging(h: Headers, first: Ptr, s0: seq<Cell>, s: seq<Cell>, k: nat, hi: nat, a: Addr)
  {
    && k < hi <= |s0| && s == Fold(s0, k, hi) && s[k].addr == a && AllFree(s0, k, hi)
    && a in h && h[a].next == AddrAt(s0, hi) && h[a].prev == AddrAt(s, k - 1)
    && (hi < |s0| ==> s0[hi].addr in h && h[s0[hi].addr].magic == HEAP_MAGIC && h[s0[hi].addr].inUse == s0[hi].used)
  }

  ghost predicate AllFree(s: seq<Cell>, lo: nat, hi: nat)
    requires hi <= |s|
  {
    forall i :: lo <= i < hi ==> !s[i].used
  }

  /** The forward loop of merge_blocks. */
  method MergeForward(h0: Headers, a: Addr, ghost first: Ptr, ghost s0: seq<Cell>, ghost k: nat, ghost start: nat,
                      ghost end: nat)
    returns (h: Headers, ghost s: seq<Cell>, ghost hi: nat)
    requires Linked(h0, first, s0) && Tiled(s0, start, end) && k < |s0| && s0[k].addr == a && !s0[k].used
    ensures Merging(h, first, s0, s, k, hi, a) && Linked(h, first, s) && Tiled(s, start, end)
      && (hi == |s0| || s0[hi].used)
    ensures SameTags(h0, h)
  {
    h, s, hi := h0, s0, k + 1;
    MergeStart(h, first, s, k, a);
    while h[a].next != 0 && !h[h[a].next].inUse
      invariant MergingOn(h0, h, first, s0, s, k, hi, a, start, end)
      decreases |s0| - hi
    {
      var next: Addr := h[a].next;
      if h[next].magic != HEAP_MAGIC {
        break;
      }
      h, s := MergeNext(h, a, h0, first, s0, s, k, hi, start, end);
      hi := hi + 1;
    }
  }

  ghost predicate MergingOn(h0: Headers, h: Headers, first: Ptr, s0: seq<Cell>, s: seq<Cell>, k: nat, hi: nat, a: Addr,
                            start: nat, end: nat)
  {
    Merging(h, first, s0, s, k, hi, a) && Linked(h, first, s) && Tiled(s, start, end) && SameTags(h0, h)
  }

  method MergeNext(h1: Headers, a: Addr, ghost h0: Headers, ghost first: Ptr, ghost s0: seq<Cell>, ghost s1: seq<Cell>,
                   ghost k: nat, ghost hi: nat, ghost start: nat, ghost end: nat)
    returns (h: Headers, ghost s: seq<Cell>)
    requires MergingOn(h0, h1, first, s0, s1, k, hi, a, start, end) && s0[k].addr == a
    requires h1[a].next != 0 && !h1[h1[a].next].inUse && h1[h1[a].next].magic == HEAP_MAGIC
    ensures hi < |s0| && MergingOn(h0, h, first, s0, s, k, hi + 1, a, start, end)
  {
    h, s := Swallow(h1, a, first, s1, k, start, end);
    StillTagged(h0, h1, h);
    MergeStep(h, first, s0, s, k, hi, a);
  }

  lemma {:induction false} MergeStart(h: Headers, first: Ptr, s: seq<Cell>, k: nat, a: Addr)
    requires Linked(h, first, s) && k < |s| && s[k].addr == a && !s[k].used
    ensures Merging(h, first, s, s, k, k + 1, a)
  {
    Neighbours(h, first, s, k);
    NextOwned(h, first, s, k);
  }

  lemma {:induction false} MergeStep(h: Headers, first: Ptr, s0: seq<Cell>, s: seq<Cell>, k: nat, hi: nat, a: Addr)
    requires k < hi < |s0| && AllFree(s0, k, hi) && !s0[hi].used && s0[k].addr == a && s == Fold(s0, k, hi + 1)
      && Linked(h, first, s)
    ensures Merging(h, first, s0, s, k, hi + 1, a)
  {
    FoldIs(s0, k, hi + 1);
    Neighbours(h, first, s, k);
    NextOwned(h, first, s, k);
    assert k + 1 < |s| ==> s[k + 1] == s0[hi + 1];
  }

  /** merge_blocks: a free block becomes one with all free blocks around it. */
  method MergeBlocks(h0: Headers, a: Addr, ghost first: Ptr, ghost s0: seq<Cell>, ghost k: nat, ghost start: nat,
                     ghost end: nat)
    returns (h: Headers, ghost s: seq<Cell>, ghost lo: nat, ghost hi: nat)
    requires Linked(h0, first, s0) && Tiled(s0, start, end) && k < |s0| && s0[k].addr == a
    ensures Linked(h, first, s) && Tiled(s, start, end)
    ensures if s0[k].used then h == h0 && s == s0 else FreeRun(s0, lo, k, hi) && IsCoalesced(s, s0, lo, hi)
    ensures SameTags(h0, h)
    decreases k
  {
    h, s, lo, hi := h0, s0, k, k + 1;
    assert Own(h0, s0[k]);
    if h[a].inUse {
      return;
    }
    h, s, hi := MergeForward(h, a, first, s, k, start, end);
    FoldIs(s0, k, hi);
    if h[a].prev != 0 {
      var prev: Addr := h[a].prev;
      assert Own(h, s[k - 1]);
      if !h[prev].inUse {
        ghost var t, m, h1 := s, hi, h;
        h, s, lo, hi := MergeBlocks(h, prev, first, s, k - 1, start, end);
        StillTagged(h0, h1, h);
        BothWays(s, t, s0, lo, k, hi, m);
        hi := m;
      }
    }
  }

  lemma {:induction false} NextOwned(h: Headers, first: Ptr, s: seq<Cell>, k: nat)
    requires Linked(h, first, s) && k < |s|
    ensures k + 1 < |s| ==>
      s[k + 1].addr in h && h[s[k + 1].addr].magic == HEAP_MAGIC && h[s[k + 1].addr].inUse == s[k + 1].used
  {
    if k + 1 < |s| { assert Own(h, s[k + 1]); }
  }

  // ----- the allocator -----

  /** The blocks in use. */
  ghost function Live(s: seq<Cell>): set<Cell>
  {
    set i | 0 <= i < |s| && s[i].used :: s[i]
  }

  lemma {:induction false} Marked(h: Headers, first: Ptr, s: seq<Cell>, k: nat, start: nat, end: nat, used: bool)
    requires Linked(h, first, s) && Tiled(s, start, end) && k < |s|
    ensures s[k].addr in h
    ensures var (h', r) := (h[s[k].addr := h[s[k].addr].(inUse := used)], s[k := s[k].(used := used)]);
      Linked(h', first, r) && Tiled(r, start, end)
  {
    assert Own(h, s[k]);
    var h', r := h[s[k].addr := h[s[k].addr].(inUse := used)], s[k := s[k].(used := used)];
    StandsAlone(s, start, end, k, 1);
    MarkedLinked(h, h', first, s, k, used, r);
    MarkedTiled(s, k, start, end, r);
  }

  lemma {:induction false} MarkedLinked(h: Headers, h': Headers, first: Ptr, s: seq<Cell>, k: nat, used: bool,
                                        r: seq<Cell>)
    requires Linked(h, first, s) && k < |s| && s[k].addr in h && Alone(s, k, s[k].addr, s[k].addr + 1, AddrAt(s, k + 1))
    requires h' == h[s[k].addr := h[s[k].addr].(inUse := used)] && r == s[k := s[k].(used := used)]
    ensures Linked(h', first, r)
  {
    forall i | 0 <= i < |r| ensures Own(h', r[i]) { assert Own(h, s[i]); }
    forall i, j | 0 <= i < j < |r| && j == i + 1 ensures Joined(h', r[i], r[j]) { assert Joined(h, s[i], s[j]); }
  }

  lemma {:induction false} MarkedTiled(s: seq<Cell>, k: nat, start: nat, end: nat, r: seq<Cell>)
    requires Tiled(s, start, end) && k < |s| == |r| && r == s[k := s[k].(used := r[k].used)]
    ensures Tiled(r, start, end)
  {
    forall i, j | 0 <= i < j < |r| && j == i + 1
      ensures r[i].addr + r[i].size == r[j].addr
    { assert s[i].addr + s[i].size == s[j].addr; }
  }

  /** A freed and merged block leaves no two free neighbours, and the others in use. */
  lemma {:induction false} FreedAndMerged(s: seq<Cell>, k: nat, t: seq<Cell>, lo: nat, hi: nat, r: seq<Cell>)
    requires Coalesced(s) && k < |s| && s[k].used && t == s[k := s[k].(used := false)] && FreeRun(t, lo, k, hi)
      && IsCoalesced(r, t, lo, hi)
    ensures Coalesced(r) && Live(r) == LiveBut(s, k)
  {
    forall i, j | 0 <= i < j < |r| && j == i + 1 ensures r[i].used || r[j].used {
      if j < lo {
        assert r[i] == s[i] && r[j] == s[j];
      } else if i > lo {
        assert r[i] == t[i + (hi - lo) - 1] && r[j] == t[j + (hi - lo) - 1];
        assert s[i + (hi - lo) - 1].used || s[j + (hi - lo) - 1].used;
      }
    }
    forall c ensures c in Live(r) <==> c in LiveBut(s, k) {
      if c in Live(r) {
        var i :| 0 <= i < |r| && r[i].used && r[i] == c;
        assert c == if i < lo then s[i] else s[i + (hi - lo) - 1];
      }
      if c in LiveBut(s, k) {
        var i :| 0 <= i < |s| && i != k && s[i].used && s[i] == c;
        assert t[i] == c && !(lo <= i < hi);
        assert c == if i < lo then r[i] else r[i - (hi - lo) + 1];
      }
    }
  }

  ghost function LiveBut(s: seq<Cell>, k: nat): set<Cell>
  {
    set i | 0 <= i < |s| && i != k && s[i].used :: s[i]
  }

  lemma {:induction false} LiveButIs(s: seq<Cell>, k: nat, start: nat, end: nat)
    requires Tiled(s, start, end) && k < |s|
    ensures LiveBut(s, k) == Live(s) - {s[k]}
  {
    StandsAlone(s, start, end, k, 1);
  }

  /** All headers but the one before `p` say the same about being in use. */
  ghost predicate SameTagsBut(h: Headers, h': Headers, p: Ptr)
  {
    && h'.Keys == h.Keys
    && forall x :: x in h && x + HEADER != p ==> h'[x].magic == h[x].magic && h'[x].inUse == h[x].inUse
  }

  /** `p` lies behind a header, and if that says that it is in use, it is the one of block `k`. */
  ghost predicate Freeable(hp: Heap, s: seq<Cell>, p: Ptr, k: nat)
  {
    && p > HEADER && p - HEADER in hp.hdr
    && (InUse(hp, p) ==> k < |s| && p == s[k].addr + HEADER)
  }

  ghost predicate InUse(hp: Heap, p: Ptr)
    requires p > HEADER && p - HEADER in hp.hdr
  {
    hp.hdr[p - HEADER].magic == HEAP_MAGIC && hp.hdr[p - HEADER].inUse
  }

  /** kfree: a block in use is so no more, and its neighbours have been merged.  What is not
      in use is left alone, also when its header has been swallowed by a neighbour since. */
  method Kfree(hp0: Heap, p: Ptr, ghost s0: seq<Cell>, ghost k: nat) returns (hp: Heap, ghost s: seq<Cell>)
    requires Valid(hp0, s0) && (p != 0 ==> Freeable(hp0, s0, p, k))
    ensures Valid(hp, s) && hp == hp0.(hdr := hp.hdr)
    ensures p == 0 || !InUse(hp0, p) ==> hp == hp0 && s == s0
    ensures p != 0 && InUse(hp0, p) ==> s0[k] in Live(s0) && Live(s) == Live(s0) - {s0[k]}
    ensures p != 0 ==> Freeable(hp, s, p, k) && !InUse(hp, p)
    ensures SameTagsBut(hp0.hdr, hp.hdr, p)
  {
    hp, s := hp0, s0;
    if p == 0 {
      return;
    }
    var a: Addr := p - HEADER;
    if hp.hdr[a].magic != HEAP_MAGIC || !hp.hdr[a].inUse {
      return;
    }
    hp, s := FreeBlock(hp, a, s, k);
  }

  /** The last part of kfree: the block is marked free and merged. */
  method FreeBlock(hp0: Heap, a: Addr, ghost s0: seq<Cell>, ghost k: nat) returns (hp: Heap, ghost s: seq<Cell>)
    requires Valid(hp0, s0) && k < |s0| && s0[k].addr == a && a in hp0.hdr && hp0.hdr[a].inUse
    ensures Valid(hp, s) && hp == hp0.(hdr := hp.hdr) && a in hp.hdr && !hp.hdr[a].inUse
    ensures s0[k] in Live(s0) && Live(s) == Live(s0) - {s0[k]} && SameTagsBut(hp0.hdr, hp.hdr, a + HEADER)
  {
    assert Own(hp0.hdr, s0[k]);
    LiveButIs(s0, k, hp0.start, hp0.end);
    Marked(hp0.hdr, hp0.first, s0, k, hp0.start, hp0.end, false);
    ghost var lo, hi;
    ghost var t := s0[k := s0[k].(used := false)];
    var h := hp0.hdr[a := hp0.hdr[a].(inUse := false)];
    h, s, lo, hi := MergeBlocks(h, a, hp0.first, t, k, hp0.start, hp0.end);
    FreedAndMerged(s0, k, t, lo, hi, s);
    hp := hp0.(hdr := h);
  }

  /** A second kfree of the same pointer changes nothing, whatever has been merged. */
  method FreeTwice(hp0: Heap, p: Ptr, ghost s0: seq<Cell>, ghost k: nat)
    returns (hp: Heap, hp': Heap, ghost s: seq<Cell>, ghost s': seq<Cell>)
    requires Valid(hp0, s0) && (p != 0 ==> Freeable(hp0, s0, p, k))
    ensures Valid(hp, s) && hp' == hp && s' == s
  {
    hp, s := Kfree(hp0, p, s0, k);
    hp', s' := Kfree(hp, p, s, k);
  }

  // ----- growth -----

  /** ALIGN_UP to whole pages */
  function PageUp(n: nat): (size: nat)
    ensures n <= size < n + 4096 && size % 4096 == 0
  {
    (n + 4095) / 4096 * 4096
  }

  /** The walk to the last block. */
  method LastBlock(h: Headers, first: Addr, ghost s: seq<Cell>) returns (last: Addr)
    requires Linked(h, first, s)
    ensures s != [] && last == s[|s| - 1].addr && last in h
  {
    last := first;
    ghost var i: nat := 0;
    Neighbours(h, first, s, 0);
    while h[last].next != 0
      invariant i < |s| && last == s[i].addr && last in h && h[last].next == AddrAt(s, i + 1)
      decreases |s| - i
    {
      last := h[last].next;
      i := i + 1;
      Neighbours(h, first, s, i);
    }
  }

  lemma {:induction false} Appended(h: Headers, first: Ptr, s: seq<Cell>, start: nat, end: nat, size: nat, h': Headers)
    requires Linked(h, first, s) && Tiled(s, start, end) && end > 0 && size >= HEADER
    requires h'.Keys == h.Keys + {end as Addr} && h'[end] == Header(HEAP_MAGIC, size, false, 0, AddrAt(s, |s| - 1))
    requires forall x :: x in h && x != end ==> h'[x] == if x == AddrAt(s, |s| - 1) then h[x].(next := end) else h[x]
    ensures var r := s + [Cell(end, size, false)];
      Linked(h', if s == [] then end else first, r) && Tiled(r, start, end + size)
  {
    var r := s + [Cell(end, size, false)];
    forall i | 0 <= i < |s| ensures s[i].addr < end && (s[i].addr == AddrAt(s, |s| - 1) <==> i == |s| - 1) {
      if i < |s| - 1 { Apart(s, start, end, i, |s| - 1); }
    }
    forall i | 0 <= i < |r| ensures Own(h', r[i]) { if i < |s| { assert Own(h, s[i]); } }
    forall i, j | 0 <= i < j < |r| && j == i + 1 ensures Joined(h', r[i], r[j]) {
      if j < |s| { assert Joined(h, s[i], s[j]); } else { assert Own(h, s[i]); }
    }
    forall i, j | 0 <= i < j < |r| && j == i + 1 ensures r[i].addr + r[i].size == r[j].addr {
      if j < |s| { assert s[i].addr + s[i].size == s[j].addr; }
    }
  }

  /** expand_heap: one more free block at the end, large enough for `n` bytes and a header.
      `frames` says whether the physical frames can be had. */
  method ExpandHeap(hp0: Heap, n: nat, frames: bool, ghost s0: seq<Cell>)
    returns (block: Ptr, hp: Heap, ghost s: seq<Cell>)
    requires Arranged(hp0, s0)
    ensures Arranged(hp, s)
    ensures block == 0 <==> !frames || hp0.end + PageUp(n + 20) > hp0.max
    ensures block == 0 ==> hp == hp0 && s == s0
    ensures block != 0 ==>
      block == hp0.end && hp.end == hp0.end + PageUp(n + 20) && hp.start == hp0.start && hp.max == hp0.max
    ensures block != 0 ==> s == s0 + [Cell(block, hp.end - hp0.end, false)]
  {
    hp, s := hp0, s0;
    var size := PageUp(n + HEADER);
    if hp.end + size > hp.max || !frames {
      return 0, hp, s;
    }
    EndIsBehind(s0, hp0.start, hp0.end);
    var b: Addr := hp.end;
    var h := hp.hdr[b := Header(HEAP_MAGIC, size, false, 0, 0)];
    var first := hp.first;
    if first == 0 {
      first := b;
    } else {
      var last := LastBlock(hp.hdr, first, s0);
      LastIsBefore(s0, hp0.start, hp0.end);
      h := h[last := h[last].(next := b)];
      h := h[b := h[b].(prev := last)];
    }
    Appended(hp0.hdr, hp0.first, s0, hp0.start, hp0.end, size, h);
    hp := hp.(hdr := h, first := first, end := hp.end + size);
    s := s + [Cell(b, size, false)];
    block := b;
  }

  lemma {:induction false} EndIsBehind(s: seq<Cell>, start: Addr, end: nat)
    requires Tiled(s, start, end)
    ensures end > 0
  {
  }

  lemma {:induction false} LastIsBefore(s: seq<Cell>, start: nat, end: nat)
    requires Tiled(s, start, end) && s != []
    ensures s[|s| - 1].addr < end
  {
  }

  /** kmalloc_init: a heap with one free block of 17 pages, or none if there is no memory. */
  method Init(start: Addr, size: nat, frames: bool) returns (hp: Heap, ghost s: seq<Cell>)
    ensures Valid(hp, s) && Live(s) == {} && hp.start == start && hp.max == start + size
    ensures s == if frames && size >= 69632 then [Cell(start, 69632, false)] else []
  {
    hp := Heap(map[], 0, start, start, start + size);
    var block;
    block, hp, s := ExpandHeap(hp, PAGE_SIZE * 16, frames, []);
  }

  // ----- kmalloc -----

  /** The block size for a request, in 32-bit arithmetic. */
  function Need(size: nat): nat
  {
    ((size + 7) % WORD / 8 * 8 + HEADER) % WORD
  }

  /** It has room for the request exactly when neither the rounding nor the header wraps, and
      room for a header exactly when not just the header wraps. */
  lemma {:induction false} NeedExact(size: nat)
    requires size < WORD
    ensures Need(size) >= size + HEADER <==> size <= 0xFFFFFFE8
    ensures size <= 0xFFFFFFE8 ==> Need(size) < size + HEADER + 8 && (size > 0 ==> Need(size) >= HEADER + 8)
    ensures Need(size) >= HEADER <==> size <= 0xFFFFFFE8 || size > 0xFFFFFFF8
    ensures size <= 0xFFFFFFE8 ==> (Need(size) - HEADER) % 8 == 0
  {
    if size <= 0xFFFFFFE8 {
      var q := (size + 7) / 8;
      assert Need(size) == 8 * q + HEADER;
    }
  }

  ghost predicate Fits(c: Cell, n: nat)
  {
    !c.used && c.size >= n
  }

  /** None of the first `k` blocks will do. */
  ghost predicate NoFit(s: seq<Cell>, k: nat, n: nat)
    requires k <= |s|
  {
    forall i :: 0 <= i < k ==> !Fits(s[i], n)
  }

  /** The search loop: the first free block that is large enough. */
  method FirstFit(h: Headers, first: Ptr, n: nat, ghost s: seq<Cell>) returns (block: Ptr, ghost k: nat)
    requires Linked(h, first, s)
    ensures block == 0 <==> NoFit(s, |s|, n)
    ensures block != 0 ==> k < |s| && block == s[k].addr && Fits(s[k], n) && NoFit(s, k, n)
  {
    block, k := first, 0;
    while block != 0
      invariant k <= |s| && block == AddrAt(s, k) && NoFit(s, k, n)
      decreases |s| - k
    {
      Neighbours(h, first, s, k);
      assert Own(h, s[k]);
      if !h[block].inUse && h[block].size >= n {
        return;
      }
      block := h[block].next;
      k := k + 1;
    }
  }

  ghost function FreeCells(s: seq<Cell>): set<Cell>
  {
    set i | 0 <= i < |s| && !s[i].used :: s[i]
  }

  /** Block `k` of `s` has been taken: whole if less than 36 bytes would be left over, and otherwise
      cut to `n` bytes with a free block behind it.  Every other block stays. */
  ghost predicate Taken(s: seq<Cell>, k: nat, n: nat, r: seq<Cell>)
  {
    && k < |s| && k < |r| && r[k].used && r[k].addr == s[k].addr
    && r[k].size == (if s[k].size < n + 36 then s[k].size else n)
    && FreeCells(r) == FreeCells(s) - {s[k]} +
      (if s[k].size < n + 36 then {} else {Cell(s[k].addr + n, s[k].size - n, false)})
    && Sum(r, false) + r[k].size == Sum(s, false) && Sum(r, true) == Sum(s, true) + r[k].size
  }

  lemma {:induction false} SumConcat(a: seq<Cell>, b: seq<Cell>, used: bool)
    ensures Sum(a + b, used) == Sum(a, used) + Sum(b, used)
  {
    if b == [] {
      assert a + b == a;
    } else {
      var n := |b| - 1;
      assert (a + b)[..|a| + n] == a + b[..n] && (a + b)[|a| + n] == b[n];
      SumConcat(a, b[..n], used);
    }
  }

  lemma {:induction false} SumAround(a: seq<Cell>, m: seq<Cell>, b: seq<Cell>, used: bool)
    ensures Sum(a + m + b, used) == Sum(a, used) + Sum(m, used) + Sum(b, used)
  {
    SumConcat(a + m, b, used);
    SumConcat(a, m, used);
  }

  lemma {:induction false} SumOne(c: Cell, used: bool)
    ensures Sum([c], used) == if c.used == used then c.size else 0
  {
    assert [c][..0] == [];
  }

  lemma {:induction false} TakenSums(s: seq<Cell>, k: nat, n: nat, r: seq<Cell>, used: bool)
    requires k < |s| && !s[k].used
    requires var t := s[k := s[k].(used := true)]; r == t || IsSplit(r, t, k, n)
    ensures Sum(r, used) == if used then Sum(s, used) + r[k].size else Sum(s, used) - r[k].size
  {
    var t := s[k := s[k].(used := true)];
    var (a, b) := (s[..k], s[k + 1..]);
    assert s == a + [s[k]] + b;
    SumAround(a, [s[k]], b, used);
    SumOne(s[k], used);
    SumOne(r[k], used);
    if r == t {
      assert r == a + [r[k]] + b;
      SumAround(a, [r[k]], b, used);
    } else {
      var m := [r[k], r[k + 1]];
      assert r == a + m + b;
      SumAround(a, m, b, used);
      assert m == [r[k]] + [r[k + 1]];
      SumConcat([r[k]], [r[k + 1]], used);
      SumOne(r[k + 1], used);
    }
  }

  lemma {:induction false} TakenFree(s: seq<Cell>, k: nat, n: nat, r: seq<Cell>, start: nat, end: nat)
    requires Tiled(s, start, end) && k < |s| && !s[k].used
    requires var t := s[k := s[k].(used := true)]; r == t || IsSplit(r, t, k, n)
    ensures FreeCells(r) == FreeCells(s) - {s[k]} + if |r| == |s| then {} else {r[k + 1]}
  {
    forall c ensures c in FreeCells(r) <==> (c in FreeCells(s) && c != s[k]) || (|r| > |s| && c == r[k + 1]) {
      if c in FreeCells(r) { FreeBefore(s, k, n, r, start, end, c); }
      if c in FreeCells(s) && c != s[k] { FreeAfter(s, k, n, r, c); }
    }
  }

  lemma {:induction false} FreeBefore(s: seq<Cell>, k: nat, n: nat, r: seq<Cell>, start: nat, end: nat, c: Cell)
    requires Tiled(s, start, end) && k < |s| && !s[k].used && c in FreeCells(r)
    requires var t := s[k := s[k].(used := true)]; r == t || IsSplit(r, t, k, n)
    ensures (c in FreeCells(s) && c != s[k]) || (|r| > |s| && c == r[k + 1])
  {
    var i :| 0 <= i < |r| && !r[i].used && r[i] == c;
    var j := if i < k || |r| == |s| then i else i - 1;
    if j != k {
      assert s[j] == c;
      if j < k { Apart(s, start, end, j, k); } else { Apart(s, start, end, k, j); }
    }
  }

  lemma {:induction false} FreeAfter(s: seq<Cell>, k: nat, n: nat, r: seq<Cell>, c: Cell)
    requires k < |s| && !s[k].used && c in FreeCells(s) && c != s[k]
    requires var t := s[k := s[k].(used := true)]; r == t || IsSplit(r, t, k, n)
    ensures c in FreeCells(r)
  {
    var i :| 0 <= i < |s| && !s[i].used && s[i] == c;
    var j := if i < k || |r| == |s| then i else i + 1;
    assert r[j] == c;
  }

  lemma {:induction false} TakenIs(s: seq<Cell>, k: nat, n: nat, r: seq<Cell>, start: nat, end: nat)
    requires Tiled(s, start, end) && k < |s| && !s[k].used
    requires var t := s[k := s[k].(used := true)]; if s[k].size < n + 36 then r == t else IsSplit(r, t, k, n)
    ensures Taken(s, k, n, r)
  {
    TakenFree(s, k, n, r, start, end);
    TakenSums(s, k, n, r, true);
    TakenSums(s, k, n, r, false);
  }

  /** The block `k` of `s` is newly in use, behind it perhaps a free rest; the other blocks in use stay. */
  lemma {:induction false} TakenAndSplit(s: seq<Cell>, k: nat, n: nat, r: seq<Cell>)
    requires Coalesced(s) && k < |s| && !s[k].used
    requires var t := s[k := s[k].(used := true)]; r == t || IsSplit(r, t, k, n)
    ensures Coalesced(r) && Live(r) == Live(s) + {r[k]}
  {
    var t := s[k := s[k].(used := true)];
    forall i, j | 0 <= i < j < |s| && j == i + 1 ensures t[i].used || t[j].used { assert s[i].used || s[j].used; }
    if r != t {
      forall i, j | 0 <= i < j < |r| && j == i + 1 ensures r[i].used || r[j].used {
        if j <= k {
          assert r[j].used == t[j].used && r[i].used == t[i].used;
        } else if i > k {
          assert r[j] == t[j - 1] && (i > k + 1 ==> r[i] == t[i - 1]);
          assert i == k + 1 ==> s[k].used || s[k + 1].used;
        }
      }
    }
    forall c ensures c in Live(r) <==> c in Live(s) || c == r[k] {
      if c in Live(r) {
        var i :| 0 <= i < |r| && r[i].used && r[i] == c;
        if i != k { assert c == if i < k || r == t then s[i] else s[i - 1]; }
      }
      if c in Live(s) {
        var i :| 0 <= i < |s| && s[i].used && s[i] == c;
        assert t[i] == c && c == if i < k || r == t then r[i] else r[i + 1];
      }
    }
  }

  /** No block in use is where a free block or the end of the heap is. */
  lemma {:induction false} NotLive(s: seq<Cell>, start: nat, end: nat, k: nat, a: Addr)
    requires Tiled(s, start, end) && k <= |s| && a == (if k == |s| then end else s[k].addr) && (k < |s| ==> !s[k].used)
    ensures forall c :: c in Live(s) ==> c.addr != a
  {
    forall c | c in Live(s) ensures c.addr != a {
      var i :| 0 <= i < |s| && s[i].used && s[i] == c;
      if k == |s| {
        if i < |s| - 1 { Apart(s, start, end, i, |s| - 1); }
      } else if i < k {
        Apart(s, start, end, i, k);
      } else {
        Apart(s, start, end, k, i);
      }
    }
  }

  /** The block found is taken and split. */
  method TakeBlock(hp0: Heap, a: Addr, n: nat, ghost s0: seq<Cell>, ghost k: nat) returns (hp: Heap, ghost s: seq<Cell>)
    requires Valid(hp0, s0) && k < |s0| && s0[k].addr == a && Fits(s0[k], n) && n >= HEADER
    ensures Valid(hp, s) && hp == hp0.(hdr := hp.hdr) && k < |s| && s[k].addr == a && s[k].size >= n && s[k].used
    ensures Live(s) == Live(s0) + {s[k]} && s[k] !in Live(s0) && Taken(s0, k, n, s)
  {
    NotLive(s0, hp0.start, hp0.end, k, a);
    Marked(hp0.hdr, hp0.first, s0, k, hp0.start, hp0.end, true);
    var h := hp0.hdr[a := hp0.hdr[a].(inUse := true)];
    ghost var t := s0[k := s0[k].(used := true)];
    h, s := SplitBlock(h, a, n, hp0.first, t, k, hp0.start, hp0.end);
    TakenAndSplit(s0, k, n, s);
    TakenIs(s0, k, n, s, hp0.start, hp0.end);
    hp := hp0.(hdr := h);
  }

  /** The new block at the end of a grown heap is taken whole. */
  method TakeLast(hp0: Heap, a: Addr, ghost s0: seq<Cell>) returns (hp: Heap, ghost s: seq<Cell>)
    requires Arranged(hp0, s0) && s0 != [] && s0[|s0| - 1].addr == a && !s0[|s0| - 1].used && Coalesced(s0[..|s0| - 1])
    ensures Valid(hp, s) && s == s0[|s0| - 1 := s0[|s0| - 1].(used := true)] && hp == hp0.(hdr := hp.hdr)
    ensures Live(s) == Live(s0[..|s0| - 1]) + {s[|s0| - 1]}
  {
    ghost var k := |s0| - 1;
    Marked(hp0.hdr, hp0.first, s0, k, hp0.start, hp0.end, true);
    hp := hp0.(hdr := hp0.hdr[a := hp0.hdr[a].(inUse := true)]);
    s := s0[k := s0[k].(used := true)];
    forall i, j | 0 <= i < j < |s| && j == i + 1 ensures s[i].used || s[j].used {
      if j < k { assert s0[..k][i].used || s0[..k][j].used; }
    }
    LiveTail(s, k);
    assert s[..k] == s0[..k];
  }

  lemma {:induction false} LiveTail(s: seq<Cell>, k: nat)
    requires |s| == k + 1 && s[k].used
    ensures Live(s) == Live(s[..k]) + {s[k]}
  {
    forall c ensures c in Live(s) <==> c in Live(s[..k]) || c == s[k] {
      if c in Live(s) {
        var i :| 0 <= i < |s| && s[i].used && s[i] == c;
        if i < k { assert s[..k][i] == c; }
      }
      if c in Live(s[..k]) {
        var i :| 0 <= i < k && s[..k][i].used && s[..k][i] == c;
        assert s[i] == c;
      }
    }
  }

  /** When kmalloc fails: nothing or too much is asked for, or no free block will do and the heap
      cannot grow. */
  ghost predicate NoRoom(hp: Heap, s: seq<Cell>, size: nat, frames: bool)
  {
    || size == 0 || Need(size) > 0x100000
    || (NoFit(s, |s|, Need(size)) && (!frames || hp.end + PageUp(Need(size) + 20) > hp.max))
  }

  /** A block of at least `n` bytes is in use: the first one that fits, cut to size, or a new one. */
  ghost predicate Obtained(hp0: Heap, s0: seq<Cell>, n: nat, hp: Heap, s: seq<Cell>, k: nat)
  {
    && k < |s| && s[k].used && s[k].size >= n && Live(s) == Live(s0) + {s[k]} && s[k] !in Live(s0)
    && if k < |s0| then Fits(s0[k], n) && NoFit(s0, k, n) && Taken(s0, k, n, s) && hp.end == hp0.end
      else k == |s0| && NoFit(s0, k, n) && Grown(s0, s) && Extended(hp0, hp, s[k], PageUp(n + 20))
  }

  /** kmalloc: NULL, or a block of the size needed that was not in use.  The heap stays tiled
      and coalesced, and every block in use stays where it is.  A size that leaves no room
      for a header cuts blocks within their headers. */
  method Alloc(hp0: Heap, size: nat, frames: bool, ghost s0: seq<Cell>)
    returns (p: Ptr, hp: Heap, ghost s: seq<Cell>, ghost k: nat)
    requires Valid(hp0, s0) && size < WORD && Need(size) >= HEADER
    ensures Valid(hp, s)
    ensures p == 0 ==> hp == hp0 && s == s0
    ensures p == 0 <==> NoRoom(hp0, s0, size, frames)
    ensures p != 0 ==> size > 0 && Obtained(hp0, s0, Need(size), hp, s, k) && p == s[k].addr + HEADER
    ensures p != 0 && size <= 0xFFFFFFE8 ==> s[k].size >= size + HEADER
  {
    NeedExact(size);
    p, hp, s, k := 0, hp0, s0, 0;
    if size != 0 {
      p, hp, s, k := Obtain(hp0, Need(size), frames, s0);
    }
  }

  /** kmalloc for a block of `n` bytes. */
  method Obtain(hp0: Heap, n: nat, frames: bool, ghost s0: seq<Cell>)
    returns (p: Ptr, hp: Heap, ghost s: seq<Cell>, ghost k: nat)
    requires Valid(hp0, s0) && n >= HEADER
    ensures Valid(hp, s) && (p == 0 ==> hp == hp0 && s == s0)
    ensures p == 0 <==>
      n > 0x100000 || (NoFit(s0, |s0|, n) && (!frames || hp0.end + PageUp(n + 20) > hp0.max))
    ensures p != 0 ==> Obtained(hp0, s0, n, hp, s, k) && p == s[k].addr + HEADER
  {
    if n > HEAP_MAX_SIZE {
      return 0, hp0, s0, 0;
    }
    var block;
    block, k := FirstFit(hp0.hdr, hp0.first, n, s0);
    if block != 0 {
      hp, s := TakeBlock(hp0, block, n, s0, k);
      return block + HEADER, hp, s, k;
    }
    p, hp, s := AllocAtEnd(hp0, n, frames, s0);
    k := |s0|;
  }

  /** The last part of kmalloc: the heap grows by a block, which is taken whole. */
  method AllocAtEnd(hp0: Heap, n: nat, frames: bool, ghost s0: seq<Cell>) returns (p: Ptr, hp: Heap, ghost s: seq<Cell>)
    requires Valid(hp0, s0)
    ensures Valid(hp, s) && (p == 0 <==> !frames || hp0.end + PageUp(n + 20) > hp0.max)
    ensures p == 0 ==> hp == hp0 && s == s0
    ensures p != 0 ==> Grown(s0, s) && p == hp0.end + HEADER && Extended(hp0, hp, s[|s0|], PageUp(n + 20))
    ensures p != 0 ==> Live(s) == Live(s0) + {s[|s0|]} && s[|s0|] !in Live(s0)
  {
    p := 0;
    var block;
    block, hp, s := ExpandHeap(hp0, n, frames, s0);
    if block != 0 {
      assert s[..|s0|] == s0;
      NotLive(s0, hp0.start, hp0.end, |s0|, block);
      hp, s := TakeLast(hp, block, s);
      GrownBy(s0, s);
      p := block + HEADER;
    }
  }

  /** The heap has grown by the block `c` of `size` bytes, which is in use. */
  ghost predicate Extended(hp0: Heap, hp: Heap, c: Cell, size: nat)
  {
    && c.addr == hp0.end && c.size == size && c.used
    && hp.end == hp0.end + size && hp.start == hp0.start && hp.max == hp0.max
  }

  /** One block in use more, behind all others. */
  ghost predicate Grown(s: seq<Cell>, r: seq<Cell>)
  {
    && |r| == |s| + 1 && r[..|s|] == s && r[|s|].used && FreeCells(r) == FreeCells(s)
    && Sum(r, false) == Sum(s, false) && Sum(r, true) == Sum(s, true) + r[|s|].size
  }

  lemma {:induction false} GrownBy(s: seq<Cell>, r: seq<Cell>)
    requires |r| == |s| + 1 && r[..|s|] == s && r[|s|].used
    ensures Grown(s, r)
  {
    forall c ensures c in FreeCells(r) <==> c in FreeCells(s) {
      if c in FreeCells(r) {
        var i :| 0 <= i < |r| && !r[i].used && r[i] == c;
        assert s[i] == c;
      }
      if c in FreeCells(s) {
        var i :| 0 <= i < |s| && !s[i].used && s[i] == c;
        assert r[i] == c;
      }
    }
  }

  /** A request near the top of the 32-bit range wraps and gets a block without room. */
  lemma {:induction false} NeedWraps()
    ensures Need(0xFFFFFFFF) == HEADER && Need(0xFFFFFFE9) < HEADER && Need(0xFFFFFFE8) > HEAP_MAX_SIZE
  {
  }

  /** No block, free or in use, overlaps payload or header of another. */
  lemma {:induction false} PayloadsApart(hp: Heap, s: seq<Cell>, a: Cell, b: Cell)
    requires Valid(hp, s) && a in s && b in s && a != b
    ensures a.addr + a.size <= b.addr || b.addr + b.size <= a.addr
    ensures hp.start <= a.addr && a.addr + a.size <= hp.end
  {
    var i :| 0 <= i < |s| && s[i] == a;
    var j :| 0 <= j < |s| && s[j] == b;
    if i < j { Apart(s, hp.start, hp.end, i, j); } else { Apart(s, hp.start, hp.end, j, i); }
    if i > 0 { Apart(s, hp.start, hp.end, 0, i); }
    if i < |s| - 1 { Apart(s, hp.start, hp.end, i, |s| - 1); }
  }

  /** Once everything has been freed, in whatever order, there is one free block. */
  lemma {:induction false} OneBlockLeft(hp: Heap, s: seq<Cell>)
    requires Valid(hp, s) && Live(s) == {} && hp.end > hp.start
    ensures s == [Cell(hp.start, hp.end - hp.start, false)]
  {
    forall i | 0 <= i < |s| ensures !s[i].used { assert s[i] !in Live(s); }
    if |s| > 1 { FirstTwo(s); }
  }

  /** The payload pointers of exactly the blocks in use, in any order and as often as you like:
      `ps[i]` is that of `cs[i]`. */
  ghost predicate Lists(ps: seq<Ptr>, cs: seq<Cell>, s: seq<Cell>)
  {
    && |ps| == |cs| && (forall i :: 0 <= i < |cs| ==> cs[i] in Live(s) && ps[i] == cs[i].addr + HEADER)
    && (forall c :: c in Live(s) ==> c in cs)
  }

  /** What is in use once the blocks `cs` have been freed. */
  ghost function StillLive(s: seq<Cell>, cs: seq<Cell>): set<Cell>
  {
    set c | c in Live(s) && c !in cs
  }

  ghost predicate Freeing(hp0: Heap, s0: seq<Cell>, done: seq<Cell>, hp: Heap, s: seq<Cell>)
  {
    && Valid(hp, s) && hp == hp0.(hdr := hp.hdr) && Live(s) == StillLive(s0, done)
    && forall c :: c in Live(s0) ==> c.addr in hp.hdr && (c in done ==> !InUse(hp, c.addr + HEADER))
  }

  /** Freeing everything that is in use, in any order and some of it twice, leaves one free block. */
  method FreeAll(hp0: Heap, ps: seq<Ptr>, ghost cs: seq<Cell>, ghost s0: seq<Cell>)
    returns (hp: Heap, ghost s: seq<Cell>)
    requires Valid(hp0, s0) && Lists(ps, cs, s0)
    ensures Valid(hp, s) && hp == hp0.(hdr := hp.hdr) && Live(s) == {}
    ensures hp0.start < hp0.end ==> s == [Cell(hp0.start, hp0.end - hp0.start, false)]
  {
    hp, s := hp0, s0;
    FreeingStarts(hp0, s0);
    var i: nat := 0;
    while i < |ps|
      invariant i <= |ps| && Freeing(hp0, s0, cs[..i], hp, s)
    {
      assert cs[..i + 1] == cs[..i] + [cs[i]];
      hp, s := FreeOne(hp, ps[i], hp0, s0, cs[..i], s, cs[i]);
      i := i + 1;
    }
    assert cs[..i] == cs;
    NoneLive(ps, cs, s0);
    if hp0.start < hp0.end { OneBlockLeft(hp, s); }
  }

  lemma {:induction false} NoneLive(ps: seq<Ptr>, cs: seq<Cell>, s: seq<Cell>)
    requires Lists(ps, cs, s)
    ensures StillLive(s, cs) == {}
  {
  }

  method FreeOne(hp1: Heap, p: Ptr, ghost hp0: Heap, ghost s0: seq<Cell>, ghost done: seq<Cell>,
                 ghost s1: seq<Cell>, ghost c: Cell)
    returns (hp: Heap, ghost s: seq<Cell>)
    requires Valid(hp0, s0) && Freeing(hp0, s0, done, hp1, s1) && c in Live(s0) && p == c.addr + HEADER
    ensures Freeing(hp0, s0, done + [c], hp, s)
  {
    ghost var k := BlockOf(hp0, s0, done, hp1, s1, c);
    hp, s := Kfree(hp1, p, s1, k);
    FreeingMore(hp0, s0, done, hp1, s1, c, hp, s);
  }

  lemma {:induction false} FreeingStarts(hp: Heap, s: seq<Cell>)
    requires Valid(hp, s)
    ensures Freeing(hp, s, [], hp, s)
  {
    forall c | c in Live(s) ensures c.addr in hp.hdr {
      var i :| 0 <= i < |s| && s[i] == c;
      assert Own(hp.hdr, s[i]);
    }
    assert StillLive(s, []) == Live(s);
  }

  /** The index of `c` among the blocks if it has not been freed. */
  lemma {:induction false} BlockOf(hp0: Heap, s0: seq<Cell>, done: seq<Cell>, hp: Heap, s: seq<Cell>, c: Cell)
    returns (k: nat)
    requires Freeing(hp0, s0, done, hp, s) && c in Live(s0)
    ensures Freeable(hp, s, c.addr + HEADER, k)
    ensures c !in done ==> k < |s| && s[k] == c && InUse(hp, c.addr + HEADER)
    ensures c in done ==> !InUse(hp, c.addr + HEADER)
  {
    k := 0;
    if c !in done {
      assert c in Live(s);
      k :| 0 <= k < |s| && s[k] == c;
      assert Own(hp.hdr, s[k]);
    }
  }

  lemma {:induction false} FreeingMore(hp0: Heap, s0: seq<Cell>, done: seq<Cell>, hp: Heap, s: seq<Cell>, c: Cell,
                                       hp': Heap, s': seq<Cell>)
    requires Valid(hp0, s0) && Freeing(hp0, s0, done, hp, s) && c in Live(s0) && Valid(hp', s')
    requires hp' == hp.(hdr := hp'.hdr) && SameTagsBut(hp.hdr, hp'.hdr, c.addr + HEADER)
    requires !InUse(hp', c.addr + HEADER) && Live(s') == if c in done then Live(s) else Live(s) - {c}
    ensures Freeing(hp0, s0, done + [c], hp', s')
  {
    forall d | d in Live(s0) && d.addr == c.addr ensures d == c { SameAddress(hp0, s0, c, d); }
    assert StillLive(s0, done + [c]) == if c in done then StillLive(s0, done) else StillLive(s0, done) - {c};
  }

  lemma {:induction false} SameAddress(hp: Heap, s: seq<Cell>, a: Cell, b: Cell)
    requires Valid(hp, s) && a in Live(s) && b in Live(s) && a.addr == b.addr
    ensures a == b
  {
    var i :| 0 <= i < |s| && s[i] == a;
    var j :| 0 <= j < |s| && s[j] == b;
    if i < j { Apart(s, hp.start, hp.end, i, j); } else if j < i { Apart(s, hp.start, hp.end, j, i); }
  }

  lemma {:induction false} FirstTwo(s: seq<Cell>)
    requires Coalesced(s) && |s| > 1
    ensures s[0].used || s[1].used
  {
  }

  /** The block is hardly larger than asked for, or what was left of a page at the end. */
  ghost predicate Snug(hp: Heap, c: Cell, size: nat)
  {
    c.size < size + 64 || (c.addr == hp.end && c.size < size + 4144)
  }

  /** kmalloc with the block it gives. */
  method AllocBlock(hp0: Heap, size: nat, frames: bool, ghost s0: seq<Cell>)
    returns (q: Ptr, hp: Heap, ghost s: seq<Cell>, ghost c: Cell)
    requires Valid(hp0, s0) && size <= 0xFFFFFFE8
    ensures Valid(hp, s) && (q == 0 ==> s == s0)
    ensures q != 0 ==>
      c.used && q == c.addr + HEADER && c.size >= size + HEADER && Live(s) == Live(s0) + {c} && c !in Live(s0)
    ensures (q == 0 <==> NoRoom(hp0, s0, size, frames)) && (q != 0 ==> Snug(hp0, c, size))
  {
    ghost var k;
    NeedExact(size);
    q, hp, s, k := Alloc(hp0, size, frames, s0);
    c := if q != 0 then s[k] else Cell(4, 0, false);
  }

  /** krealloc: the same block if it is large enough, otherwise a new one that replaces it;
      without memory the old block stays. */
  method Realloc(hp0: Heap, p: Ptr, size: nat, frames: bool, ghost s0: seq<Cell>, ghost k: nat)
    returns (q: Ptr, hp: Heap, ghost s: seq<Cell>, ghost c: Cell)
    requires Valid(hp0, s0) && size <= 0xFFFFFFE8 && (p != 0 ==> k < |s0| && s0[k].used && p == s0[k].addr + HEADER)
    ensures Valid(hp, s)
    ensures q == 0 ==> Live(s) == Live(s0) - (if p != 0 && size == 0 then {s0[k]} else {})
    ensures q != 0 ==> c.used && q == c.addr + HEADER && c.size >= size + HEADER && (q == p || Snug(hp0, c, size))
    ensures q != 0 ==> Live(s) == Live(s0) - (if p != 0 then {s0[k]} else {}) + {c}
    ensures p != 0 && 0 < size && size + HEADER <= s0[k].size ==> q == p && hp == hp0
    ensures q == 0 <==> size == 0 || ((p == 0 || s0[k].size < size + 20) && NoRoom(hp0, s0, size, frames))
  {
    if p == 0 {
      q, hp, s, c := AllocBlock(hp0, size, frames, s0);
      return;
    }
    q, c, hp, s := 0, s0[k], hp0, s0;
    if size == 0 {
      hp, s := Kfree(hp, p, s, k);
      return;
    }
    LiveOwned(hp0, s0, k);
    var oldSize := hp.hdr[p - HEADER].size - HEADER;
    if size <= oldSize {
      q := p;
      return;
    }
    q, hp, s, c := Replace(hp, p, size, frames, s, k);
  }

  lemma {:induction false} LiveOwned(hp: Heap, s: seq<Cell>, k: nat)
    requires Valid(hp, s) && k < |s| && s[k].used
    ensures s[k] in Live(s) && Live(s) - {s[k]} + {s[k]} == Live(s) && s[k].addr in hp.hdr
      && hp.hdr[s[k].addr].size == s[k].size >= HEADER
  {
    assert Own(hp.hdr, s[k]);
  }

  /** The last part of krealloc: a larger block, and then the old one is freed. */
  method Replace(hp0: Heap, p: Ptr, size: nat, frames: bool, ghost s0: seq<Cell>, ghost k: nat)
    returns (q: Ptr, hp: Heap, ghost s: seq<Cell>, ghost c: Cell)
    requires Valid(hp0, s0) && size <= 0xFFFFFFE8 && k < |s0| && s0[k].used && p == s0[k].addr + HEADER
      && s0[k].size < size + HEADER
    ensures Valid(hp, s)
    ensures q == 0 ==> s == s0
    ensures q != 0 ==> c.used && q == c.addr + HEADER && c.size >= size + HEADER && Live(s) == Live(s0) - {s0[k]} + {c}
    ensures (q == 0 <==> NoRoom(hp0, s0, size, frames)) && (q != 0 ==> Snug(hp0, c, size))
  {
    q, hp, s, c := AllocBlock(hp0, size, frames, s0);
    if q != 0 {
      LiveOwned(hp0, s0, k);
      ghost var i := IndexOf(s, s0[k]);
      hp, s := Kfree(hp, p, s, i);
    }
  }

  lemma {:induction false} IndexOf(s: seq<Cell>, c: Cell) returns (i: nat)
    requires c in Live(s)
    ensures i < |s| && s[i] == c && s[i].used
  {
    i :| 0 <= i < |s| && s[i].used && s[i] == c;
  }

  // ----- looking at the heap -----

  datatype Stats = Stats(total: nat, used: nat, free: nat, blocks: nat, freeBlocks: nat)

  ghost function Sum(s: seq<Cell>, used: bool): nat
  {
    if s == [] then 0 else Sum(s[..|s| - 1], used) + if s[|s| - 1].used == used then s[|s| - 1].size else 0
  }

  ghost function FreeCount(s: seq<Cell>): nat
  {
    if s == [] then 0 else FreeCount(s[..|s| - 1]) + if s[|s| - 1].used then 0 else 1
  }

  /** Used and free bytes make up the heap. */
  lemma {:induction false} Conservation(s: seq<Cell>, start: nat, end: nat)
    requires Tiled(s, start, end)
    ensures Sum(s, true) + Sum(s, false) + start == end
  {
    if s != [] {
      var t := s[..|s| - 1];
      var mid := s[|s| - 1].addr;
      if t != [] { assert t[|t| - 1].addr + t[|t| - 1].size == mid; }
      assert forall i :: 0 <= i < |t| ==> t[i] == s[i];
      Conservation(t, start, mid);
    }
  }

  /** kmalloc_get_stats */
  method GetStats(hp: Heap, ghost s: seq<Cell>) returns (st: Stats)
    requires Valid(hp, s)
    ensures st.blocks == |s| && st.freeBlocks == FreeCount(s) && st.used == Sum(s, true) && st.free == Sum(s, false)
    ensures st.total == st.used + st.free == hp.end - hp.start
  {
    Conservation(s, hp.start, hp.end);
    st := Stats(hp.end - hp.start, 0, 0, 0, 0);
    var block := hp.first;
    ghost var i: nat := 0;
    while block != 0
      invariant i <= |s| && block == AddrAt(s, i) && st.blocks == i && st.freeBlocks == FreeCount(s[..i])
        && st.total == hp.end - hp.start
      invariant st.used == Sum(s[..i], true) && st.free == Sum(s[..i], false)
      decreases |s| - i
    {
      Neighbours(hp.hdr, hp.first, s, i);
      assert Own(hp.hdr, s[i]) && s[..i + 1][..i] == s[..i];
      st := st.(blocks := st.blocks + 1);
      if hp.hdr[block].inUse {
        st := st.(used := st.used + hp.hdr[block].size);
      } else {
        st := st.(free := st.free + hp.hdr[block].size, freeBlocks := st.freeBlocks + 1);
      }
      block := hp.hdr[block].next;
      i := i + 1;
    }
    assert s[..i] == s;
  }

  /** kmalloc_verify_heap finds nothing wrong, unless there are more than 10000 blocks. */
  method VerifyHeap(hp: Heap, ghost s: seq<Cell>) returns (ok: bool)
    requires Valid(hp, s)
    ensures ok <==> |s| <= 10000
  {
    var count := 0;
    var block := hp.first;
    ghost var i: nat := 0;
    while block != 0
      invariant i <= |s| && block == AddrAt(s, i) && count == i <= 10000
      decreases |s| - i
    {
      Neighbours(hp.hdr, hp.first, s, i);
      assert Own(hp.hdr, s[i]);
      if hp.hdr[block].magic != HEAP_MAGIC || hp.hdr[block].size < HEADER {
        return false;
      }
      if hp.hdr[block].next != 0 {
        var next: Addr := hp.hdr[block].next;
        Neighbours(hp.hdr, hp.first, s, i + 1);
        if hp.hdr[next].prev != block {
          return false;
        }
      }
      count := count + 1;
      if count > 10000 {
        return false;
      }
      block := hp.hdr[block].next;
      i := i + 1;
    }
    return true;
  }
}

/** include/list.h: circular doubly linked lists whose links are embedded in the listed
    objects.  Memory is a map from addresses to links; a list is its head and the sequence
    of addresses met from there, which stay apart from each other and from the head.
 */
module LinkedList {

  import opened Machine
  import opened Sequences

  /** struct list_head */
  datatype Link = Link(next: Ptr, prev: Ptr)

  type Links = map<Addr, Link>

  /** The element at `i`, or the head beyond either end. */
  ghost function At(s: seq<Addr>, i: int, head: Addr): Addr
  {
    if 0 <= i < |s| then s[i] else head
  }

  ghost predicate Joined(h: Links, a: Addr, b: Addr)
  {
    a in h && b in h && h[a].next == b && h[b].prev == a
  }

  /** From `head` the links visit exactly `s` and come back, in both directions. */
  ghost predicate Ring(h: Links, head: Addr, s: seq<Addr>)
  {
    && NoRepeats(s) && head !in s
    && Joined(h, head, At(s, 0, head)) && Joined(h, At(s, |s| - 1, head), head)
    && forall i, j :: 0 <= i < j < |s| && j == i + 1 ==> Joined(h, s[i], s[j])
  }

  lemma {:induction false} Neighbours(h: Links, head: Addr, s: seq<Addr>, k: nat)
    requires Ring(h, head, s) && k <= |s|
    ensures Joined(h, At(s, k - 1, head), At(s, k, head))
  {
    if 0 < k < |s| {
      assert Joined(h, s[k - 1], s[k]);
    }
  }

  /** Only links of the list have been written. */
  ghost predicate Untouched(h: Links, h': Links, head: Addr, s: seq<Addr>)
  {
    h.Keys <= h'.Keys && forall x :: x in h && x !in s && x != head ==> h'[x] == h[x]
  }

  ghost function Inserted(s: seq<Addr>, k: nat, n: Addr): seq<Addr>
    requires k <= |s|
  {
    s[..k] + [n] + s[k..]
  }

  ghost predicate IsInserted(r: seq<Addr>, s: seq<Addr>, k: nat, n: Addr)
  {
    && |r| == |s| + 1 && k <= |s| && r[k] == n
    && (forall i {:trigger r[i]} :: 0 <= i < k ==> r[i] == s[i]) && (forall i :: k < i < |r| ==> r[i] == s[i - 1])
  }

  lemma {:induction false} InsertedIs(s: seq<Addr>, k: nat, n: Addr)
    requires k <= |s|
    ensures IsInserted(Inserted(s, k, n), s, k, n)
  {
  }

  /** INIT_LIST_HEAD */
  method InitListHead(h0: Links, head: Addr) returns (h: Links)
    ensures Ring(h, head, []) && h.Keys == h0.Keys + {head} && forall x :: x in h0 && x != head ==> h[x] == h0[x]
  {
    h := h0[head := Link(head, head)];
  }

  /** The effect of __list_add on the links. */
  ghost predicate Spliced(h0: Links, h: Links, n: Addr, prev: Addr, next: Addr)
  {
    && h.Keys == h0.Keys + {n} && h[n] == Link(next, prev)
    && forall x :: x in h0 && x != n ==>
      h[x] == Link(if x == prev then n else h0[x].next, if x == next then n else h0[x].prev)
  }

  lemma {:induction false} SplicedRing(h0: Links, h: Links, n: Addr, prev: Addr, next: Addr, head: Addr, s: seq<Addr>,
                                       k: nat, r: seq<Addr>)
    requires Ring(h0, head, s) && k <= |s| && n !in s && n != head && Spliced(h0, h, n, prev, next)
    requires prev == At(s, k - 1, head) && next == At(s, k, head) && IsInserted(r, s, k, n)
    ensures Ring(h, head, r)
  {
  }

  /** __list_add: between two neighbours. */
  method AddBetween(h0: Links, n: Addr, prev: Addr, next: Addr, ghost head: Addr, ghost s: seq<Addr>, ghost k: nat)
    returns (h: Links)
    requires Ring(h0, head, s) && k <= |s| && n !in s && n != head
    requires prev == At(s, k - 1, head) && next == At(s, k, head)
    ensures Ring(h, head, Inserted(s, k, n)) && h.Keys == h0.Keys + {n} && Untouched(h0, h, head, Inserted(s, k, n))
  {
    h := h0[next := h0[next].(prev := n)];
    h := h[n := Link(next, prev)];
    h := h[prev := h[prev].(next := n)];
    assert IsInserted(Inserted(s, k, n), s, k, n);
    SplicedRing(h0, h, n, prev, next, head, s, k, Inserted(s, k, n));
  }

  /** list_add: right after the head. */
  method ListAdd(h0: Links, n: Addr, head: Addr, ghost s: seq<Addr>) returns (h: Links)
    requires Ring(h0, head, s) && n !in s && n != head
    ensures Ring(h, head, [n] + s) && h.Keys == h0.Keys + {n} && Untouched(h0, h, head, [n] + s)
  {
    h := AddBetween(h0, n, head, h0[head].next, head, s, 0);
    assert Inserted(s, 0, n) == [n] + s;
  }

  /** list_add_tail: right before `at`, which is the head or the element at `k`. */
  method ListAddTail(h0: Links, n: Addr, at: Addr, ghost head: Addr, ghost s: seq<Addr>, ghost k: nat)
    returns (h: Links)
    requires Ring(h0, head, s) && n !in s && n != head && k <= |s| && at == At(s, k, head)
    ensures Ring(h, head, Inserted(s, k, n)) && h.Keys == h0.Keys + {n} && Untouched(h0, h, head, Inserted(s, k, n))
  {
    Neighbours(h0, head, s, k);
    h := AddBetween(h0, n, h0[at].prev, at, head, s, k);
  }

  /** The effect of list_del on the links. */
  ghost predicate Unspliced(h0: Links, h: Links, n: Addr)
  {
    && h.Keys == h0.Keys && n in h0 && h[n] == Link(0, 0)
    && forall x :: x in h0 && x != n ==>
      h[x] == Link(if x == h0[n].prev then h0[n].next else h0[x].next,
        if x == h0[n].next then h0[n].prev else h0[x].prev)
  }

  lemma {:induction false} UnsplicedRing(h0: Links, h: Links, n: Addr, head: Addr, s: seq<Addr>, k: nat, r: seq<Addr>)
    requires Ring(h0, head, s) && k < |s| && s[k] == n && Unspliced(h0, h, n) && IsRemoveAt(r, s, k)
    ensures Ring(h, head, r)
  {
    Neighbours(h0, head, s, k);
    Neighbours(h0, head, s, k + 1);
  }

  /** list_del: the element's own links end up null. */
  method ListDel(h0: Links, n: Addr, ghost head: Addr, ghost s: seq<Addr>, ghost k: nat) returns (h: Links)
    requires Ring(h0, head, s) && k < |s| && s[k] == n
    ensures Ring(h, head, RemoveAt(s, k)) && h.Keys == h0.Keys && Untouched(h0, h, head, s) && n in h
      && h[n] == Link(0, 0)
  {
    Neighbours(h0, head, s, k);
    Neighbours(h0, head, s, k + 1);
    var prev, next := h0[n].prev, h0[n].next;
    h := h0[next := h0[next].(prev := prev)];
    h := h[prev := h[prev].(next := next)];
    h := h[n := Link(0, 0)];
    assert IsRemoveAt(RemoveAt(s, k), s, k);
    UnsplicedRing(h0, h, n, head, s, k, RemoveAt(s, k));
  }

  // ----- two lists in one memory -----

  ghost predicate Disjoint(a: Addr, s: seq<Addr>, b: Addr, t: seq<Addr>)
  {
    a != b && a !in t && b !in s && forall x :: x in s ==> x !in t
  }

  /** Nothing outside the two lists has been written. */
  ghost predicate Outside(h: Links, h': Links, a: Addr, s: seq<Addr>, b: Addr, t: seq<Addr>)
  {
    h.Keys <= h'.Keys && forall x :: x in h && x !in s && x !in t && x != a && x != b ==> h'[x] == h[x]
  }

  lemma {:induction false} Swapped(h: Links, h': Links, a: Addr, s: seq<Addr>, b: Addr, t: seq<Addr>)
    requires Outside(h, h', a, s, b, t)
    ensures Outside(h, h', b, t, a, s)
  {
  }

  lemma {:induction false} DisjointSwapped(a: Addr, s: seq<Addr>, b: Addr, t: seq<Addr>)
    requires Disjoint(a, s, b, t)
    ensures Disjoint(b, t, a, s)
  {
  }

  lemma {:induction false} OtherRing(h: Links, h': Links, head: Addr, s: seq<Addr>)
    requires Ring(h, head, s) && head in h' && h'[head] == h[head]
      && forall x :: x in s && x in h ==> x in h' && h'[x] == h[x]
    ensures Ring(h', head, s)
  {
    forall i, j | 0 <= i < j < |s| && j == i + 1 ensures Joined(h', s[i], s[j]) {
      assert s[i] in s && s[j] in s;
      assert Joined(h, s[i], s[j]);
    }
    if s != [] { assert s[0] in s && s[|s| - 1] in s; }
  }

  lemma {:induction false} RemovedMembers(s: seq<Addr>, k: nat)
    requires NoRepeats(s) && k < |s|
    ensures s[k] !in RemoveAt(s, k) && (forall x :: x in RemoveAt(s, k) <==> x in s && x != s[k])
    ensures multiset(s) == multiset(RemoveAt(s, k)) + multiset{s[k]}
  {
    var r := RemoveAt(s, k);
    forall i | 0 <= i < |r| ensures r[i] in s && r[i] != s[k] { assert r[i] == if i < k then s[i] else s[i + 1]; }
    forall x | x in s && x != s[k] ensures x in r {
      var i :| 0 <= i < |s| && s[i] == x;
      assert x == if i < k then r[i] else r[i - 1];
    }
    assert s == s[..k] + [s[k]] + s[k + 1..];
  }

  /** list_del and list_add on the same list. */
  method MoveToFront(h0: Links, n: Addr, head: Addr, ghost s: seq<Addr>, ghost k: nat) returns (h: Links)
    requires Ring(h0, head, s) && k < |s| && s[k] == n
    ensures Ring(h, head, [n] + RemoveAt(s, k)) && h.Keys == h0.Keys && Untouched(h0, h, head, s)
  {
    RemovedMembers(s, k);
    h := ListDel(h0, n, head, s, k);
    h := ListAdd(h, n, head, RemoveAt(s, k));
  }

  /** list_del from the list at `a` and list_add to the one at `b`. */
  method Transfer(h0: Links, n: Addr, ghost a: Addr, b: Addr, ghost s: seq<Addr>, ghost k: nat, ghost t: seq<Addr>)
    returns (h: Links)
    requires Ring(h0, a, s) && Ring(h0, b, t) && Disjoint(a, s, b, t) && k < |s| && s[k] == n
    ensures Ring(h, a, RemoveAt(s, k)) && Ring(h, b, [n] + t) && Disjoint(a, RemoveAt(s, k), b, [n] + t)
    ensures h.Keys == h0.Keys && Outside(h0, h, a, s, b, t)
  {
    RemovedMembers(s, k);
    h := ListDel(h0, n, a, s, k);
    OtherRing(h0, h, b, t);
    ghost var h1 := h;
    h := ListAdd(h, n, b, t);
    OtherRing(h1, h, a, RemoveAt(s, k));
  }
}

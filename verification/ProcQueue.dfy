/** The ready queues of the priority and the multi-level feedback scheduler: doubly linked
    lists through the next and prev pointers of the processes, ended by NULL, each with a
    head, a tail and a count.  A process is in at most one of the queues.
 */
module ProcQueue {
  import opened Machine
  import opened Sequences

  datatype Link = Link(next: Ptr, prev: Ptr)

  type Links = map<Addr, Link>

  /** struct priority_queue, struct mlfq_queue */
  datatype Queue = Queue(head: Ptr, tail: Ptr, count: nat)

  ghost function At(s: seq<Addr>, i: int): Ptr
  {
    if 0 <= i < |s| then s[i] else 0
  }

  ghost predicate Joined(h: Links, a: Addr, b: Addr)
  {
    a in h && b in h && h[a].next == b && h[b].prev == a
  }

  /** The queue holds exactly `s`, in this order. */
  ghost predicate Listed(h: Links, q: Queue, s: seq<Addr>)
  {
    && NoRepeats(s) && (forall i :: 0 <= i < |s| ==> s[i] in h)
    && (forall i, j :: 0 <= i < j < |s| && j == i + 1 ==> Joined(h, s[i], s[j]))
    && q == Queue(At(s, 0), At(s, |s| - 1), |s|)
    && (s != [] ==> h[s[0]].prev == 0 && h[s[|s| - 1]].next == 0)
  }

  lemma {:induction false} Neighbours(h: Links, q: Queue, s: seq<Addr>, k: nat)
    requires Listed(h, q, s) && k < |s|
    ensures s[k] in h && h[s[k]] == Link(At(s, k + 1), At(s, k - 1))
  {
    if k + 1 < |s| { assert Joined(h, s[k], s[k + 1]); }
    if k > 0 { assert Joined(h, s[k - 1], s[k]); }
  }

  /** The queues hold `qs`, and no process is in two of them. */
  ghost predicate Queued(h: Links, queues: seq<Queue>, qs: seq<seq<Addr>>)
  {
    && |queues| == |qs| && (forall i :: 0 <= i < |qs| ==> Listed(h, queues[i], qs[i]))
    && (forall i, j, x :: 0 <= i < j < |qs| && x in qs[i] ==> x !in qs[j])
  }

  ghost predicate Nowhere(qs: seq<seq<Addr>>, p: Addr)
  {
    forall i :: 0 <= i < |qs| ==> p !in qs[i]
  }

  /** Only links of `s` and of `p` have been written. */
  ghost predicate Kept(h: Links, h': Links, s: seq<Addr>, p: Addr)
  {
    h.Keys <= h'.Keys && forall x :: x in h && x !in s && x != p ==> h'[x] == h[x]
  }

  lemma {:induction false} OtherQueue(h: Links, h': Links, q: Queue, s: seq<Addr>, t: seq<Addr>, p: Addr)
    requires Listed(h, q, t) && Kept(h, h', s, p) && p !in t && forall x :: x in t ==> x !in s
    ensures Listed(h', q, t)
  {
    forall i | 0 <= i < |t| ensures h'[t[i]] == h[t[i]] { assert t[i] in t; }
    forall i, j | 0 <= i < j < |t| && j == i + 1 ensures Joined(h', t[i], t[j]) { assert Joined(h, t[i], t[j]); }
  }

  // ----- joining at the tail -----

  ghost predicate Pushed(h: Links, h': Links, tail: Ptr, p: Addr)
  {
    && h'.Keys == h.Keys + {p} && h'[p] == Link(0, tail)
    && forall x :: x in h && x != p ==> h'[x] == if x == tail then h[x].(next := p) else h[x]
  }

  lemma {:induction false} PushedList(h: Links, h': Links, q: Queue, s: seq<Addr>, p: Addr)
    requires Listed(h, q, s) && p !in s && Pushed(h, h', q.tail, p)
    ensures Listed(h', Queue(if s == [] then p else q.head, p, q.count + 1), s + [p]) && Kept(h, h', s, p)
  {
    var r := s + [p];
    forall i, j | 0 <= i < j < |r| && j == i + 1 ensures Joined(h', r[i], r[j]) {
      if j < |s| { assert Joined(h, s[i], s[j]); }
    }
    if s != [] { assert s[|s| - 1] in s; }
  }

  /** The tail insertion of priority_enqueue and mlfq_enqueue. */
  method Push(h0: Links, queues0: seq<Queue>, k: nat, p: Addr, ghost qs: seq<seq<Addr>>)
    returns (h: Links, queues: seq<Queue>)
    requires Queued(h0, queues0, qs) && k < |qs| && Nowhere(qs, p)
    ensures Queued(h, queues, qs[k := qs[k] + [p]]) && h.Keys == h0.Keys + {p}
  {
    var q := queues0[k];
    assert Listed(h0, q, qs[k]);
    h := h0[p := Link(0, q.tail)];
    if q.tail != 0 {
      TailKnown(h0, q, qs[k]);
      var tail: Addr := q.tail;
      h := h[tail := h[tail].(next := p)];
    } else {
      q := q.(head := p);
    }
    q := q.(tail := p, count := q.count + 1);
    queues := queues0[k := q];
    PushedList(h0, h, queues0[k], qs[k], p);
    Replaced(h0, queues0, qs, h, q, qs[k] + [p], k, p);
  }

  lemma {:induction false} TailKnown(h: Links, q: Queue, s: seq<Addr>)
    requires Listed(h, q, s)
    ensures q.tail != 0 ==> s != [] && q.tail in h && q.tail in s
  {
  }

  /** One queue has changed around `p`; the others are as they were. */
  lemma {:induction false} Replaced(h: Links, queues: seq<Queue>, qs: seq<seq<Addr>>, h': Links, q: Queue,
                                    s: seq<Addr>, k: nat, p: Addr)
    requires Queued(h, queues, qs) && k < |qs| && Listed(h', q, s) && Kept(h, h', qs[k], p)
    requires forall x :: x in s ==> x in qs[k] || x == p
    requires forall i :: 0 <= i < |qs| && i != k ==> p !in qs[i]
    ensures Queued(h', queues[k := q], qs[k := s])
  {
    forall i | 0 <= i < |qs| && i != k ensures Listed(h', queues[i], qs[i]) {
      assert Listed(h, queues[i], qs[i]);
      forall x | x in qs[i] ensures x !in qs[k] { }
      OtherQueue(h, h', queues[i], qs[k], qs[i], p);
    }
  }

  // ----- leaving from anywhere -----

  ghost predicate Pulled(h: Links, h': Links, p: Addr)
  {
    && p in h && h'.Keys == h.Keys && h'[p] == Link(0, 0)
    && forall x :: x in h && x != p ==>
      h'[x] == Link(if x == h[p].prev then h[p].next else h[x].next, if x == h[p].next then h[p].prev else h[x].prev)
  }

  lemma {:induction false} PulledList(h: Links, h': Links, q: Queue, s: seq<Addr>, k: nat, r: seq<Addr>)
    requires Listed(h, q, s) && k < |s| && Pulled(h, h', s[k]) && IsRemoveAt(r, s, k)
    ensures Listed(h', Queue(if k == 0 then h[s[k]].next else q.head,
      if k == |s| - 1 then h[s[k]].prev else q.tail, q.count - 1), r)
    ensures Kept(h, h', s, s[k]) && forall x :: x in r ==> x in s && x != s[k]
  {
    Neighbours(h, q, s, k);
    forall i, j | 0 <= i < j < |r| && j == i + 1 ensures Joined(h', r[i], r[j]) {
      if j < k { assert Joined(h, s[i], s[j]); } else if i >= k { assert Joined(h, s[i + 1], s[j + 1]); }
    }
    if k > 0 { assert s[k - 1] in s; }
    if k + 1 < |s| { assert s[k + 1] in s; }
    forall x | x in r ensures x in s && x != s[k] {
      var i :| 0 <= i < |r| && r[i] == x;
      assert x == if i < k then s[i] else s[i + 1];
    }
  }

  /** The unlinking of priority_dequeue and mlfq_dequeue. */
  method Pull(h0: Links, queues0: seq<Queue>, k: nat, p: Addr, ghost qs: seq<seq<Addr>>, ghost n: nat)
    returns (h: Links, queues: seq<Queue>)
    requires Queued(h0, queues0, qs) && k < |qs| && n < |qs[k]| && qs[k][n] == p
    ensures Queued(h, queues, qs[k := RemoveAt(qs[k], n)]) && h.Keys == h0.Keys && queues[k].count == |qs[k]| - 1
  {
    var q := queues0[k];
    ghost var s := qs[k];
    assert Listed(h0, q, s);
    Neighbours(h0, q, s, n);
    h := h0;
    if h[p].prev != 0 {
      var prev: Addr := h[p].prev;
      h := h[prev := h[prev].(next := h[p].next)];
    } else {
      q := q.(head := h[p].next);
    }
    if h[p].next != 0 {
      var next: Addr := h[p].next;
      h := h[next := h[next].(prev := h[p].prev)];
    } else {
      q := q.(tail := h[p].prev);
    }
    h := h[p := Link(0, 0)];
    if q.count > 0 {
      q := q.(count := q.count - 1);
    }
    queues := queues0[k := q];
    PulledList(h0, h, queues0[k], s, n, RemoveAt(s, n));
    Replaced(h0, queues0, qs, h, q, RemoveAt(s, n), k, p);
  }

  /** A process that has left its queue is in none. */
  lemma {:induction false} Gone(h: Links, queues: seq<Queue>, qs: seq<seq<Addr>>, k: nat, n: nat)
    requires Queued(h, queues, qs) && k < |qs| && n < |qs[k]|
    ensures Nowhere(qs[k := RemoveAt(qs[k], n)], qs[k][n]) && forall x :: x in RemoveAt(qs[k], n) ==> x in qs[k]
  {
    var s, p := qs[k], qs[k][n];
    assert Listed(h, queues[k], s);
    forall i | 0 <= i < |qs| && i != k ensures p !in qs[i] {
      assert p in qs[k];
    }
    var r := RemoveAt(s, n);
    forall i | 0 <= i < |r| ensures r[i] != p && r[i] in s {
      assert r[i] == if i < n then s[i] else s[i + 1];
    }
  }

  // ----- how many -----

  ghost function Total(qs: seq<seq<Addr>>): nat
  {
    if qs == [] then 0 else |qs[0]| + Total(qs[1..])
  }

  lemma {:induction false} TotalChanges(qs: seq<seq<Addr>>, k: nat, s: seq<Addr>)
    requires k < |qs|
    ensures Total(qs[k := s]) + |qs[k]| == Total(qs) + |s|
  {
    if k == 0 {
      assert qs[k := s][1..] == qs[1..];
    } else {
      TotalChanges(qs[1..], k - 1, s);
      assert qs[k := s][1..] == qs[1..][k - 1 := s];
    }
  }

  lemma {:induction false} NoneQueued(qs: seq<seq<Addr>>)
    requires forall i :: 0 <= i < |qs| ==> qs[i] == []
    ensures Total(qs) == 0
  {
    if qs != [] { NoneQueued(qs[1..]); }
  }

  /** The loop of priority_scheduler_init and mlfq_init: `n` empty queues. */
  method EmptyQueues(n: nat) returns (queues: seq<Queue>, ghost qs: seq<seq<Addr>>)
    ensures Queued(map[], queues, qs) && |qs| == n && Total(qs) == 0 && forall i :: 0 <= i < n ==> qs[i] == []
  {
    queues, qs := [], [];
    while |queues| < n
      invariant |queues| == |qs| <= n && forall i :: 0 <= i < |qs| ==> qs[i] == [] && queues[i] == Queue(0, 0, 0)
    {
      queues, qs := queues + [Queue(0, 0, 0)], qs + [[]];
    }
    NoneQueued(qs);
  }
}

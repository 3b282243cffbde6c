/** kernel/process/mlfq_sched.c: the multi-level feedback queue.  A process is enqueued only
    when it is in no queue and dequeued only from the level it names, as the scheduler does;
    the time is a parameter.
 */
module Mlfq {
  import opened Machine
  import opened Sequences
  import opened ProcQueue

  const LEVELS: nat := 5
  const BASE_QUANTUM: nat := 100
  const BOOST_INTERVAL: nat := 1000

  datatype State = Ready | Running | Blocked | Terminated

  /** The scheduling fields of a process. */
  datatype Proc = Proc(level: int, state: State, slice: nat, remaining: nat, used: nat)

  datatype Mlfq = Mlfq(links: Links, queues: seq<Queue>, procs: map<Addr, Proc>, total: nat, boostTime: nat,
                       boostCount: nat, changes: seq<nat>)

  /** Time slices double from level to level. */
  function Quantum(level: nat): nat
  {
    if level == 0 then BASE_QUANTUM else 2 * Quantum(level - 1)
  }

  ghost predicate AtHome(procs: map<Addr, Proc>, qs: seq<seq<Addr>>)
  {
    forall i, p :: 0 <= i < |qs| && p in qs[i] ==> p in procs && procs[p].level == i
  }

  /** Every queued process is in the queue of its level, and the counts are right. */
  ghost predicate Valid(m: Mlfq, qs: seq<seq<Addr>>)
  {
    && |qs| == LEVELS == |m.changes| && Queued(m.links, m.queues, qs) && AtHome(m.procs, qs) && m.total == Total(qs)
  }

  /** mlfq_init: nobody is queued. */
  method Init(procs: map<Addr, Proc>, now: nat) returns (m: Mlfq, ghost qs: seq<seq<Addr>>)
    ensures Valid(m, qs) && m.procs == procs && forall i :: 0 <= i < LEVELS ==> qs[i] == []
  {
    var queues;
    queues, qs := EmptyQueues(LEVELS);
    m := Mlfq(map[], queues, procs, 0, now, 0, [0, 0, 0, 0, 0]);
  }

  function Clamp(level: int): nat
  {
    if level < 0 then 0 else if level >= LEVELS then LEVELS - 1 else level
  }

  /** A process gets a full time slice when it is enqueued. */
  function Refilled(pr: Proc, level: nat): Proc
  {
    pr.(level := level, slice := Quantum(level), remaining := Quantum(level), used := 0)
  }

  /** `b` is `a` with a full slice of 100 ticks doubled once per level, none of it used; levels 0 to 4 are
      kept and others are pulled in. */
  ghost predicate FullSlice(a: Proc, b: Proc)
  {
    && (if a.level < 0 then b.level == 0 else if a.level <= 4 then b.level == a.level else b.level == 4)
    && b.slice == b.remaining == [100, 200, 400, 800, 1600][b.level] && b.used == 0 && b.state == a.state
  }

  lemma {:induction false} RefilledIs(pr: Proc)
    ensures FullSlice(pr, Refilled(pr, Clamp(pr.level)))
  {
    assert Quantum(1) == 200;
    assert Quantum(2) == 400;
    assert Quantum(3) == 800;
    assert Quantum(4) == 1600;
  }

  /** mlfq_enqueue: to the tail of the queue of its level, out-of-range levels being pulled in. */
  method Enqueue(m0: Mlfq, p: Ptr, ghost qs0: seq<seq<Addr>>) returns (m: Mlfq, ghost qs: seq<seq<Addr>>)
    requires Valid(m0, qs0) && (p != 0 ==> p in m0.procs && Nowhere(qs0, p))
    ensures Valid(m, qs)
    ensures p == 0 ==> m == m0 && qs == qs0
    ensures p != 0 ==>
      var l := Clamp(m0.procs[p].level);
      && qs == qs0[l := qs0[l] + [p as Addr]]
      && m == m0.(links := m.links, queues := m.queues, procs := m0.procs[p := Refilled(m0.procs[p], l)],
                  total := m0.total + 1)
    ensures p != 0 ==> p in m.procs && FullSlice(m0.procs[p], m.procs[p])
  {
    m, qs := m0, qs0;
    if p != 0 {
      RefilledIs(m.procs[p]);
      var level := Clamp(m.procs[p].level);
      var links, queues := Push(m.links, m.queues, level, p, qs);
      var procs := m.procs[p := Refilled(m.procs[p], level)];
      TotalChanges(qs, level, qs[level] + [p as Addr]);
      qs := qs[level := qs[level] + [p as Addr]];
      m := m.(links := links, queues := queues, procs := procs, total := m.total + 1);
    }
  }

  /** mlfq_dequeue: this process leaves, all others keep their places. */
  method Dequeue(m0: Mlfq, p: Ptr, ghost qs0: seq<seq<Addr>>, ghost n: nat) returns (m: Mlfq, ghost qs: seq<seq<Addr>>)
    requires Valid(m0, qs0) && (p != 0 ==> p in m0.procs)
    requires p != 0 && 0 <= m0.procs[p].level < LEVELS ==>
      n < |qs0[m0.procs[p].level]| && qs0[m0.procs[p].level][n] == p
    ensures Valid(m, qs)
    ensures p == 0 || !(0 <= m0.procs[p].level < LEVELS) ==> m == m0 && qs == qs0
    ensures p != 0 && 0 <= m0.procs[p].level < LEVELS ==>
      var l := m0.procs[p].level;
      && qs == qs0[l := RemoveAt(qs0[l], n)] && Nowhere(qs, p)
      && m0.total > 0 && m == m0.(links := m.links, queues := m.queues, total := m0.total - 1)
  {
    m, qs := m0, qs0;
    if p != 0 {
      var level := m.procs[p].level;
      if level < 0 || level >= LEVELS {
        return;
      }
      TotalChanges(qs, level, RemoveAt(qs[level], n));
      Gone(m.links, m.queues, qs, level, n);
      var links, queues := Pull(m.links, m.queues, level, p, qs, n);
      FewerAtHome(m.procs, qs, level, n);
      qs := qs[level := RemoveAt(qs[level], n)];
      m := m.(links := links, queues := queues);
      if m.total > 0 {
        m := m.(total := m.total - 1);
      }
    }
  }

  lemma {:induction false} FewerAtHome(procs: map<Addr, Proc>, qs: seq<seq<Addr>>, l: nat, n: nat)
    requires AtHome(procs, qs) && l < |qs| && n < |qs[l]|
    ensures AtHome(procs, qs[l := RemoveAt(qs[l], n)])
  {
    forall p | p in RemoveAt(qs[l], n) ensures p in qs[l] {
    }
  }

  // ----- picking -----

  predicate Runnable(pr: Proc)
  {
    pr.state.Ready? || pr.state.Running?
  }

  /** `p` is the first runnable process of `s`; NULL if there is none. */
  ghost predicate FirstRunnable(procs: map<Addr, Proc>, s: seq<Addr>, p: Ptr)
    requires forall x :: x in s ==> x in procs
  {
    if p == 0 then forall x :: x in s ==> !Runnable(procs[x])
    else exists n :: && 0 <= n < |s| && s[n] == p && Runnable(procs[p])
                     && forall i :: 0 <= i < n ==> !Runnable(procs[s[i]])
  }

  /** The walk along one queue. */
  method PickInQueue(m: Mlfq, level: nat, ghost qs: seq<seq<Addr>>) returns (p: Ptr)
    requires Valid(m, qs) && level < LEVELS
    ensures (forall x :: x in qs[level] ==> x in m.procs) && FirstRunnable(m.procs, qs[level], p)
  {
    ghost var s := qs[level];
    assert Listed(m.links, m.queues[level], s);
    p := m.queues[level].head;
    ghost var n: nat := 0;
    while p != 0
      invariant n <= |s| && p == At(s, n) && forall i :: 0 <= i < n ==> !Runnable(m.procs[s[i]])
      decreases |s| - n
    {
      Neighbours(m.links, m.queues[level], s, n);
      if Runnable(m.procs[p]) {
        return;
      }
      p := m.links[p].next;
      n := n + 1;
    }
  }

  /** mlfq_pick_next: the first runnable process of the lowest level that has one. */
  method PickNext(m: Mlfq, ghost qs: seq<seq<Addr>>) returns (p: Ptr, ghost level: nat)
    requires Valid(m, qs)
    ensures forall i, x :: 0 <= i < level <= LEVELS && x in qs[i] ==> x in m.procs && !Runnable(m.procs[x])
    ensures p == 0 ==> level == LEVELS && forall i, x :: 0 <= i < 5 && x in qs[i] ==>
      x in m.procs && (m.procs[x].state.Blocked? || m.procs[x].state.Terminated?)
    ensures p != 0 ==> p in m.procs && (m.procs[p].state.Ready? || m.procs[p].state.Running?)
    ensures p != 0 ==>
      level < LEVELS && (forall x :: x in qs[level] ==> x in m.procs) && FirstRunnable(m.procs, qs[level], p)
  {
    var l: nat := 0;
    while l < LEVELS
      invariant l <= LEVELS && forall i, x :: 0 <= i < l && x in qs[i] ==> x in m.procs && !Runnable(m.procs[x])
    {
      assert Listed(m.links, m.queues[l], qs[l]);
      if m.queues[l].count > 0 && m.queues[l].head != 0 {
        p := PickInQueue(m, l, qs);
        if p != 0 {
          level := l;
          return;
        }
      }
      l := l + 1;
    }
    p, level := 0, LEVELS;
  }

  // ----- ticks -----

  /** A running process on its last tick, on a level that has one below. */
  ghost predicate Demoted(pr: Proc)
  {
    pr.state.Running? && pr.remaining <= 1 && pr.level < 4
  }

  /** mlfq_tick: a running process pays a tick, and one level when its slice is used up.  That
      loses the queues exactly when the process is queued and changes its level. */
  method Tick(m0: Mlfq, p: Ptr, ghost qs: seq<seq<Addr>>) returns (m: Mlfq)
    requires Valid(m0, qs) && (p != 0 ==> p in m0.procs)
    requires p != 0 && m0.procs[p].state.Running? && m0.procs[p].remaining <= 1 ==> 0 <= m0.procs[p].level < LEVELS
    ensures p == 0 || !m0.procs[p].state.Running? ==> m == m0
    ensures m == m0.(procs := m.procs, changes := m.changes) && m.procs.Keys == m0.procs.Keys
    ensures Valid(m, qs) <==> p == 0 || Nowhere(qs, p) || !Demoted(m0.procs[p])
    ensures p != 0 && m0.procs[p].state.Running? ==>
      var (a, b) := (m0.procs[p], m.procs[p]);
      && b.used == a.used + 1 && b.remaining == (if a.remaining > 0 then a.remaining - 1 else 0) && b.slice == a.slice
      && b.state == a.state
      && b.level == (if Demoted(a) then a.level + 1 else a.level)
      && m.procs == m0.procs[p := b]
      && m.changes == if Demoted(a) then m0.changes[a.level := m0.changes[a.level] + 1] else m0.changes
  {
    m := m0;
    if p == 0 || !m.procs[p].state.Running? {
      return;
    }
    var pr := m.procs[p];
    pr := pr.(used := pr.used + 1);
    if pr.remaining > 0 {
      pr := pr.(remaining := pr.remaining - 1);
    }
    if pr.remaining == 0 {
      var old0: nat := pr.level;
      var new0 := old0 + 1;
      if new0 >= LEVELS {
        new0 := LEVELS - 1;
      }
      if new0 != old0 {
        pr := pr.(level := new0);
        var changes: seq<nat> := m.changes[old0 := m.changes[old0] + 1];
        m := m.(changes := changes);
      }
    }
    m := m.(procs := m.procs[p := pr]);
    Moved(m0.procs, qs, p, pr);
  }

  lemma {:induction false} Moved(procs: map<Addr, Proc>, qs: seq<seq<Addr>>, p: Addr, pr: Proc)
    requires AtHome(procs, qs) && p in procs
    ensures AtHome(procs[p := pr], qs) <==> Nowhere(qs, p) || pr.level == procs[p].level
  {
    var procs' := procs[p := pr];
    if AtHome(procs', qs) && !Nowhere(qs, p) {
      var i :| 0 <= i < |qs| && p in qs[i];
      assert procs'[p].level == i && procs[p].level == i;
    }
    if Nowhere(qs, p) || pr.level == procs[p].level {
      forall i, x | 0 <= i < |qs| && x in qs[i] ensures x in procs' && procs'[x].level == i {
        assert x in procs && procs[x].level == i;
      }
    }
  }

  // ----- the global boost -----

  /** Exactly the processes of `s` have been refilled for level 0. */
  ghost predicate Lifted(procs0: map<Addr, Proc>, procs: map<Addr, Proc>, s: seq<Addr>)
  {
    && procs.Keys == procs0.Keys
    && forall x :: x in procs0 ==> procs[x] == if x in s then Refilled(procs0[x], 0) else procs0[x]
  }

  /** The first `k` processes of a level have moved behind level 0. */
  ghost predicate Draining(m0: Mlfq, qs0: seq<seq<Addr>>, level: nat, m: Mlfq, qs: seq<seq<Addr>>, k: nat)
    requires 0 < level < LEVELS == |qs0|
  {
    && Valid(m, qs) && k <= |qs0[level]| && qs == qs0[0 := qs0[0] + qs0[level][..k]][level := qs0[level][k..]]
    && m == m0.(links := m.links, queues := m.queues, procs := m.procs) && Lifted(m0.procs, m.procs, qs0[level][..k])
  }

  /** One turn of the inner loop of mlfq_boost_all. */
  method LiftFirst(m0: Mlfq, level: nat, ghost m1: Mlfq, ghost qs1: seq<seq<Addr>>, ghost qs0: seq<seq<Addr>>,
                   ghost k: nat)
    returns (m: Mlfq, ghost qs: seq<seq<Addr>>)
    requires Valid(m1, qs1) && 0 < level < LEVELS && Draining(m1, qs1, level, m0, qs0, k) && k < |qs1[level]|
    ensures Draining(m1, qs1, level, m, qs, k + 1)
  {
    HeadIs(m1, qs1, level, m0, qs0, k);
    var p: Addr := m0.queues[level].head;
    m, qs := MoveToTop(m0, p, level, qs0);
    Shifted(qs1, level, k, qs0, qs);
    LiftedOne(m1.procs, m0.procs, m.procs, qs1[level], k, qs1, m1.links, m1.queues, level);
  }

  lemma {:induction false} HeadIs(m1: Mlfq, qs1: seq<seq<Addr>>, level: nat, m0: Mlfq, qs0: seq<seq<Addr>>, k: nat)
    requires |qs1| == LEVELS && 0 < level < LEVELS && Draining(m1, qs1, level, m0, qs0, k) && k < |qs1[level]|
    ensures |qs0| == LEVELS && qs0[level] != [] && qs0[level][0] == qs1[level][k] == m0.queues[level].head
    ensures qs0[level][0] in m0.procs && m0.procs[qs0[level][0]].level == level
  {
    assert Listed(m0.links, m0.queues[level], qs0[level]);
    assert qs0[level] == qs1[level][k..];
    assert qs0[level][0] in qs0[level];
  }

  /** The head of a level goes behind level 0. */
  method MoveToTop(m0: Mlfq, p: Addr, level: nat, ghost qs0: seq<seq<Addr>>) returns (m: Mlfq, ghost qs: seq<seq<Addr>>)
    requires Valid(m0, qs0) && 0 < level < LEVELS && qs0[level] != [] && qs0[level][0] == p && p in m0.procs
      && m0.procs[p].level == level
    ensures Valid(m, qs) && (var q := qs0[level := RemoveAt(qs0[level], 0)]; qs == q[0 := q[0] + [p]])
    ensures m == m0.(links := m.links, queues := m.queues,
                     procs := m0.procs[p := Refilled(m0.procs[p].(level := 0), 0)])
  {
    m, qs := Dequeue(m0, p, qs0, 0);
    m := m.(procs := m.procs[p := m.procs[p].(level := 0)]);
    m, qs := Enqueue(m, p, qs);
  }

  lemma {:induction false} Shifted(qs1: seq<seq<Addr>>, level: nat, k: nat, qs0: seq<seq<Addr>>, qs: seq<seq<Addr>>)
    requires 0 < level < LEVELS == |qs1| && k < |qs1[level]|
      && qs0 == qs1[0 := qs1[0] + qs1[level][..k]][level := qs1[level][k..]]
    requires var q := qs0[level := RemoveAt(qs0[level], 0)]; qs == q[0 := q[0] + [qs1[level][k]]]
    ensures qs == qs1[0 := qs1[0] + qs1[level][..k + 1]][level := qs1[level][k + 1..]]
  {
    var s := qs1[level];
    assert RemoveAt(s[k..], 0) == s[k + 1..];
    assert qs1[0] + s[..k] + [s[k]] == qs1[0] + s[..k + 1];
  }

  lemma {:induction false} LiftedOne(procs1: map<Addr, Proc>, procs0: map<Addr, Proc>, procs: map<Addr, Proc>,
                                     s: seq<Addr>, k: nat,
                                     qs: seq<seq<Addr>>, h: Links, queues: seq<Queue>, level: nat)
    requires Queued(h, queues, qs) && level < |qs| && s == qs[level] && k < |s| && s[k] in procs0
      && Lifted(procs1, procs0, s[..k])
    requires procs == procs0[s[k] := Refilled(procs0[s[k]].(level := 0), 0)]
    ensures Lifted(procs1, procs, s[..k + 1])
  {
    assert Listed(h, queues[level], s);
    assert s[k] !in s[..k];
    assert s[..k + 1] == s[..k] + [s[k]];
  }

  /** The inner loop of mlfq_boost_all. */
  method Drain(m0: Mlfq, level: nat, ghost qs0: seq<seq<Addr>>) returns (m: Mlfq, ghost qs: seq<seq<Addr>>)
    requires Valid(m0, qs0) && 0 < level < LEVELS
    ensures Valid(m, qs) && qs == qs0[0 := qs0[0] + qs0[level]][level := []]
    ensures m == m0.(links := m.links, queues := m.queues, procs := m.procs) && Lifted(m0.procs, m.procs, qs0[level])
  {
    m, qs := m0, qs0;
    ghost var k: nat := 0;
    DrainStarts(m0, qs0, level);
    while m.queues[level].count > 0 && m.queues[level].head != 0
      invariant Draining(m0, qs0, level, m, qs, k) && m.queues[level].count == |qs0[level]| - k
        && (k < |qs0[level]| ==> m.queues[level].head != 0)
      decreases |qs0[level]| - k
    {
      m, qs := LiftFirst(m, level, m0, qs0, qs, k);
      k := k + 1;
      DrainHead(m0, qs0, level, m, qs, k);
    }
    DrainEnds(m0, qs0, level, m, qs);
  }

  lemma {:induction false} DrainStarts(m: Mlfq, qs: seq<seq<Addr>>, level: nat)
    requires Valid(m, qs) && 0 < level < LEVELS
    ensures Draining(m, qs, level, m, qs, 0) && m.queues[level].count == |qs[level]|
      && (|qs[level]| > 0 ==> m.queues[level].head != 0)
  {
    assert qs[0] + qs[level][..0] == qs[0] && qs[level][0..] == qs[level];
    assert Listed(m.links, m.queues[level], qs[level]);
  }

  lemma {:induction false} DrainHead(m0: Mlfq, qs0: seq<seq<Addr>>, level: nat, m: Mlfq, qs: seq<seq<Addr>>, k: nat)
    requires 0 < level < LEVELS == |qs0| && Draining(m0, qs0, level, m, qs, k)
    ensures m.queues[level].count == |qs0[level]| - k && (k < |qs0[level]| ==> m.queues[level].head != 0)
  {
    assert Listed(m.links, m.queues[level], qs[level]);
  }

  lemma {:induction false} DrainEnds(m0: Mlfq, qs0: seq<seq<Addr>>, level: nat, m: Mlfq, qs: seq<seq<Addr>>)
    requires 0 < level < LEVELS == |qs0| && Draining(m0, qs0, level, m, qs, |qs0[level]|)
    ensures qs == qs0[0 := qs0[0] + qs0[level]][level := []] && Lifted(m0.procs, m.procs, qs0[level])
  {
    var s := qs0[level];
    assert s[..|s|] == s && s[|s|..] == [];
  }

  /** mlfq_boost_all: when it is time, level 0 becomes L0 + L4 + L3 + L2 + L1 and the other
      levels are empty; nobody is lost, nobody is there twice and the counts stay right. */
  method BoostAll(m0: Mlfq, now: nat, ghost qs0: seq<seq<Addr>>) returns (m: Mlfq, ghost qs: seq<seq<Addr>>)
    requires Valid(m0, qs0) && m0.boostTime <= now
    ensures Valid(m, qs) && m.total == m0.total
    ensures now - m0.boostTime < 1000 ==> m == m0 && qs == qs0
    ensures now - m0.boostTime >= 1000 ==>
      && qs == [qs0[0] + qs0[4] + qs0[3] + qs0[2] + qs0[1], [], [], [], []]
      && m.boostTime == now && m.boostCount == m0.boostCount + 1
      && Lifted(m0.procs, m.procs, qs0[4] + qs0[3] + qs0[2] + qs0[1])
    ensures now - m0.boostTime >= 1000 ==> Renewed(m0.procs, qs0, m.procs)
  {
    m, qs := m0, qs0;
    if now - m.boostTime < BOOST_INTERVAL {
      return;
    }
    m := m.(boostTime := now, boostCount := m.boostCount + 1);
    BoostStarts(m0, qs0, m);
    m, qs := DrainAll(m, now, m0, qs0);
    BoostOrder(qs0, qs);
    AllRenewed(m0.procs, qs0, m.procs);
  }

  /** Everybody below level 0 has a full slice of level 0. */
  ghost predicate Renewed(procs0: map<Addr, Proc>, qs: seq<seq<Addr>>, procs: map<Addr, Proc>)
    requires |qs| == 5
  {
    forall i, x :: 0 < i < 5 && x in qs[i] ==>
      x in procs0 && x in procs && FullSlice(procs0[x].(level := 0), procs[x])
  }

  lemma {:induction false} AllRenewed(procs0: map<Addr, Proc>, qs: seq<seq<Addr>>, procs: map<Addr, Proc>)
    requires |qs| == 5 && AtHome(procs0, qs) && Lifted(procs0, procs, qs[4] + qs[3] + qs[2] + qs[1])
    ensures Renewed(procs0, qs, procs)
  {
    forall i, x | 0 < i < 5 && x in qs[i]
      ensures x in procs0 && x in procs && FullSlice(procs0[x].(level := 0), procs[x]) {
      assert i == 1 || i == 2 || i == 3 || i == 4;
      assert x in qs[4] + qs[3] + qs[2] + qs[1];
      RefilledIs(procs0[x].(level := 0));
    }
  }

  /** The outer loop of mlfq_boost_all. */
  method DrainAll(m1: Mlfq, ghost now: nat, ghost m0: Mlfq, ghost qs0: seq<seq<Addr>>)
    returns (m: Mlfq, ghost qs: seq<seq<Addr>>)
    requires |qs0| == LEVELS && Boosting(m0, qs0, now, m1, qs0, LEVELS - 1)
    ensures Boosting(m0, qs0, now, m, qs, 0)
  {
    m, qs := m1, qs0;
    var level: nat := LEVELS - 1;
    while level > 0
      invariant Boosting(m0, qs0, now, m, qs, level)
    {
      ghost var m2, qs2 := m, qs;
      m, qs := Drain(m, level, qs);
      BoostStep(m0, qs0, now, m2, qs2, level, m, qs);
      level := level - 1;
    }
  }

  /** The levels above `level` have been drained. */
  ghost predicate Boosting(m0: Mlfq, qs0: seq<seq<Addr>>, now: nat, m: Mlfq, qs: seq<seq<Addr>>, level: nat)
    requires |qs0| == LEVELS
  {
    && level < LEVELS && Valid(m, qs) && Lifted(m0.procs, m.procs, Behind(qs0, level)) && Drained(qs0, qs, level)
    && m == m0.(links := m.links, queues := m.queues, procs := m.procs, boostTime := now,
                boostCount := m0.boostCount + 1)
  }

  ghost predicate Drained(qs0: seq<seq<Addr>>, qs: seq<seq<Addr>>, level: nat)
    requires level < LEVELS == |qs0|
  {
    && |qs| == LEVELS && qs[0] == qs0[0] + Behind(qs0, level)
    && forall i :: 0 < i < LEVELS ==> qs[i] == if i > level then [] else qs0[i]
  }

  lemma {:induction false} DrainedMore(qs0: seq<seq<Addr>>, qs1: seq<seq<Addr>>, level: nat, qs: seq<seq<Addr>>)
    requires 0 < level < LEVELS == |qs0| && Drained(qs0, qs1, level) && qs == qs1[0 := qs1[0] + qs1[level]][level := []]
    ensures Drained(qs0, qs, level - 1)
  {
    Assoc(qs0[0], Behind(qs0, level), qs0[level]);
  }

  lemma {:induction false} BoostStarts(m0: Mlfq, qs0: seq<seq<Addr>>, m: Mlfq)
    requires Valid(m0, qs0) && m == m0.(boostTime := m.boostTime, boostCount := m0.boostCount + 1)
    ensures Boosting(m0, qs0, m.boostTime, m, qs0, LEVELS - 1)
  {
    assert qs0[0] + [] == qs0[0];
  }

  lemma {:induction false} BoostStep(m0: Mlfq, qs0: seq<seq<Addr>>, now: nat, m1: Mlfq, qs1: seq<seq<Addr>>,
                                     level: nat, m: Mlfq, qs: seq<seq<Addr>>)
    requires |qs0| == LEVELS && 0 < level < LEVELS && Boosting(m0, qs0, now, m1, qs1, level)
    requires Valid(m, qs) && qs == qs1[0 := qs1[0] + qs1[level]][level := []]
    requires m == m1.(links := m.links, queues := m.queues, procs := m.procs) && Lifted(m1.procs, m.procs, qs1[level])
    ensures Boosting(m0, qs0, now, m, qs, level - 1)
  {
    LiftedMore(m0.procs, m1.procs, m.procs, Behind(qs0, level), qs0[level]);
    DrainedMore(qs0, qs1, level, qs);
  }

  lemma {:induction false} Assoc(a: seq<Addr>, b: seq<Addr>, c: seq<Addr>)
    ensures a + b + c == a + (b + c)
  {
  }

  /** What has been moved when the loop is about to drain `level`. */
  ghost function Behind(qs: seq<seq<Addr>>, level: nat): seq<Addr>
    requires level < LEVELS == |qs|
    decreases LEVELS - level
  {
    if level == LEVELS - 1 then [] else Behind(qs, level + 1) + qs[level + 1]
  }

  lemma {:induction false} LiftedMore(p0: map<Addr, Proc>, p1: map<Addr, Proc>, p2: map<Addr, Proc>, a: seq<Addr>,
                                      b: seq<Addr>)
    requires Lifted(p0, p1, a) && Lifted(p1, p2, b)
    ensures Lifted(p0, p2, a + b)
  {
  }

  lemma {:induction false} BoostOrder(qs0: seq<seq<Addr>>, qs: seq<seq<Addr>>)
    requires |qs0| == LEVELS && Drained(qs0, qs, 0)
    ensures Behind(qs0, 0) == qs0[4] + qs0[3] + qs0[2] + qs0[1]
      && qs == [qs0[0] + qs0[4] + qs0[3] + qs0[2] + qs0[1], [], [], [], []]
  {
    assert Behind(qs0, 3) == [] + qs0[4] == qs0[4];
    assert Behind(qs0, 2) == qs0[4] + qs0[3];
    assert Behind(qs0, 1) == qs0[4] + qs0[3] + qs0[2];
    Concatenated(qs0[0], qs0[4], qs0[3], qs0[2], qs0[1]);
    OnlyFirst(qs);
  }

  lemma {:induction false} Concatenated(a: seq<Addr>, b: seq<Addr>, c: seq<Addr>, d: seq<Addr>, e: seq<Addr>)
    ensures a + (b + c + d + e) == a + b + c + d + e
  {
    Assoc(a, b, c);
    Assoc(a, b + c, d);
    Assoc(a, b + c + d, e);
  }

  lemma {:induction false} OnlyFirst(qs: seq<seq<Addr>>)
    requires |qs| == LEVELS && forall i :: 0 < i < LEVELS ==> qs[i] == []
    ensures qs == [qs[0], [], [], [], []]
  {
  }
}

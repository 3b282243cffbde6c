/** kernel/process/priority_sched.c: 32 ready queues, a bitmap of the non-empty ones, and
    aging.  A process is enqueued only when it is in no queue and dequeued only from the
    queue it names; the clock is a parameter.
 */
module PrioritySched {
  import opened Machine
  import opened Sequences
  import opened ProcQueue
  import opened Bits

  const MAX_PRIORITIES: nat := 32
  const AGING_INTERVAL: nat := 100
  const AGING_THRESHOLD: nat := 200
  const AGING_BOOST: nat := 2

  /** The scheduling fields of a process; `since` is its wait_time. */
  datatype Proc = Proc(priority: int, since: nat, boosts: nat)

  type Procs = map<Addr, Proc>

  datatype Sched = Sched(links: Links, queues: seq<Queue>, bitmap: nat, total: nat, lastAging: nat, procs: Procs)

  /** Every queued process is in the queue its priority names. */
  ghost predicate AtHome(procs: Procs, qs: seq<seq<Addr>>)
  {
    forall i, p :: 0 <= i < |qs| && p in qs[i] ==> p in procs && procs[p].priority == i
  }

  /** A bit of the bitmap is set exactly when its queue is not empty. */
  ghost predicate Mapped(bitmap: nat, qs: seq<seq<Addr>>)
  {
    forall i :: 0 <= i ==> (Has(bitmap, i) <==> i < |qs| && qs[i] != [])
  }

  ghost predicate Valid(m: Sched, qs: seq<seq<Addr>>)
  {
    && |qs| == MAX_PRIORITIES && Queued(m.links, m.queues, qs) && AtHome(m.procs, qs) && Mapped(m.bitmap, qs)
    && m.total == Total(qs)
  }

  function Clamp(priority: int): nat
  {
    if priority < 0 then 0 else if priority >= MAX_PRIORITIES then MAX_PRIORITIES - 1 else priority
  }

  /** priority_scheduler_init: nobody is queued. */
  method Init(procs: Procs, now: nat) returns (m: Sched, ghost qs: seq<seq<Addr>>)
    ensures Valid(m, qs) && m.procs == procs && m.lastAging == now
      && forall i :: 0 <= i < MAX_PRIORITIES ==> qs[i] == []
  {
    var queues;
    queues, qs := EmptyQueues(MAX_PRIORITIES);
    m := Sched(map[], queues, 0, 0, now, procs);
    forall i: nat ensures !Has(0, i) { NoBits(i); }
  }

  /** priority_enqueue: to the tail of its queue, out-of-range priorities being pulled in. */
  method Enqueue(m0: Sched, p: Ptr, now: nat, ghost qs0: seq<seq<Addr>>) returns (m: Sched, ghost qs: seq<seq<Addr>>)
    requires Valid(m0, qs0) && (p != 0 ==> p in m0.procs && Nowhere(qs0, p))
    ensures Valid(m, qs)
    ensures p == 0 ==> m == m0 && qs == qs0
    ensures p != 0 ==>
      var l := Clamp(m0.procs[p].priority);
      && qs == qs0[l := qs0[l] + [p as Addr]]
      && m == m0.(links := m.links, queues := m.queues, bitmap := m.bitmap, total := m0.total + 1,
                  procs := m0.procs[p := m0.procs[p].(priority := l, since := now)])
    ensures p != 0 ==>
      var pri := m0.procs[p].priority;
      p in m.procs && m.procs[p].priority == if pri < 0 then 0 else if pri <= 31 then pri else 31
  {
    m, qs := m0, qs0;
    if p != 0 {
      var pri := Clamp(m.procs[p].priority);
      var links, queues := Push(m.links, m.queues, pri, p, qs);
      var procs := m.procs[p := m.procs[p].(priority := pri, since := now)];
      TotalChanges(qs, pri, qs[pri] + [p as Addr]);
      BitSet(m.bitmap, qs, pri, qs[pri] + [p as Addr]);
      qs := qs[pri := qs[pri] + [p as Addr]];
      m := m.(links := links, queues := queues, procs := procs, total := m.total + 1, bitmap := With(m.bitmap, pri));
    }
  }

  lemma {:induction false} BitSet(bitmap: nat, qs: seq<seq<Addr>>, k: nat, s: seq<Addr>)
    requires Mapped(bitmap, qs) && k < |qs|
    ensures s != [] ==> Mapped(With(bitmap, k), qs[k := s])
    ensures s == [] ==> Mapped(Cleared(bitmap, k), qs[k := s])
  {
    forall i | 0 <= i ensures Has(With(bitmap, k), i) <==> i == k || Has(bitmap, i) { WordBits(bitmap, k, i); }
    forall i | 0 <= i ensures Has(Cleared(bitmap, k), i) <==> i != k && Has(bitmap, i) { WordBits(bitmap, k, i); }
  }

  /** priority_dequeue: this process leaves, all others keep their places. */
  method Dequeue(m0: Sched, p: Ptr, ghost qs0: seq<seq<Addr>>, ghost n: nat)
    returns (m: Sched, ghost qs: seq<seq<Addr>>)
    requires Valid(m0, qs0) && (p != 0 ==> p in m0.procs)
    requires p != 0 && 0 <= m0.procs[p].priority < MAX_PRIORITIES ==>
      n < |qs0[m0.procs[p].priority]| && qs0[m0.procs[p].priority][n] == p
    ensures Valid(m, qs)
    ensures p == 0 || !(0 <= m0.procs[p].priority < MAX_PRIORITIES) ==> m == m0 && qs == qs0
    ensures p != 0 && 0 <= m0.procs[p].priority < MAX_PRIORITIES ==>
      var l := m0.procs[p].priority;
      && qs == qs0[l := RemoveAt(qs0[l], n)] && Nowhere(qs, p) && m0.total > 0
      && m == m0.(links := m.links, queues := m.queues, bitmap := m.bitmap, total := m0.total - 1)
  {
    m, qs := m0, qs0;
    if p != 0 {
      if m.procs[p].priority < 0 || m.procs[p].priority >= MAX_PRIORITIES {
        return;
      }
      var pri: nat := m.procs[p].priority;
      ghost var s := RemoveAt(qs[pri], n);
      Left(m, qs, pri, n);
      var links, queues := Pull(m.links, m.queues, pri, p, qs, n);
      m := m.(links := links, queues := queues);
      if m.total > 0 {
        m := m.(total := m.total - 1);
      }
      if queues[pri].count == 0 {
        m := m.(bitmap := Cleared(m.bitmap, pri));
      }
      qs := qs[pri := s];
    }
  }

  /** The book-keeping once a process has left. */
  lemma {:induction false} Left(m: Sched, qs: seq<seq<Addr>>, k: nat, n: nat)
    requires Valid(m, qs) && k < |qs| && n < |qs[k]|
    ensures var (s, r) := (RemoveAt(qs[k], n), qs[k := RemoveAt(qs[k], n)]);
      && Nowhere(r, qs[k][n]) && AtHome(m.procs, r) && Total(r) == m.total - 1 && |s| == |qs[k]| - 1
      && Mapped(if s == [] then Cleared(m.bitmap, k) else m.bitmap, r)
  {
    var s := RemoveAt(qs[k], n);
    TotalChanges(qs, k, s);
    Gone(m.links, m.queues, qs, k, n);
    BitSet(m.bitmap, qs, k, s);
    BitKept(m.bitmap, qs, k, s);
  }

  lemma {:induction false} BitKept(bitmap: nat, qs: seq<seq<Addr>>, k: nat, s: seq<Addr>)
    requires Mapped(bitmap, qs) && k < |qs| && qs[k] != []
    ensures s != [] ==> Mapped(bitmap, qs[k := s])
  {
  }

  /** priority_pick_next: the first process of the best non-empty queue leaves it; NULL
      exactly when all queues are empty. */
  method PickNext(m0: Sched, ghost qs0: seq<seq<Addr>>)
    returns (p: Ptr, m: Sched, ghost qs: seq<seq<Addr>>, ghost best: nat)
    requires Valid(m0, qs0)
    ensures Valid(m, qs)
    ensures p == 0 ==> m == m0 && qs == qs0 && forall i :: 0 <= i < MAX_PRIORITIES ==> qs0[i] == []
    ensures p != 0 ==>
      best < MAX_PRIORITIES && qs0[best] != [] && p == qs0[best][0] && forall i :: 0 <= i < best ==> qs0[i] == []
    ensures p != 0 ==> qs == qs0[best := qs0[best][1..]] && m.procs == m0.procs
  {
    p, m, qs, best := 0, m0, qs0, 0;
    if m.bitmap == 0 {
      forall i | 0 <= i < MAX_PRIORITIES ensures qs0[i] == [] { NoBits(i); }
      return;
    }
    var highest: nat := Ffs(m.bitmap) - 1;
    best := highest;
    BestQueue(m, qs, highest);
    p := m.queues[highest].head;
    m, qs := Dequeue(m, p, qs, 0);
    assert RemoveAt(qs0[best], 0) == qs0[best][1..];
  }

  /** The lowest bit of the bitmap is the number of the best queue. */
  lemma {:induction false} BestQueue(m: Sched, qs: seq<seq<Addr>>, h: nat)
    requires Valid(m, qs) && m.bitmap != 0 && h == Ffs(m.bitmap) - 1
    ensures h < MAX_PRIORITIES && qs[h] != [] && qs[h][0] == m.queues[h].head
      && (forall i :: 0 <= i < h ==> qs[i] == [])
    ensures qs[h][0] in m.procs && m.procs[qs[h][0]].priority == h
  {
    assert Has(m.bitmap, h);
    assert Listed(m.links, m.queues[h], qs[h]);
    assert qs[h][0] in qs[h];
    forall i | 0 <= i < h ensures qs[i] == [] { assert !Has(m.bitmap, i); }
  }

  // ----- aging -----

  /** What an aging pass does to a queued process: a long wait is worth two priorities. */
  function AgeOne(pr: Proc, now: nat): Proc
    requires pr.since <= now
  {
    if pr.priority > 0 && now - pr.since > AGING_THRESHOLD
    then Proc(if pr.priority < AGING_BOOST then 0 else pr.priority - AGING_BOOST, now, pr.boosts + 1)
    else pr
  }

  /** More than 200 ticks of waiting are worth two priorities, or the one that is left, and the wait starts
      again; otherwise nothing changes. */
  ghost predicate Rewarded(a: Proc, b: Proc, now: nat)
  {
    if a.priority > 0 && now > a.since + 200
    then b.priority == (if a.priority == 1 then 0 else a.priority - 2) && b.since == now && b.boosts == a.boosts + 1
    else b == a
  }

  /** What a tick at `now` does to a queued process and to the time of the last pass. */
  ghost predicate Waited(pr0: Proc, last0: nat, pr: Proc, last: nat, now: nat)
  {
    && pr0.since <= now && last0 <= now
    && if now - last0 >= AGING_INTERVAL then pr == AgeOne(pr0, now) && last == now else pr == pr0 && last == last0
  }

  lemma {:induction false} AgeTwice(pr: Proc, now: nat)
    requires pr.since <= now
    ensures AgeOne(AgeOne(pr, now), now) == AgeOne(pr, now)
  {
  }

  ghost predicate Clocked(procs: Procs, now: nat)
  {
    forall x :: x in procs ==> procs[x].since <= now
  }

  /** The same processes are queued. */
  ghost predicate SameMembers(qs0: seq<seq<Addr>>, qs: seq<seq<Addr>>)
  {
    forall x :: Nowhere(qs0, x) <==> Nowhere(qs, x)
  }

  /** Exactly the processes of `done`, all of them queued, have been aged. */
  ghost predicate Aged(procs0: Procs, procs: Procs, qs0: seq<seq<Addr>>, now: nat, done: set<Addr>)
    requires Clocked(procs0, now)
  {
    && procs.Keys == procs0.Keys && (forall x :: x in done ==> !Nowhere(qs0, x))
    && forall x :: x in procs0 ==> procs[x] == if x in done then AgeOne(procs0[x], now) else procs0[x]
  }

  /** A pass that has finished the queues above `pri`. */
  ghost predicate Passing(m0: Sched, qs0: seq<seq<Addr>>, now: nat, m: Sched, qs: seq<seq<Addr>>, pri: nat,
                          done: set<Addr>)
  {
    && Valid(m, qs)
    && m == m0.(links := m.links, queues := m.queues, bitmap := m.bitmap, lastAging := now, procs := m.procs)
    && Clocked(m0.procs, now) && Aged(m0.procs, m.procs, qs0, now, done) && SameMembers(qs0, qs)
    && forall x :: x in m0.procs && !Nowhere(qs, x) && x !in done ==> m0.procs[x].priority <= pri
  }

  /** Inside queue `pri`, `kept` has been passed and `rest` lies ahead. */
  ghost predicate Inside(qs: seq<seq<Addr>>, pri: nat, kept: seq<Addr>, rest: seq<Addr>, done: set<Addr>)
  {
    pri < |qs| && qs[pri] == kept + rest && forall x :: x in kept ==> x in done
  }

  /** The boost of one process: out of its queue and into a better one. */
  method Boost(m0: Sched, p: Addr, pri: nat, now: nat, ghost qs0: seq<seq<Addr>>, ghost n: nat)
    returns (m: Sched, ghost qs: seq<seq<Addr>>)
    requires Valid(m0, qs0) && 0 < pri < MAX_PRIORITIES && n < |qs0[pri]| && qs0[pri][n] == p && p in m0.procs
      && m0.procs[p].since <= now
    requires now - m0.procs[p].since > AGING_THRESHOLD
    ensures Valid(m, qs) && SameMembers(qs0, qs) && qs[pri] == RemoveAt(qs0[pri], n)
    ensures m == m0.(links := m.links, queues := m.queues, bitmap := m.bitmap,
                     procs := m0.procs[p := AgeOne(m0.procs[p], now)])
  {
    assert p in qs0[pri];
    var newPri: nat := if pri < AGING_BOOST then 0 else pri - AGING_BOOST;
    m, qs := Dequeue(m0, p, qs0, n);
    ghost var qs1 := qs;
    var pr := m.procs[p].(priority := newPri, boosts := m.procs[p].boosts + 1);
    NotAffected(m, qs, p, pr);
    m := m.(procs := m.procs[p := pr]);
    m, qs := Enqueue(m, p, now, qs);
    MovedMembers(qs0, qs1, qs, pri, n, newPri, p);
    Overwritten(m0.procs, p, pr, AgeOne(m0.procs[p], now));
  }

  /** The record of a process that is not queued may change. */
  lemma {:induction false} NotAffected(m: Sched, qs: seq<seq<Addr>>, p: Addr, pr: Proc)
    requires Valid(m, qs) && Nowhere(qs, p)
    ensures Valid(m.(procs := m.procs[p := pr]), qs)
  {
  }

  lemma {:induction false} Overwritten(procs: Procs, p: Addr, a: Proc, b: Proc)
    ensures procs[p := a][p := b] == procs[p := b]
  {
  }

  lemma {:induction false} MovedMembers(qs0: seq<seq<Addr>>, qs1: seq<seq<Addr>>, qs: seq<seq<Addr>>, k: nat, n: nat,
                                        l: nat, p: Addr)
    requires k < |qs0| && l < |qs0| && k != l && n < |qs0[k]| && qs0[k][n] == p
    requires qs1 == qs0[k := RemoveAt(qs0[k], n)] && qs == qs1[l := qs1[l] + [p]]
    ensures SameMembers(qs0, qs)
  {
    var s, r := qs0[k], RemoveAt(qs0[k], n);
    forall x ensures x in s <==> x in r || x == p {
      if x in s {
        var i :| 0 <= i < |s| && s[i] == x;
        if i != n { assert x == if i < n then r[i] else r[i - 1]; }
      }
      if x in r {
        var i :| 0 <= i < |r| && r[i] == x;
        assert x == if i < n then s[i] else s[i + 1];
      }
      assert p in s;
    }
    forall x ensures Nowhere(qs0, x) <==> Nowhere(qs, x) {
      if Nowhere(qs0, x) {
        forall i | 0 <= i < |qs| ensures x !in qs[i] { assert x !in qs0[i] && x !in qs0[k]; }
      }
      if Nowhere(qs, x) {
        assert x !in qs[l] && x !in qs[k];
        forall i | 0 <= i < |qs0| ensures x !in qs0[i] { assert x !in qs[i]; }
      }
    }
  }

  /** Visiting one process of a queue. */
  lemma {:induction false} Visited(m0: Sched, qs0: seq<seq<Addr>>, now: nat, m: Sched, qs: seq<seq<Addr>>, pri: nat,
                                   done: set<Addr>,
                                   kept: seq<Addr>, rest: seq<Addr>, m': Sched, qs': seq<seq<Addr>>, kept': seq<Addr>)
    requires Passing(m0, qs0, now, m, qs, pri, done) && Inside(qs, pri, kept, rest, done) && rest != []
    requires Valid(m', qs') && SameMembers(qs, qs') && rest[0] in m.procs && m.procs[rest[0]].since <= now
    requires m' == m.(links := m'.links, queues := m'.queues, bitmap := m'.bitmap,
                      procs := m.procs[rest[0] := AgeOne(m.procs[rest[0]], now)])
    requires qs'[pri] == kept' + rest[1..] && (kept' == kept || kept' == kept + [rest[0]])
    ensures Passing(m0, qs0, now, m', qs', pri, done + {rest[0]})
      && Inside(qs', pri, kept', rest[1..], done + {rest[0]})
  {
    var x := rest[0];
    assert x in qs[pri];
    AgeTwice(m0.procs[x], now);
  }

  /** The body of the inner loop of priority_aging. */
  method Visit(m1: Sched, p: Addr, pri: nat, now: nat, ghost qs1: seq<seq<Addr>>, ghost kept1: seq<Addr>,
               ghost rest: seq<Addr>)
    returns (m: Sched, ghost qs: seq<seq<Addr>>, ghost kept: seq<Addr>)
    requires Valid(m1, qs1) && 0 < pri < MAX_PRIORITIES && qs1[pri] == kept1 + rest && rest != [] && p == rest[0]
    requires p in m1.procs && m1.procs[p].since <= now
    ensures Valid(m, qs) && SameMembers(qs1, qs) && qs[pri] == kept + rest[1..]
      && (kept == kept1 || kept == kept1 + [p])
    ensures m == m1.(links := m.links, queues := m.queues, bitmap := m.bitmap,
                     procs := m1.procs[p := AgeOne(m1.procs[p], now)])
  {
    m, qs, kept := m1, qs1, kept1;
    FirstOfRest(m1, qs1, pri, kept1, rest);
    if now - m.procs[p].since > AGING_THRESHOLD {
      m, qs := Boost(m, p, pri, now, qs, |kept|);
    } else {
      kept := kept + [p];
      assert m1.procs == m1.procs[p := m1.procs[p]];
    }
  }

  /** The inner loop of priority_aging: the saved successor stays valid although the process
      itself may have been moved away. */
  method AgeQueue(m1: Sched, pri: nat, now: nat, ghost m0: Sched, ghost qs0: seq<seq<Addr>>,
                  ghost qs1: seq<seq<Addr>>, ghost done0: set<Addr>)
    returns (m: Sched, ghost qs: seq<seq<Addr>>, ghost done: set<Addr>)
    requires Passing(m0, qs0, now, m1, qs1, pri, done0) && 0 < pri < MAX_PRIORITIES
    ensures Passing(m0, qs0, now, m, qs, pri - 1, done)
  {
    m, qs, done := m1, qs1, done0;
    ghost var kept: seq<Addr>, rest := [], qs[pri];
    assert Listed(m.links, m.queues[pri], qs[pri]);
    var proc := m.queues[pri].head;
    assert kept + rest == rest;
    while proc != 0
      invariant Passing(m0, qs0, now, m, qs, pri, done) && Inside(qs, pri, kept, rest, done) && proc == At(rest, 0)
      decreases |rest|
    {
      FirstOfRest(m, qs, pri, kept, rest);
      KnowsTime(m0, qs0, now, m, qs, pri, done, proc);
      var next := m.links[proc].next;
      ghost var m2, qs2, kept2 := m, qs, kept;
      m, qs, kept := Visit(m, proc, pri, now, qs, kept, rest);
      Visited(m0, qs0, now, m2, qs2, pri, done, kept2, rest, m, qs, kept);
      done := done + {rest[0]};
      rest := rest[1..];
      proc := next;
    }
    QueueDone(m0, qs0, now, m, qs, pri, done, kept);
  }

  lemma {:induction false} FirstOfRest(m: Sched, qs: seq<seq<Addr>>, pri: nat, kept: seq<Addr>, rest: seq<Addr>)
    requires Valid(m, qs) && pri < |qs| && qs[pri] == kept + rest && rest != []
    ensures var p := rest[0];
      && p in m.links && m.links[p].next == At(rest[1..], 0) && p in m.procs && m.procs[p].priority == pri
      && |kept| < |qs[pri]| && qs[pri][|kept|] == p && RemoveAt(qs[pri], |kept|) == kept + rest[1..]
      && kept + rest == kept + [p] + rest[1..]
  {
    var s := qs[pri];
    assert Listed(m.links, m.queues[pri], s);
    Neighbours(m.links, m.queues[pri], s, |kept|);
    assert s[|kept|] == rest[0] && rest[0] in s;
    if |rest| > 1 { assert s[|kept| + 1] == rest[1] == rest[1..][0]; }
  }

  lemma {:induction false} KnowsTime(m0: Sched, qs0: seq<seq<Addr>>, now: nat, m: Sched, qs: seq<seq<Addr>>, pri: nat,
                                     done: set<Addr>, x: Addr)
    requires Passing(m0, qs0, now, m, qs, pri, done) && x in m.procs
    ensures m.procs[x].since <= now
  {
  }

  lemma {:induction false} QueueDone(m0: Sched, qs0: seq<seq<Addr>>, now: nat, m: Sched, qs: seq<seq<Addr>>, pri: nat,
                                     done: set<Addr>, kept: seq<Addr>)
    requires Passing(m0, qs0, now, m, qs, pri, done) && 0 < pri < MAX_PRIORITIES && qs[pri] == kept + []
      && forall x :: x in kept ==> x in done
    ensures Passing(m0, qs0, now, m, qs, pri - 1, done)
  {
    forall x | x in m0.procs && !Nowhere(qs, x) && x !in done ensures m0.procs[x].priority <= pri - 1 {
      var i :| 0 <= i < |qs| && x in qs[i];
      assert m.procs[x].priority == i && i != pri;
    }
  }

  /** A pass: exactly the queued processes have been aged, and the same ones are queued. */
  ghost predicate Passed(m0: Sched, qs0: seq<seq<Addr>>, now: nat, m: Sched, qs: seq<seq<Addr>>)
    requires Clocked(m0.procs, now)
  {
    && m.lastAging == now && m.procs.Keys == m0.procs.Keys && SameMembers(qs0, qs)
    && forall x :: x in m0.procs ==> m.procs[x] == if Nowhere(qs0, x) then m0.procs[x] else AgeOne(m0.procs[x], now)
  }

  /** What priority_aging, called at `now`, does to every queued process. */
  ghost predicate Ticked(m0: Sched, qs0: seq<seq<Addr>>, now: nat, m: Sched, qs: seq<seq<Addr>>)
  {
    && SameMembers(qs0, qs)
    && forall x :: x in m0.procs && !Nowhere(qs0, x) ==>
      x in m.procs && Waited(m0.procs[x], m0.lastAging, m.procs[x], m.lastAging, now)
  }

  /** priority_aging: at most once in AGING_INTERVAL ticks, every queued process is aged
      once, whichever queues it passes through on the way; nobody joins or leaves. */
  method Aging(m0: Sched, now: nat, ghost qs0: seq<seq<Addr>>) returns (m: Sched, ghost qs: seq<seq<Addr>>)
    requires Valid(m0, qs0) && m0.lastAging <= now && Clocked(m0.procs, now)
    ensures Valid(m, qs) && m.total == m0.total && Clocked(m.procs, now)
    ensures now - m0.lastAging < 100 ==> m == m0 && qs == qs0
    ensures now - m0.lastAging >= 100 ==> Passed(m0, qs0, now, m, qs)
    ensures now - m0.lastAging >= 100 ==>
      forall x :: x in m0.procs && !Nowhere(qs0, x) ==> x in m.procs && Rewarded(m0.procs[x], m.procs[x], now)
    ensures Ticked(m0, qs0, now, m, qs)
  {
    m, qs := m0, qs0;
    if now - m.lastAging < AGING_INTERVAL {
      return;
    }
    m := m.(lastAging := now);
    var pri: nat := MAX_PRIORITIES - 1;
    ghost var done: set<Addr> := {};
    PassStarts(m0, qs0, now, m);
    while pri > 0
      invariant pri < MAX_PRIORITIES && Passing(m0, qs0, now, m, qs, pri, done)
    {
      assert Listed(m.links, m.queues[pri], qs[pri]);
      if m.queues[pri].count == 0 {
        assert qs[pri] == [] + [];
        QueueDone(m0, qs0, now, m, qs, pri, done, []);
      } else {
        m, qs, done := AgeQueue(m, pri, now, m0, qs0, qs, done);
      }
      pri := pri - 1;
    }
    PassEnds(m0, qs0, now, m, qs, done);
    PassTicks(m0, qs0, now, m, qs);
  }

  lemma {:induction false} PassTicks(m0: Sched, qs0: seq<seq<Addr>>, now: nat, m: Sched, qs: seq<seq<Addr>>)
    requires Clocked(m0.procs, now) && m0.lastAging <= now && now - m0.lastAging >= AGING_INTERVAL
      && Passed(m0, qs0, now, m, qs)
    ensures Ticked(m0, qs0, now, m, qs) && Clocked(m.procs, now)
  {
  }

  lemma {:induction false} PassStarts(m0: Sched, qs0: seq<seq<Addr>>, now: nat, m: Sched)
    requires Valid(m0, qs0) && Clocked(m0.procs, now) && m == m0.(lastAging := now)
    ensures Passing(m0, qs0, now, m, qs0, MAX_PRIORITIES - 1, {})
  {
    forall x | x in m0.procs && !Nowhere(qs0, x) ensures m0.procs[x].priority <= MAX_PRIORITIES - 1 {
      var i :| 0 <= i < |qs0| && x in qs0[i];
    }
  }

  lemma {:induction false} PassEnds(m0: Sched, qs0: seq<seq<Addr>>, now: nat, m: Sched, qs: seq<seq<Addr>>,
                                    done: set<Addr>)
    requires Valid(m0, qs0) && Passing(m0, qs0, now, m, qs, 0, done)
    ensures Passed(m0, qs0, now, m, qs)
  {
    forall x | x in m0.procs ensures m.procs[x] == if Nowhere(qs0, x) then m0.procs[x] else AgeOne(m0.procs[x], now) {
      if !Nowhere(qs0, x) && x !in done {
        assert !Nowhere(qs, x);
        var i :| 0 <= i < |qs0| && x in qs0[i];
        assert m0.procs[x].priority == i;
      }
    }
  }

  // ----- no starvation -----

  /** A queued process and the time of the last aging pass, after a tick. */
  datatype View = View(pr: Proc, last: nat)

  /** A process left queued while priority_aging runs at every tick: entry i is the view
      after tick t0 + i. */
  ghost predicate Waiting(tr: seq<View>, t0: nat)
  {
    && tr != [] && tr[0].pr.since <= t0 && tr[0].last <= t0 < tr[0].last + AGING_INTERVAL && tr[0].pr.priority >= 0
    && forall i, j :: 0 <= i < j < |tr| && j == i + 1 ==> Waited(tr[i].pr, tr[i].last, tr[j].pr, tr[j].last, t0 + j)
  }

  /** Passes are less than an interval away, and waiting started in the past. */
  lemma {:induction false} Punctual(tr: seq<View>, t0: nat, i: nat)
    requires Waiting(tr, t0) && i < |tr|
    ensures tr[i].pr.since <= t0 + i && tr[i].last <= t0 + i < tr[i].last + AGING_INTERVAL && tr[i].pr.priority >= 0
  {
    if i > 0 {
      Punctual(tr, t0, i - 1);
      assert Waited(tr[i - 1].pr, tr[i - 1].last, tr[i].pr, tr[i].last, t0 + i);
    }
  }

  /** Between two passes nothing happens. */
  lemma {:induction false} Idle(tr: seq<View>, t0: nat, i: nat, j: nat)
    requires Waiting(tr, t0) && i <= j < |tr| && t0 + j < tr[i].last + AGING_INTERVAL
    ensures tr[j] == tr[i]
    decreases j
  {
    if i < j {
      Idle(tr, t0, i, j - 1);
      assert Waited(tr[j - 1].pr, tr[j - 1].last, tr[j].pr, tr[j].last, t0 + j);
    }
  }

  /** The next pass comes one interval after the last. */
  lemma {:induction false} NextPass(tr: seq<View>, t0: nat, i: nat) returns (j: nat)
    requires Waiting(tr, t0) && i + AGING_INTERVAL < |tr|
    ensures i < j <= i + AGING_INTERVAL && t0 + j == tr[i].last + AGING_INTERVAL
    ensures tr[i].pr.since <= t0 + j && tr[j] == View(AgeOne(tr[i].pr, t0 + j), t0 + j)
  {
    Punctual(tr, t0, i);
    j := tr[i].last + AGING_INTERVAL - t0;
    Idle(tr, t0, i, j - 1);
    assert Waited(tr[j - 1].pr, tr[j - 1].last, tr[j].pr, tr[j].last, t0 + j);
  }

  function Boosted(priority: int): int
  {
    if priority < AGING_BOOST then 0 else priority - AGING_BOOST
  }

  /** At the third pass at the latest the process is boosted. */
  lemma {:induction false} OneBoost(tr: seq<View>, t0: nat, i: nat) returns (j: nat)
    requires Waiting(tr, t0) && i + 300 < |tr| && tr[i].pr.priority > 0
    ensures i < j <= i + 300 && tr[j].pr.priority == Boosted(tr[i].pr.priority)
  {
    Punctual(tr, t0, i);
    j := NextPass(tr, t0, i);
    if tr[j].pr == tr[i].pr {
      j := NextPass(tr, t0, j);
      if tr[j].pr == tr[i].pr {
        j := NextPass(tr, t0, j);
      }
    }
  }

  lemma {:induction false} StaysBest(tr: seq<View>, t0: nat, i: nat, j: nat)
    requires Waiting(tr, t0) && i <= j < |tr| && tr[i].pr.priority == 0
    ensures tr[j].pr.priority == 0
    decreases j
  {
    if i < j {
      StaysBest(tr, t0, i, j - 1);
      assert Waited(tr[j - 1].pr, tr[j - 1].last, tr[j].pr, tr[j].last, t0 + j);
    }
  }

  /** How many ticks it takes from a priority to the best one. */
  ghost function Patience(priority: int): nat
    decreases priority
  {
    if priority <= 0 then 0 else 300 + Patience(priority - AGING_BOOST)
  }

  /** That is 300 * ceil(p / 2) ticks. */
  lemma {:induction false} PatienceIs(p: nat)
    ensures Patience(p) == 300 * ((p + 1) / 2)
  {
    if p > 2 {
      PatienceIs(p - 2);
    }
  }

  /** A process left waiting has the best priority after that. */
  lemma {:induction false} WaitingEnds(tr: seq<View>, t0: nat, i: nat, k: nat)
    requires Waiting(tr, t0) && i < |tr| && tr[i].pr.priority >= 0 && k < |tr| && k >= i + Patience(tr[i].pr.priority)
    ensures tr[k].pr.priority == 0
    decreases |tr| - i
  {
    Punctual(tr, t0, i);
    if tr[i].pr.priority == 0 {
      StaysBest(tr, t0, i, k);
    } else {
      var j := OneBoost(tr, t0, i);
      WaitingEnds(tr, t0, j, k);
    }
  }

  /** The scheduler with what its queues hold. */
  datatype State = State(m: Sched, qs: seq<seq<Addr>>)

  /** Process `x` is queued. */
  ghost predicate Waits(a: State, x: Addr)
  {
    Valid(a.m, a.qs) && !Nowhere(a.qs, x) && x in a.m.procs
  }

  /** Whatever has happened to other processes, `x` is queued as before and there has been no
      aging. */
  ghost predicate Undisturbed(a: State, b: State, x: Addr)
  {
    Waits(a, x) && Waits(b, x) && b.m.procs[x] == a.m.procs[x] && b.m.lastAging == a.m.lastAging
  }

  /** A run of ticks that leaves `x` queued: `a[i]` is the state after tick t0 + i, and `b[i]`
      the one in which the next tick calls priority_aging. */
  ghost predicate Run(a: seq<State>, b: seq<State>, x: Addr, t0: nat)
  {
    && |a| == |b| + 1 && Waits(a[0], x) && a[0].m.procs[x].since <= t0
    && a[0].m.lastAging <= t0 < a[0].m.lastAging + AGING_INTERVAL
    && (forall i :: 0 <= i < |b| ==> Undisturbed(a[i], b[i], x))
    && (forall i, j :: 0 <= i < j < |a| && j == i + 1 ==> TickedAt(a, b, x, t0, i, j))
  }

  ghost predicate TickedAt(a: seq<State>, b: seq<State>, x: Addr, t0: nat, i: nat, j: nat)
    requires i < |b| && j < |a|
  {
    Waits(a[j], x) && Ticked(b[i].m, b[i].qs, t0 + j, a[j].m, a[j].qs)
  }

  /** A queued process is in the queue its priority names. */
  lemma {:induction false} InItsQueue(a: State, x: Addr)
    requires Waits(a, x)
    ensures 0 <= a.m.procs[x].priority < MAX_PRIORITIES && x in a.qs[a.m.procs[x].priority]
  {
    var i :| 0 <= i < |a.qs| && x in a.qs[i];
    assert a.m.procs[x].priority == i;
  }

  /** A process that stays queued is in queue 0 after that, whatever happens to the other
      processes. */
  lemma {:induction false} NoStarvation(a: seq<State>, b: seq<State>, x: Addr, t0: nat, k: nat)
    requires Run(a, b, x, t0) && k < |a| && k >= Patience(a[0].m.procs[x].priority)
    ensures Waits(a[k], x) && x in a[k].qs[0]
  {
    InItsQueue(a[0], x);
    forall i | 0 <= i < |a| ensures Waits(a[i], x) {
      if i > 0 { assert TickedAt(a, b, x, t0, i - 1, i); }
    }
    var tr := seq(|a|, i requires 0 <= i < |a| && Waits(a[i], x) => View(a[i].m.procs[x], a[i].m.lastAging));
    forall i, j | 0 <= i < j < |tr| && j == i + 1 ensures Waited(tr[i].pr, tr[i].last, tr[j].pr, tr[j].last, t0 + j) {
      assert Undisturbed(a[i], b[i], x) && TickedAt(a, b, x, t0, i, j);
    }
    WaitingEnds(tr, t0, 0, k);
    InItsQueue(a[k], x);
  }

  lemma {:induction false} Snoc<T>(s: seq<T>, x: T, r: seq<T>)
    requires r == s + [x]
    ensures |r| == |s| + 1 && r[|s|] == x && forall i :: 0 <= i < |s| ==> r[i] == s[i]
  {
  }

  lemma {:induction false} OneMoreTick(a: seq<State>, b: seq<State>, x: Addr, t0: nat, c: State, a': seq<State>,
                                       b': seq<State>)
    requires Run(a, b, x, t0) && Waits(a[|b|], x) && Waits(c, x) && Ticked(a[|b|].m, a[|b|].qs, t0 + |a|, c.m, c.qs)
    requires a' == a + [c] && b' == b + [a[|b|]]
    ensures Run(a', b', x, t0)
  {
    Snoc(a, c, a');
    Snoc(b, a[|b|], b');
    MoreUndisturbed(a, b, x, a', b');
    MoreTicked(a, b, x, t0, a', b');
  }

  lemma {:induction false} MoreUndisturbed(a: seq<State>, b: seq<State>, x: Addr, a': seq<State>, b': seq<State>)
    requires |a| == |b| + 1 && |a'| == |a| + 1 && |b'| == |a| && Undisturbed(a'[|b|], b'[|b|], x)
    requires (forall i :: 0 <= i < |a| ==> a'[i] == a[i]) && (forall i :: 0 <= i < |b| ==> b'[i] == b[i])
    requires forall i :: 0 <= i < |b| ==> Undisturbed(a[i], b[i], x)
    ensures forall i :: 0 <= i < |b'| ==> Undisturbed(a'[i], b'[i], x)
  {
  }

  lemma {:induction false} MoreTicked(a: seq<State>, b: seq<State>, x: Addr, t0: nat, a': seq<State>, b': seq<State>)
    requires |a| == |b| + 1 && |a'| == |a| + 1 && |b'| == |a|
    requires (forall i :: 0 <= i < |a| ==> a'[i] == a[i]) && (forall i :: 0 <= i < |b| ==> b'[i] == b[i])
    requires forall i, j :: 0 <= i < j < |a| && j == i + 1 ==> TickedAt(a, b, x, t0, i, j)
    requires TickedAt(a', b', x, t0, |b|, |a|)
    ensures forall i, j :: 0 <= i < j < |a'| && j == i + 1 ==> TickedAt(a', b', x, t0, i, j)
  {
    forall i, j | 0 <= i < j < |a'| && j == i + 1 ensures TickedAt(a', b', x, t0, i, j) {
      if j < |a| { assert TickedAt(a, b, x, t0, i, j); }
    }
  }

  /** Nothing but aging has happened since the first state, and `c` is the last one. */
  ghost predicate OnlyAging(a: seq<State>, b: seq<State>, t0: nat, c: State)
  {
    && |a| == |b| + 1 && a[|b|] == c && Valid(c.m, c.qs) && SameMembers(a[0].qs, c.qs)
    && forall x :: x in a[0].m.procs && !Nowhere(a[0].qs, x) ==> Run(a, b, x, t0) && Waits(c, x)
  }

  lemma {:induction false} AgingStarts(c: State, t0: nat)
    requires Valid(c.m, c.qs) && Clocked(c.m.procs, t0) && c.m.lastAging <= t0 < c.m.lastAging + AGING_INTERVAL
    ensures OnlyAging([c], [], t0, c)
  {
  }

  lemma {:induction false} AgingGoesOn(a: seq<State>, b: seq<State>, t0: nat, c: State, d: State)
    requires OnlyAging(a, b, t0, c) && Valid(d.m, d.qs) && Ticked(c.m, c.qs, t0 + |a|, d.m, d.qs)
    ensures OnlyAging(a + [d], b + [c], t0, d)
  {
    forall x | x in a[0].m.procs && !Nowhere(a[0].qs, x) ensures Run(a + [d], b + [c], x, t0) && Waits(d, x) {
      OneMoreTick(a, b, x, t0, d, a + [d], b + [c]);
    }
  }

  lemma {:induction false} AllInFront(a: seq<State>, b: seq<State>, t0: nat, c: State)
    requires OnlyAging(a, b, t0, c)
    ensures forall x :: x in a[0].m.procs && !Nowhere(a[0].qs, x) && |b| >= Patience(a[0].m.procs[x].priority) ==>
      x in c.qs[0]
  {
    forall x | x in a[0].m.procs && !Nowhere(a[0].qs, x) && |b| >= Patience(a[0].m.procs[x].priority)
      ensures x in c.qs[0]
    {
      NoStarvation(a, b, x, t0, |b|);
    }
  }

  /** priority_aging at the next tick of a run. */
  method AgeTick(m0: Sched, now: nat, ghost t0: nat, ghost a0: seq<State>, ghost b0: seq<State>,
                 ghost qs0: seq<seq<Addr>>)
    returns (m: Sched, ghost qs: seq<seq<Addr>>, ghost a: seq<State>, ghost b: seq<State>)
    requires OnlyAging(a0, b0, t0, State(m0, qs0)) && now == t0 + |a0| && Clocked(m0.procs, now) && m0.lastAging <= now
    ensures OnlyAging(a, b, t0, State(m, qs)) && |b| == |b0| + 1 && a[0] == a0[0] && Clocked(m.procs, now)
      && m.lastAging <= now
  {
    m, qs := Aging(m0, now, qs0);
    AgingGoesOn(a0, b0, t0, State(m0, qs0), State(m, qs));
    a, b := a0 + [State(m, qs)], b0 + [State(m0, qs0)];
  }

  lemma {:induction false} Later(procs: Procs, now: nat)
    requires Clocked(procs, now)
    ensures Clocked(procs, now + 1)
  {
  }

  /** priority_aging at each of `n` ticks: everybody who has had the time is in queue 0. */
  method AgeFor(m0: Sched, t0: nat, n: nat, ghost qs0: seq<seq<Addr>>) returns (m: Sched, ghost qs: seq<seq<Addr>>)
    requires Valid(m0, qs0) && Clocked(m0.procs, t0) && m0.lastAging <= t0 < m0.lastAging + AGING_INTERVAL
    ensures Valid(m, qs) && SameMembers(qs0, qs)
    ensures forall x :: x in m0.procs && !Nowhere(qs0, x) && n >= Patience(m0.procs[x].priority) ==> x in qs[0]
  {
    m, qs := m0, qs0;
    ghost var a: seq<State>, b: seq<State> := [State(m, qs)], [];
    var i: nat := 0;
    AgingStarts(State(m, qs), t0);
    while i < n
      invariant i <= n && i == |b| && OnlyAging(a, b, t0, State(m, qs)) && a[0] == State(m0, qs0)
      invariant Clocked(m.procs, t0 + i) && m.lastAging <= t0 + i
    {
      Later(m.procs, t0 + i);
      m, qs, a, b := AgeTick(m, t0 + i + 1, t0, a, b, qs);
      i := i + 1;
    }
    AllInFront(a, b, t0, State(m, qs));
  }
}

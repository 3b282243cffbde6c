/** kernel/process/cfs_sched.c and include/process/cfs_sched.h: the run queue of the
    completely fair scheduler, a red-black tree ordered by virtual run time.

    `CfsTheory` is about run queues as sequences of entities; `Cfs` is the run queue itself,
    whose methods are proved against those sequences.  Virtual times and clocks are
    unbounded.
 */
module CfsTheory {

  // ----- weights (sched_prio_to_weight and the inline conversions) -----

  const PRIO_TO_WEIGHT: seq<nat> := [
    88761, 71755, 56483, 46273, 36291, 29154, 23254, 18705, 14949, 11916,
    9548, 7620, 6100, 4904, 3906, 3121, 2501, 1991, 1586, 1277,
    1024, 820, 655, 526, 423, 335, 272, 215, 172, 137,
    110, 87, 70, 56, 45, 36, 29, 23, 18, 15]

  function NiceToWeight(nice: int): nat
  {
    var idx := nice + 20;
    PRIO_TO_WEIGHT[if idx < 0 then 0 else if idx > 39 then 39 else idx]
  }

  function PrioToNice(prio: int): int { prio - 120 }

  function NiceToPrio(nice: int): int { nice + 120 }

  function ClampNice(nice: int): int
  {
    if nice < -20 then -20 else if nice > 19 then 19 else nice
  }

  /** Nicer means lighter, all weights lie between 15 and 88761, and the detour through the
      static priority in cfs_set_task_nice loses nothing. */
  lemma {:induction false} Weights(a: int, b: int)
    ensures 15 <= NiceToWeight(a) <= 88761
    ensures a <= b ==> NiceToWeight(a) >= NiceToWeight(b)
    ensures -20 <= a < b <= 19 ==> NiceToWeight(a) > NiceToWeight(b)
    ensures NiceToWeight(PrioToNice(NiceToPrio(ClampNice(a)))) == NiceToWeight(a)
    ensures NiceToWeight(-20) == 88761 && NiceToWeight(0) == 1024 && NiceToWeight(19) == 15
  {
    TableDecreases(if a < -20 then 0 else if a > 19 then 39 else a + 20,
                   if b < -20 then 0 else if b > 19 then 39 else b + 20);
  }

  lemma {:induction false} TableStep(k: nat)
    requires k < 39
    ensures 6 * PRIO_TO_WEIGHT[k + 1] <= 5 * PRIO_TO_WEIGHT[k] && 25 * PRIO_TO_WEIGHT[k] <= 32 * PRIO_TO_WEIGHT[k + 1]
    ensures PRIO_TO_WEIGHT[k] > PRIO_TO_WEIGHT[k + 1]
  {
  }

  /** A nice level is worth a factor of 1.2 to 1.28. */
  lemma {:induction false} LevelStep(nice: int)
    requires -20 <= nice < 19
    ensures 6 * NiceToWeight(nice + 1) <= 5 * NiceToWeight(nice)
    ensures 25 * NiceToWeight(nice) <= 32 * NiceToWeight(nice + 1)
  {
    TableStep(nice + 20);
  }

  lemma {:induction false} TableDecreases(i: nat, j: nat)
    requires i < 40 && j < 40
    ensures 15 <= PRIO_TO_WEIGHT[i] <= 88761
    ensures i < j ==> PRIO_TO_WEIGHT[i] > PRIO_TO_WEIGHT[j]
    decreases j
  {
    if i < j {
      TableStep(j - 1);
      TableDecreases(i, j - 1);
    }
  }

  // ----- run queues as sequences -----

  /** What the scheduler knows about a queued task: its virtual and real run time, its
      weight, the virtual time a tick costs it and the number of enqueues before it joined. */
  datatype Entity<P> = Entity(task: P, vruntime: nat, exec: nat, weight: nat, step: nat, ticket: nat)

  ghost predicate Precedes<P>(a: Entity<P>, b: Entity<P>)
  {
    a.vruntime < b.vruntime || (a.vruntime == b.vruntime && a.ticket < b.ticket)
  }

  /** Least virtual run time first, and among equals the one that joined first. */
  ghost predicate Ordered<P>(q: seq<Entity<P>>)
  {
    forall i, j :: 0 <= i < j < |q| ==> Precedes(q[i], q[j])
  }

  ghost function TotalWeight<P>(q: seq<Entity<P>>): nat
  {
    if q == [] then 0 else q[0].weight + TotalWeight(q[1..])
  }

  lemma {:induction false} TotalWeightConcat<P>(a: seq<Entity<P>>, b: seq<Entity<P>>)
    ensures TotalWeight(a + b) == TotalWeight(a) + TotalWeight(b)
  {
    if a == [] {
      assert a + b == b;
    } else {
      assert (a + b)[1..] == a[1..] + b;
      TotalWeightConcat(a[1..], b);
    }
  }

  // ----- virtual time -----

  /** One timer tick, in nanoseconds. */
  const TICK: nat := 1000000

  /** cfs_calc_delta_fair */
  function DeltaFair(delta: nat, weight: nat): nat
    requires weight > 0
  {
    if weight == 1024 then delta else delta * 1024 / weight
  }

  /** Virtual time runs in inverse proportion to the weight, 1024 being the unit, rounded down. */
  lemma {:induction false} DeltaFairExact(delta: nat, weight: nat)
    requires weight > 0
    ensures DeltaFair(delta, weight) * weight <= 1024 * delta < (DeltaFair(delta, weight) + 1) * weight
  {
    var (n, q) := (delta * 1024, DeltaFair(delta, weight));
    if weight != 1024 {
      assert n == q * weight + n % weight;
      assert (q + 1) * weight == q * weight + weight;
    }
  }

  /** The lightest weight of the table makes virtual time run fastest. */
  lemma {:induction false} DeltaFairBound(weight: nat)
    requires 15 <= weight <= 88761
    ensures 0 < DeltaFair(TICK, weight) <= 1000000 * 1024 / 15 == 68266666
  {
    Quotient(1024000000, weight, 1024000000 / weight);
  }

  lemma {:induction false} Quotient(n: nat, w: nat, q: nat)
    requires 15 <= w <= n && q == n / w
    ensures 0 < q && q * 15 <= n
  {
    assert q * w <= n < q * w + w;
    Product(q, w);
  }

  lemma {:induction false} Product(q: nat, w: nat)
    requires 15 <= w
    ensures q * 15 <= q * w
  {
  }

  // ----- fairness -----

  /** Stable insertion by virtual run time: behind every task that is not ahead in time. */
  ghost function Insert<P>(q: seq<Entity<P>>, e: Entity<P>): seq<Entity<P>>
  {
    if q == [] then [e]
    else if q[0].vruntime <= e.vruntime then [q[0]] + Insert(q[1..], e)
    else [e] + q
  }

  lemma {:induction false} InsertSplits<P>(a: seq<Entity<P>>, b: seq<Entity<P>>, e: Entity<P>)
    requires forall x :: x in a ==> x.vruntime <= e.vruntime
    requires b != [] ==> e.vruntime < b[0].vruntime
    ensures Insert(a + b, e) == a + [e] + b
  {
    if a == [] {
      assert a + b == b;
      assert a + [e] + b == [e] + b;
    } else {
      var s := a + b;
      assert a[0] in a && s[0] == a[0] && s[1..] == a[1..] + b;
      InsertSplits(a[1..], b, e);
      assert a + [e] + b == [a[0]] + (a[1..] + [e] + b);
    }
  }

  lemma {:induction false} InsertMembers<P>(q: seq<Entity<P>>, e: Entity<P>)
    ensures multiset(Insert(q, e)) == multiset(q) + multiset{e}
  {
    if q != [] {
      assert q == [q[0]] + q[1..];
      if q[0].vruntime <= e.vruntime { InsertMembers(q[1..], e); }
    }
  }

  /** A joining task keeps the queue ordered. */
  lemma {:induction false} InsertOrdered<P>(q: seq<Entity<P>>, e: Entity<P>)
    requires Ordered(q) && forall x :: x in q ==> x.ticket < e.ticket
    ensures Ordered(Insert(q, e))
  {
    if q != [] && q[0].vruntime <= e.vruntime {
      var r := Insert(q[1..], e);
      InsertOrdered(q[1..], e);
      InsertMembers(q[1..], e);
      forall x | x in r ensures Precedes(q[0], x) {
        assert x in multiset(r);
        assert q[0] in q;
        if x != e {
          assert x in q[1..];
          var j :| 0 <= j < |q[1..]| && q[1..][j] == x;
          assert Precedes(q[0], q[j + 1]);
        }
      }
    } else if q != [] {
      forall j | 0 <= j < |q| ensures Precedes(e, q[j]) {
        assert j > 0 ==> Precedes(q[0], q[j]);
      }
    }
  }

  /** One scheduling round: the first task runs for a tick and joins again. */
  ghost function Tick<P>(q: seq<Entity<P>>, ticket: nat): seq<Entity<P>>
    requires q != []
  {
    Insert(q[1..], Ran(q[0], ticket))
  }

  ghost function Ran<P>(e: Entity<P>, ticket: nat): Entity<P>
  {
    e.(vruntime := e.vruntime + e.step, exec := e.exec + TICK, ticket := ticket)
  }

  /** No two virtual run times are further apart than `d`. */
  ghost predicate Spread<P>(q: seq<Entity<P>>, d: nat)
  {
    forall x, y :: x in q && y in q ==> x.vruntime <= y.vruntime + d
  }

  /** And no single tick adds more than `d`. */
  ghost predicate Fair<P>(q: seq<Entity<P>>, d: nat)
  {
    Spread(q, d) && forall x :: x in q ==> x.step <= d
  }

  ghost predicate Tickets<P>(q: seq<Entity<P>>, ticket: nat)
  {
    forall x :: x in q ==> x.ticket < ticket
  }

  lemma {:induction false} TickMember<P>(q: seq<Entity<P>>, ticket: nat, x: Entity<P>)
    requires q != []
    ensures x in Tick(q, ticket) <==> x in q[1..] || x == Ran(q[0], ticket)
    ensures x in q[1..] ==> exists j :: 0 < j < |q| && q[j] == x
    ensures Tick(q, ticket) != []
  {
    var e := Ran(q[0], ticket);
    InsertMembers(q[1..], e);
    assert x in Tick(q, ticket) <==> x in multiset(Tick(q, ticket));
    assert x in q[1..] <==> x in multiset(q[1..]);
    assert e in multiset(Tick(q, ticket));
    if x in q[1..] {
      var i :| 0 <= i < |q[1..]| && q[1..][i] == x;
      assert q[i + 1] == x;
    }
  }

  /** Who is in the queue after a round: the task that ran, and who stood behind it. */
  lemma {:induction false} Follows<P>(q: seq<Entity<P>>, ticket: nat, x: Entity<P>)
    requires q != [] && Ordered(q) && x in Tick(q, ticket)
    ensures q[0] in q && (x == Ran(q[0], ticket) || (x in q && q[0].vruntime <= x.vruntime))
  {
    TickMember(q, ticket, x);
    if x in q[1..] {
      var j :| 0 < j < |q| && q[j] == x;
      assert Precedes(q[0], q[j]);
    }
  }

  lemma {:induction false} TickOrdered<P>(q: seq<Entity<P>>, ticket: nat, r: seq<Entity<P>>)
    requires q != [] && Ordered(q) && Tickets(q, ticket) && r == Tick(q, ticket)
    ensures Ordered(r) && Tickets(r, ticket + 1)
  {
    InsertOrdered(q[1..], Ran(q[0], ticket));
    forall x | x in r ensures x.ticket < ticket + 1 {
      TickMember(q, ticket, x);
    }
  }

  lemma {:induction false} TickFair<P>(q: seq<Entity<P>>, ticket: nat, d: nat, r: seq<Entity<P>>)
    requires q != [] && Ordered(q) && Tickets(q, ticket) && Fair(q, d) && r == Tick(q, ticket)
    ensures r != [] && Ordered(r) && Tickets(r, ticket + 1) && Fair(r, d)
  {
    TickOrdered(q, ticket, r);
    TickMember(q, ticket, Ran(q[0], ticket));
    forall x | x in r ensures q[0].vruntime <= x.vruntime <= q[0].vruntime + d && x.step <= d {
      Follows(q, ticket, x);
    }
  }

  /** A run of rounds: the queue between every two of them. */
  ghost predicate Schedule<P>(qs: seq<seq<Entity<P>>>, ticket: nat)
  {
    && (forall i :: 0 <= i < |qs| ==> qs[i] != [])
    && (forall i :: 0 < i < |qs| ==> qs[i] == Tick(qs[i - 1], ticket + i - 1))
  }

  /** Over every run of rounds the spread of virtual run times stays within the largest
      increment of a tick. */
  lemma {:induction false} FairRun<P>(qs: seq<seq<Entity<P>>>, ticket: nat, d: nat, k: nat)
    requires Schedule(qs, ticket) && k < |qs|
    requires Ordered(qs[0]) && Tickets(qs[0], ticket) && Fair(qs[0], d)
    ensures Ordered(qs[k]) && Tickets(qs[k], ticket + k) && Fair(qs[k], d)
    decreases k
  {
    if k > 0 {
      FairRun(qs, ticket, d, k - 1);
      TickFair(qs[k - 1], ticket + k - 1, d, qs[k]);
    }
  }

  lemma {:induction false} StaysSpread<P>(qs: seq<seq<Entity<P>>>, ticket: nat, d: nat)
    requires Schedule(qs, ticket) && qs != [] && Ordered(qs[0]) && Tickets(qs[0], ticket)
    requires forall x :: x in qs[0] ==> x.step <= d
    ensures Spread(qs[0], d) ==> forall k :: 0 <= k < |qs| ==> Spread(qs[k], d)
  {
    if Spread(qs[0], d) {
      forall k | 0 <= k < |qs| ensures Spread(qs[k], d) {
        FairRun(qs, ticket, d, k);
      }
    }
  }

  /** A run of `i` rounds from `first` to `last`. */
  ghost predicate Recorded<P>(qs: seq<seq<Entity<P>>>, ticket: nat, i: nat, first: seq<Entity<P>>, last: seq<Entity<P>>)
  {
    |qs| == i + 1 && qs[0] == first && qs[i] == last && Schedule(qs, ticket)
  }

  lemma {:induction false} RecordedMore<P>(qs: seq<seq<Entity<P>>>, ticket: nat, i: nat, first: seq<Entity<P>>,
                                           last: seq<Entity<P>>, t: nat, q: seq<Entity<P>>)
    requires Recorded(qs, ticket, i, first, last) && last != [] && t == ticket + i && q == Tick(last, t)
    ensures Recorded(qs + [q], ticket, i + 1, first, q) && q != []
  {
    TickMember(last, ticket + i, Ran(last[0], ticket));
  }

  /** Entity `x`, whose virtual time grows by `d` a tick, has run `m` ticks since it had
      virtual time `v` and run time `e`. */
  ghost predicate RanTicks<P>(x: Entity<P>, v: nat, e: nat, d: nat, m: nat)
  {
    x.step == d && x.vruntime == v + m * d && x.exec == e + m * TICK
  }

  lemma {:induction false} OneMoreTick<P>(x: Entity<P>, ticket: nat, v: nat, e: nat, d: nat, m: nat)
    requires RanTicks(x, v, e, d, m)
    ensures RanTicks(Ran(x, ticket), v, e, d, m + 1)
  {
    assert (m + 1) * d == m * d + d;
  }

  lemma {:induction false} Ahead(m: nat, n: nat, d: nat)
    requires d > 0 && m > n
    ensures m * d > n * d
  {
    assert m * d == n * d + (m - n) * d;
  }

  ghost predicate OneOf<P>(x: Entity<P>, a: P, b: P)
  {
    x.task == a || x.task == b
  }

  /** The tasks `a` and `b` have the same weight, virtual time and run time. */
  ghost predicate Level<P>(q: seq<Entity<P>>, a: P, b: P)
  {
    forall x, y :: x in q && y in q && OneOf(x, a, b) && OneOf(y, a, b) ==>
      x.weight == y.weight && x.vruntime == y.vruntime && x.exec == y.exec
  }

  /** The run times of `a` and `b` differ by at most a tick. */
  ghost predicate Even<P>(q: seq<Entity<P>>, a: P, b: P)
  {
    forall x, y :: x in q && y in q && OneOf(x, a, b) && OneOf(y, a, b) ==> x.exec <= y.exec + TICK
  }

  /** Even, with `a` and `b` having started at `v` and `e`. */
  ghost predicate InStep<P>(q: seq<Entity<P>>, a: P, b: P, v: nat, e: nat, d: nat)
  {
    Even(q, a, b) && forall x :: x in q && OneOf(x, a, b) ==> exists m: nat :: RanTicks(x, v, e, d, m)
  }

  /** The first task runs a tick ahead of nobody who was level with it. */
  lemma {:induction false} RanInStep<P>(f: Entity<P>, y: Entity<P>, t: nat, v: nat, e: nat, d: nat, m: nat, n: nat)
    requires d > 0 && RanTicks(f, v, e, d, m) && RanTicks(y, v, e, d, n) && f.vruntime <= y.vruntime
      && y.exec <= f.exec + TICK
    ensures Ran(f, t).exec <= y.exec + TICK && y.exec <= Ran(f, t).exec + TICK
  {
    if m > n { Ahead(m, n, d); }
  }

  lemma {:induction false} TickInStep<P>(q: seq<Entity<P>>, ticket: nat, a: P, b: P, v: nat, e: nat, d: nat,
                                         r: seq<Entity<P>>)
    requires q != [] && Ordered(q) && InStep(q, a, b, v, e, d) && d > 0 && r == Tick(q, ticket)
    ensures InStep(r, a, b, v, e, d)
  {
    var f := q[0];
    forall x | x in r && OneOf(x, a, b) ensures exists m: nat :: RanTicks(x, v, e, d, m) {
      Follows(q, ticket, x);
      if x == Ran(f, ticket) {
        var m: nat :| RanTicks(f, v, e, d, m);
        OneMoreTick(f, ticket, v, e, d, m);
      }
    }
    forall x, y | x in r && y in r && OneOf(x, a, b) && OneOf(y, a, b) ensures x.exec <= y.exec + TICK {
      TickPair(q, ticket, a, b, v, e, d, x, y);
    }
  }

  lemma {:induction false} TickPair<P>(q: seq<Entity<P>>, ticket: nat, a: P, b: P, v: nat, e: nat, d: nat,
                                       x: Entity<P>, y: Entity<P>)
    requires q != [] && Ordered(q) && InStep(q, a, b, v, e, d) && d > 0
    requires x in Tick(q, ticket) && y in Tick(q, ticket) && OneOf(x, a, b) && OneOf(y, a, b)
    ensures x.exec <= y.exec + TICK
  {
    var f := q[0];
    Follows(q, ticket, x);
    Follows(q, ticket, y);
    if x == Ran(f, ticket) && y != x {
      var m: nat :| RanTicks(f, v, e, d, m);
      var n: nat :| RanTicks(y, v, e, d, n);
      RanInStep(f, y, ticket, v, e, d, m, n);
    } else if y == Ran(f, ticket) && y != x {
      var m: nat :| RanTicks(f, v, e, d, m);
      var n: nat :| RanTicks(x, v, e, d, n);
      RanInStep(f, x, ticket, v, e, d, m, n);
    }
  }

  lemma {:induction false} RunOrdered<P>(qs: seq<seq<Entity<P>>>, ticket: nat, k: nat)
    requires Schedule(qs, ticket) && k < |qs| && Ordered(qs[0]) && Tickets(qs[0], ticket)
    ensures Ordered(qs[k]) && Tickets(qs[k], ticket + k)
    decreases k
  {
    if k > 0 {
      RunOrdered(qs, ticket, k - 1);
      TickOrdered(qs[k - 1], ticket + k - 1, qs[k]);
    }
  }

  lemma {:induction false} RunInStep<P>(qs: seq<seq<Entity<P>>>, ticket: nat, a: P, b: P, v: nat, e: nat, d: nat,
                                        k: nat)
    requires Schedule(qs, ticket) && k < |qs| && Ordered(qs[0]) && Tickets(qs[0], ticket) && d > 0
      && InStep(qs[0], a, b, v, e, d)
    ensures InStep(qs[k], a, b, v, e, d)
    decreases k
  {
    if k > 0 {
      var j := k - 1;
      RunInStep(qs, ticket, a, b, v, e, d, j);
      RunOrdered(qs, ticket, j);
      TickInStep(qs[j], ticket + j, a, b, v, e, d, qs[k]);
    }
  }

  /** What a tick costs goes by the weight. */
  ghost predicate ByWeight<P>(q: seq<Entity<P>>)
  {
    && (forall x :: x in q ==> x.step > 0)
    && (forall x, y :: x in q && y in q && x.weight == y.weight ==> x.step == y.step)
  }

  /** Two tasks of equal weight that start level never differ by more than one tick of run
      time, after any number of rounds and whoever else is in the queue. */
  lemma {:induction false} EqualShares<P>(qs: seq<seq<Entity<P>>>, ticket: nat, a: P, b: P, k: nat)
    requires Schedule(qs, ticket) && k < |qs| && Ordered(qs[0]) && Tickets(qs[0], ticket) && ByWeight(qs[0])
      && Level(qs[0], a, b)
    ensures Even(qs[k], a, b)
  {
    var q := qs[0];
    if x :| x in q && OneOf(x, a, b) {
      forall y | y in q && OneOf(y, a, b) ensures exists m: nat :: RanTicks(y, x.vruntime, x.exec, x.step, m) {
        assert RanTicks(y, x.vruntime, x.exec, x.step, 0);
      }
      RunInStep(qs, ticket, a, b, x.vruntime, x.exec, x.step, k);
    } else {
      RunInStep(qs, ticket, a, b, 0, 0, 1, k);
    }
  }

  // ----- shares by weight -----

  /** What a tick costs is in inverse proportion to the weight, rounded down. */
  ghost predicate Costed<P>(x: Entity<P>)
  {
    x.weight > 0 && x.step * x.weight <= 1024 * TICK < (x.step + 1) * x.weight
  }

  /** The tasks `a` and `b` have the same virtual time and have run for `e`. */
  ghost predicate Abreast<P>(q: seq<Entity<P>>, a: P, b: P, e: nat)
  {
    forall x, y :: x in q && y in q && OneOf(x, a, b) && OneOf(y, a, b) ==> x.vruntime == y.vruntime && x.exec == e
  }

  /** Since both had run for `e`, the run time of `x` for its weight is at most that of `y` for its
      own and one tick more, but for the rounding: p / x.weight <= q / y.weight + TICK / x.weight
      + p / (1024 * TICK) if p and q are these run times. */
  ghost predicate FairShare<P>(x: Entity<P>, y: Entity<P>, e: nat)
  {
    var (p, q, unit) := (x.exec - e, y.exec - e, 1024 * TICK);
    unit * (p * y.weight) <= unit * (q * x.weight + TICK * y.weight) + p * (x.weight * y.weight)
  }

  ghost predicate Proportional<P>(q: seq<Entity<P>>, a: P, b: P, e: nat)
  {
    forall x, y :: x in q && y in q && OneOf(x, a, b) && OneOf(y, a, b) ==> FairShare(x, y, e)
  }

  /** The tasks `a` and `b` have run since `v` and `e`, and neither is a tick of its own ahead. */
  ghost predicate Paced<P>(q: seq<Entity<P>>, a: P, b: P, v: nat, e: nat)
  {
    && (forall x :: x in q && OneOf(x, a, b) ==> Costed(x) && exists m: nat :: RanTicks(x, v, e, x.step, m))
    && (forall x, y :: x in q && y in q && OneOf(x, a, b) && OneOf(y, a, b) ==> x.vruntime <= y.vruntime + x.step)
  }

  lemma {:induction false} TickPaced<P>(q: seq<Entity<P>>, ticket: nat, a: P, b: P, v: nat, e: nat, r: seq<Entity<P>>)
    requires q != [] && Ordered(q) && Paced(q, a, b, v, e) && r == Tick(q, ticket)
    ensures Paced(r, a, b, v, e)
  {
    var f := q[0];
    forall x | x in r && OneOf(x, a, b) ensures Costed(x) && exists m: nat :: RanTicks(x, v, e, x.step, m) {
      Follows(q, ticket, x);
      if x == Ran(f, ticket) {
        var m: nat :| RanTicks(f, v, e, f.step, m);
        OneMoreTick(f, ticket, v, e, f.step, m);
      }
    }
    forall x, y | x in r && y in r && OneOf(x, a, b) && OneOf(y, a, b) ensures x.vruntime <= y.vruntime + x.step {
      Follows(q, ticket, x);
      Follows(q, ticket, y);
    }
  }

  lemma {:induction false} RunPaced<P>(qs: seq<seq<Entity<P>>>, ticket: nat, a: P, b: P, v: nat, e: nat, k: nat)
    requires Schedule(qs, ticket) && k < |qs| && Ordered(qs[0]) && Tickets(qs[0], ticket) && Paced(qs[0], a, b, v, e)
    ensures Paced(qs[k], a, b, v, e)
    decreases k
  {
    if k > 0 {
      var j := k - 1;
      RunPaced(qs, ticket, a, b, v, e, j);
      RunOrdered(qs, ticket, j);
      TickPaced(qs[j], ticket + j, a, b, v, e, qs[k]);
    }
  }

  /** With `m` ticks at cost `c` against `n` ticks at cost `d`, the weights being `w` and `z`. */
  lemma {:induction false} TicksByWeight(m: nat, n: nat, c: nat, d: nat, w: nat, z: nat, unit: nat)
    requires m * c <= n * d + c && c * w <= unit < (c + 1) * w && d * z <= unit
    ensures unit * (m * z) <= unit * (n * w + z) + m * (w * z)
  {
    calc {
      unit * (m * z);
    <= { Scaled(unit, (c + 1) * w, m * z); }
      (c + 1) * w * (m * z);
    == { Regroup(c, w, m, z); }
      m * c * (w * z) + m * (w * z);
    <= { Scaled(m * c, n * d + c, w * z); }
      (n * d + c) * (w * z) + m * (w * z);
    == { Regroup2(n, d, c, w, z); }
      d * z * (n * w) + c * w * z + m * (w * z);
    <= { Scaled(d * z, unit, n * w); Scaled(c * w, unit, z); }
      unit * (n * w) + unit * z + m * (w * z);
    == { assert unit * (n * w + z) == unit * (n * w) + unit * z; }
      unit * (n * w + z) + m * (w * z);
    }
  }

  lemma {:induction false} Scaled(a: nat, b: nat, k: nat)
    requires a <= b
    ensures a * k <= b * k
  {
  }

  lemma {:induction false} Regroup(c: nat, w: nat, m: nat, z: nat)
    ensures (c + 1) * w * (m * z) == m * c * (w * z) + m * (w * z)
  {
    assert (c + 1) * w == c * w + w;
    assert (c * w + w) * (m * z) == c * w * (m * z) + w * (m * z);
    assert c * w * (m * z) == m * c * (w * z);
    assert w * (m * z) == m * (w * z);
  }

  lemma {:induction false} Regroup2(n: nat, d: nat, c: nat, w: nat, z: nat)
    ensures (n * d + c) * (w * z) == d * z * (n * w) + c * w * z
  {
    assert (n * d + c) * (w * z) == n * d * (w * z) + c * (w * z);
    assert n * d * (w * z) == d * z * (n * w);
    assert c * (w * z) == c * w * z;
  }

  /** The same in run time. */
  lemma {:induction false} TimesByWeight(m: nat, n: nat, w: nat, z: nat, unit: nat)
    requires unit * (m * z) <= unit * (n * w + z) + m * (w * z)
    ensures var (p, q) := (m * TICK, n * TICK);
      unit * (p * z) <= unit * (q * w + TICK * z) + p * (w * z)
  {
    Scaled(unit * (m * z), unit * (n * w + z) + m * (w * z), TICK);
    assert unit * (m * z) * TICK == unit * (m * TICK * z);
    assert unit * (n * w + z) * TICK == unit * ((n * w + z) * TICK);
    assert (n * w + z) * TICK == n * TICK * w + TICK * z;
    assert m * (w * z) * TICK == m * TICK * (w * z);
  }

  /** Two tasks that start level share the time in proportion to their weights, after any number of
      rounds and whoever else is in the queue. */
  lemma {:induction false} SharesByWeight<P>(qs: seq<seq<Entity<P>>>, ticket: nat, a: P, b: P, e: nat, k: nat)
    requires Schedule(qs, ticket) && k < |qs| && Ordered(qs[0]) && Tickets(qs[0], ticket) && Abreast(qs[0], a, b, e)
    requires forall x :: x in qs[0] ==> Costed(x)
    ensures Proportional(qs[k], a, b, e)
  {
    var q := qs[0];
    if f :| f in q && OneOf(f, a, b) {
      forall x | x in q && OneOf(x, a, b) ensures exists m: nat :: RanTicks(x, f.vruntime, e, x.step, m) {
        assert RanTicks(x, f.vruntime, e, x.step, 0);
      }
      RunPaced(qs, ticket, a, b, f.vruntime, e, k);
      PacedShares(qs[k], a, b, f.vruntime, e);
    } else {
      RunPaced(qs, ticket, a, b, 0, e, k);
      PacedShares(qs[k], a, b, 0, e);
    }
  }

  lemma {:induction false} PacedShares<P>(q: seq<Entity<P>>, a: P, b: P, v: nat, e: nat)
    requires Paced(q, a, b, v, e)
    ensures Proportional(q, a, b, e)
  {
    forall x, y | x in q && y in q && OneOf(x, a, b) && OneOf(y, a, b) ensures FairShare(x, y, e) {
      var m: nat :| RanTicks(x, v, e, x.step, m);
      var n: nat :| RanTicks(y, v, e, y.step, n);
      TicksByWeight(m, n, x.step, y.step, x.weight, y.weight, 1024 * TICK);
      TimesByWeight(m, n, x.weight, y.weight, 1024 * TICK);
    }
  }

  // ----- leaving the queue -----

  ghost function Gone<P>(q: seq<Entity<P>>, p: P): seq<Entity<P>>
  {
    if q == [] then [] else if q[0].task == p then q[1..] else [q[0]] + Gone(q[1..], p)
  }

  lemma {:induction false} GoneMembers<P>(q: seq<Entity<P>>, p: P)
    ensures multiset(Gone(q, p)) <= multiset(q)
  {
    if q != [] {
      assert q == [q[0]] + q[1..];
      if q[0].task != p { GoneMembers(q[1..], p); }
    }
  }

  lemma {:induction false} GoneOrdered<P>(q: seq<Entity<P>>, p: P)
    requires Ordered(q)
    ensures Ordered(Gone(q, p))
  {
    if q != [] && q[0].task != p {
      var r := Gone(q[1..], p);
      GoneOrdered(q[1..], p);
      GoneMembers(q[1..], p);
      forall x | x in r ensures Precedes(q[0], x) {
        assert x in multiset(r);
        assert x in q[1..];
        var j :| 0 <= j < |q[1..]| && q[1..][j] == x;
        assert Precedes(q[0], q[j + 1]);
      }
    }
  }

  lemma {:induction false} GoneCounts<P>(q: seq<Entity<P>>, k: nat)
    requires k < |q|
    ensures |Gone(q, q[k].task)| == |q| - 1
    ensures (forall i :: 0 <= i < k ==> q[i].task != q[k].task) ==>
      TotalWeight(q) == TotalWeight(Gone(q, q[k].task)) + q[k].weight
  {
    var p := q[k].task;
    if q[0].task != p {
      GoneCounts(q[1..], k - 1);
      if forall i :: 0 <= i < k ==> q[i].task != p {
        forall i | 0 <= i < k - 1 ensures q[1..][i].task != p { assert q[i + 1].task != p; }
      }
      assert TotalWeight(Gone(q, p)) == q[0].weight + TotalWeight(Gone(q, p)[1..]);
    }
  }

  // ----- the monotone clock -----

  /** min_vruntime after it has been brought up to the first task. */
  ghost function NextMin<P>(q: seq<Entity<P>>, min: nat): nat
  {
    if q != [] && q[0].vruntime > min then q[0].vruntime else min
  }

  /** Every queued virtual run time is at least `min`. */
  ghost predicate Bounded<P>(q: seq<Entity<P>>, min: nat)
  {
    forall i :: 0 <= i < |q| ==> min <= q[i].vruntime
  }

  /** The clock never runs back, and moving it up never overtakes a queued task. */
  lemma {:induction false} NextMinBounds<P>(q: seq<Entity<P>>, min: nat)
    requires Ordered(q)
    ensures NextMin(q, min) >= min
    ensures Bounded(q, min) <==> Bounded(q, NextMin(q, min))
  {
    forall i | 0 < i < |q| ensures q[0].vruntime <= q[i].vruntime { assert Precedes(q[0], q[i]); }
  }

  lemma {:induction false} BoundedMembers<P>(q: seq<Entity<P>>, min: nat)
    ensures Bounded(q, min) <==> forall x :: x in q ==> min <= x.vruntime
  {
    if Bounded(q, min) {
      forall x | x in q ensures min <= x.vruntime { var i :| 0 <= i < |q| && q[i] == x; }
    }
  }

  /** A joining task keeps the bound exactly when it is not behind the clock itself. */
  lemma {:induction false} InsertBounded<P>(q: seq<Entity<P>>, e: Entity<P>, min: nat)
    ensures Bounded(Insert(q, e), min) <==> Bounded(q, min) && min <= e.vruntime
  {
    InsertMembers(q, e);
    BoundedMembers(q, min);
    var r := Insert(q, e);
    BoundedMembers(r, min);
    assert e in multiset(r);
    forall x | x in q ensures x in r { assert x in multiset(r); }
    forall x | x in r ensures x in q || x == e { assert x in multiset(r); }
  }

  lemma {:induction false} GoneBounded<P>(q: seq<Entity<P>>, p: P, min: nat)
    requires Bounded(q, min)
    ensures Bounded(Gone(q, p), min)
  {
    GoneMembers(q, p);
    BoundedMembers(q, min);
    forall x | x in Gone(q, p) ensures x in q {
      assert x in multiset(Gone(q, p));
    }
    BoundedMembers(Gone(q, p), min);
  }

  /** A scheduling round leaves the clock below every task exactly when the task that ran
      is not overtaken by its successor: without cfs_task_waking the bound can be lost. */
  lemma {:induction false} TickBounded<P>(q: seq<Entity<P>>, ticket: nat, min: nat)
    requires q != [] && Ordered(q) && Bounded(q, min)
    ensures Bounded(Tick(q, ticket), NextMin(q[1..], min)) <==> |q| == 1 || q[1].vruntime <= q[0].vruntime + q[0].step
  {
    var m := NextMin(q[1..], min);
    forall i | 0 <= i < |q[1..]| ensures min <= q[1..][i].vruntime { assert min <= q[i + 1].vruntime; }
    assert Ordered(q[1..]);
    NextMinBounds(q[1..], min);
    InsertBounded(q[1..], Ran(q[0], ticket), m);
    assert min <= q[0].vruntime;
    if |q| > 1 { assert q[1..][0] == q[1] && Precedes(q[0], q[1]); }
  }

  lemma {:induction false} TickUnbounded(p: int, r: int)
    ensures exists q: seq<Entity<int>> ::
        |q| == 2 && Ordered(q) && Bounded(q, 0) && !Bounded(Tick(q, 2), NextMin(q[1..], 0))
  {
    var q := [Entity(p, 0, 0, 1024, TICK, 0), Entity(r, 2 * TICK, 0, 1024, TICK, 1)];
    TickBounded(q, 2, 0);
    assert |q| == 2 && Ordered(q) && Bounded(q, 0) && !Bounded(Tick(q, 2), NextMin(q[1..], 0));
  }
}

/** The run queue itself.  A process is named by the address of the tree node inside it. */
module Cfs {
  import opened Machine
  import opened Sequences
  import opened Bits
  import opened RbTheory
  import opened RbTree
  import opened CfsTheory

  /** The scheduling fields of a process (struct sched_entity and the nice values). */
  datatype Sched = Sched(vruntime: nat, sumExec: nat, weight: nat, nice: int, staticPriority: int)

  type Table = map<Addr, Sched>

  ghost function EntityOf(p: Addr, e: Sched, ticket: nat): Entity<Addr>
  {
    Entity(p, e.vruntime, e.sumExec, e.weight, if e.weight == 0 then 0 else DeltaFair(TICK, e.weight), ticket)
  }

  ghost function Lookup(p: Addr, se: Table, tickets: map<Addr, nat>): Entity<Addr>
  {
    EntityOf(p, if p in se then se[p] else Sched(0, 0, 0, 0, 0), if p in tickets then tickets[p] else 0)
  }

  /** The queue as a sequence of entities. */
  ghost function View(s: seq<Addr>, se: Table, tickets: map<Addr, nat>): (v: seq<Entity<Addr>>)
    ensures |v| == |s| && forall i :: 0 <= i < |s| ==> v[i] == Lookup(s[i], se, tickets)
  {
    if s == [] then [] else [Lookup(s[0], se, tickets)] + View(s[1..], se, tickets)
  }

  /** The queued tasks `ns` have positive weights and tickets already issued. */
  ghost predicate Known(ns: set<Addr>, se: Table, tickets: map<Addr, nat>, issued: nat)
  {
    forall p :: p in ns ==> p in se && p in tickets && se[p].weight > 0 && tickets[p] < issued
  }

  /** Weights come from the table or have not been set. */
  ghost predicate Weighted(se: Table)
  {
    forall p :: p in se ==> se[p].weight == 0 || 15 <= se[p].weight <= 88761
  }

  /** The tree is a red-black tree in queue order and its first node is cached. */
  ghost predicate Arranged(mem: Memory, root: Ptr, t: Tree<Addr>, leftmost: Ptr, se: Table, tickets: map<Addr, nat>,
                           issued: nat)
  {
    && Shaped(mem, t, root) && RedBlack(t)
    && Known(Nodes(t), se, tickets, issued) && Ordered(View(Inorder(t), se, tickets))
    && leftmost == FirstOf(Inorder(t))
  }

  /** Every process has a node, and the node is cleared unless it is linked. */
  ghost predicate Cleared(mem: Memory, ns: set<Addr>, se: Table)
  {
    forall p :: p in se ==> p in mem && (p in ns || IsEmpty(mem, p))
  }

  /** The queue order, read off around a node. */
  lemma {:induction false} OrderAround(a: seq<Addr>, n: Addr, b: seq<Addr>, se: Table, tickets: map<Addr, nat>, x: Addr)
    requires Ordered(View(a + [n] + b, se, tickets)) && n in se && x in se
    ensures x in a ==> se[x].vruntime <= se[n].vruntime
    ensures x in b ==> se[n].vruntime <= se[x].vruntime
  {
    var s := a + [n] + b;
    var q := View(s, se, tickets);
    assert s[|a|] == n;
    if x in a {
      var i :| 0 <= i < |a| && a[i] == x;
      assert s[i] == x && Precedes(q[i], q[|a|]);
    }
    if x in b {
      var i :| 0 <= i < |b| && b[i] == x;
      assert s[|a| + 1 + i] == x && Precedes(q[|a|], q[|a| + 1 + i]);
    }
  }

  /** A task with virtual run time `vruntime` belongs between `b` and `a`. */
  ghost predicate Fits(b: seq<Addr>, a: seq<Addr>, se: Table, vruntime: nat)
  {
    && (forall x :: x in b ==> x in se && se[x].vruntime <= vruntime)
    && (forall x :: x in a ==> x in se && vruntime < se[x].vruntime)
  }

  /** Changing the fields of a task outside the queue does not change the queue. */
  lemma {:induction false} Elsewhere(t: Tree<Addr>, se: Table, tickets: map<Addr, nat>, issued: nat, p: Addr, e: Sched)
    requires p !in Nodes(t) && Known(Nodes(t), se, tickets, issued)
    ensures View(Inorder(t), se[p := e], tickets) == View(Inorder(t), se, tickets)
      && Known(Nodes(t), se[p := e], tickets, issued)
  {
    InorderNode(t, p);
  }

  lemma {:induction false} ViewConcat(a: seq<Addr>, b: seq<Addr>, se: Table, tickets: map<Addr, nat>)
    ensures View(a + b, se, tickets) == View(a, se, tickets) + View(b, se, tickets)
  {
    var v, u, w := View(a + b, se, tickets), View(a, se, tickets), View(b, se, tickets);
    forall i | 0 <= i < |v| ensures v[i] == (u + w)[i] {
      if i < |a| { assert (a + b)[i] == a[i]; } else { assert (a + b)[i] == b[i - |a|]; }
    }
  }

  lemma {:induction false} ViewApart(s: seq<Addr>, se: Table, tickets: map<Addr, nat>, p: Addr, k: nat)
    requires p !in s
    ensures View(s, se, tickets[p := k]) == View(s, se, tickets)
  {
    if s != [] {
      assert s[0] in s;
      ViewApart(s[1..], se, tickets, p, k);
    }
  }

  lemma {:induction false} JoinedView(b: seq<Addr>, p: Addr, a: seq<Addr>, se: Table, tickets: map<Addr, nat>, k: nat)
    requires p !in b && p !in a && p in se
    ensures View(b + a, se, tickets) == View(b, se, tickets) + View(a, se, tickets)
    ensures View(b + [p] + a, se, tickets[p := k]) ==
      View(b, se, tickets) + [EntityOf(p, se[p], k)] + View(a, se, tickets)
  {
    ViewConcat(b, a, se, tickets);
    ViewConcat(b + [p], a, se, tickets[p := k]);
    ViewConcat(b, [p], se, tickets[p := k]);
    ViewApart(b, se, tickets, p, k);
    ViewApart(a, se, tickets, p, k);
    assert View([p], se, tickets[p := k]) == [EntityOf(p, se[p], k)];
  }

  lemma {:induction false} JoinedWeight(b: seq<Entity<Addr>>, e: Entity<Addr>, a: seq<Entity<Addr>>)
    ensures TotalWeight(b + [e] + a) == TotalWeight(b + a) + e.weight
  {
    TotalWeightConcat(b, a);
    TotalWeightConcat(b + [e], a);
    TotalWeightConcat(b, [e]);
    assert TotalWeight([e]) == e.weight;
  }

  /** Entity `e` has joined the queue: the order is kept, count and weight add up. */
  ghost predicate Entered(q: seq<Entity<Addr>>, e: Entity<Addr>, q': seq<Entity<Addr>>)
  {
    q' == Insert(q, e) && Ordered(q') && |q'| == |q| + 1 && TotalWeight(q') == TotalWeight(q) + e.weight
  }

  lemma {:induction false} EntersBetween(vb: seq<Entity<Addr>>, e: Entity<Addr>, va: seq<Entity<Addr>>)
    requires Ordered(vb + va) && Tickets(vb + va, e.ticket)
    requires (forall x :: x in vb ==> x.vruntime <= e.vruntime) && (va != [] ==> e.vruntime < va[0].vruntime)
    ensures Entered(vb + va, e, vb + [e] + va)
  {
    JoinedWeight(vb, e, va);
    InsertSplits(vb, va, e);
    InsertOrdered(vb + va, e);
  }

  lemma {:induction false} ViewTickets(s: seq<Addr>, se: Table, tickets: map<Addr, nat>, issued: nat)
    requires forall x :: x in s ==> x in se && x in tickets && tickets[x] < issued
    ensures Tickets(View(s, se, tickets), issued)
  {
    var q := View(s, se, tickets);
    forall x | x in q ensures x.ticket < issued {
      var i :| 0 <= i < |q| && q[i] == x;
      assert s[i] in s;
    }
  }

  lemma {:induction false} ViewFits(b: seq<Addr>, a: seq<Addr>, se: Table, tickets: map<Addr, nat>, vruntime: nat)
    requires Fits(b, a, se, vruntime)
    ensures forall x :: x in View(b, se, tickets) ==> x.vruntime <= vruntime
    ensures a != [] ==> vruntime < View(a, se, tickets)[0].vruntime
  {
    var q := View(b, se, tickets);
    forall x | x in q ensures x.vruntime <= vruntime {
      var i :| 0 <= i < |q| && q[i] == x;
      assert b[i] in b;
    }
    if a != [] { assert a[0] in a; }
  }

  /** `p` joins a queue between `b` and `a`. */
  lemma {:induction false} Joined(b: seq<Addr>, p: Addr, a: seq<Addr>, se: Table, tickets: map<Addr, nat>, issued: nat)
    requires Ordered(View(b + a, se, tickets))
      && (forall x :: x in b + a ==> x in se && x in tickets && tickets[x] < issued)
    requires p !in b && p !in a && p in se && Fits(b, a, se, se[p].vruntime)
    ensures Entered(View(b + a, se, tickets), EntityOf(p, se[p], issued), View(b + [p] + a, se, tickets[p := issued]))
  {
    JoinedView(b, p, a, se, tickets, issued);
    ViewTickets(b + a, se, tickets, issued);
    ViewFits(b, a, se, tickets, se[p].vruntime);
    EntersBetween(View(b, se, tickets), EntityOf(p, se[p], issued), View(a, se, tickets));
  }

  /** Joined, for the tree `t` with the hole of `c` found for `p`. */
  lemma {:induction false} JoinedTree(t: Tree<Addr>, c: Ctx<Addr>, p: Addr, se: Table, tickets: map<Addr, nat>,
                                      issued: nat)
    requires Inorder(t) == Before(c) + After(c) && Known(Nodes(t), se, tickets, issued)
      && Ordered(View(Inorder(t), se, tickets))
    requires p !in Nodes(t) && p in se && se[p].weight > 0 && Fits(Before(c), After(c), se, se[p].vruntime)
    ensures Entered(View(Inorder(t), se, tickets), EntityOf(p, se[p], issued), View(Before(c) + [p] + After(c), se,
      tickets[p := issued]))
    ensures Known(Nodes(t) + {p}, se, tickets[p := issued], issued + 1)
  {
    forall x | x in Inorder(t) ensures x in Nodes(t) { InorderNode(t, x); }
    Joined(Before(c), p, After(c), se, tickets, issued);
  }

  /** What leaving the queue does to its view. */
  lemma {:induction false} WithoutView(s: seq<Addr>, p: Addr, se: Table, tickets: map<Addr, nat>)
    ensures View(Without(s, p), se, tickets) == Gone(View(s, se, tickets), p)
  {
    if s != [] {
      WithoutView(s[1..], p, se, tickets);
    }
  }

  /** `p` leaves a queue: the order is kept, count and weight go down by its own. */
  lemma {:induction false} Left(t: Tree<Addr>, p: Addr, se: Table, tickets: map<Addr, nat>, issued: nat)
    requires Distinct(t) && p in Nodes(t) && Known(Nodes(t), se, tickets, issued)
      && Ordered(View(Inorder(t), se, tickets))
    ensures var (q, q') := (View(Inorder(t), se, tickets), View(Without(Inorder(t), p), se, tickets));
      && q' == Gone(q, p) && Ordered(q') && |q'| == |q| - 1 && TotalWeight(q) == TotalWeight(q') + se[p].weight
  {
    var s := Inorder(t);
    var q := View(s, se, tickets);
    WithoutView(s, p, se, tickets);
    GoneOrdered(q, p);
    var c, u := Locate(Top, t, p);
    SplitAt(c, u);
    var k := |Before(c) + Inorder(u.left)|;
    assert s[k] == p;
    forall i | 0 <= i < k ensures q[i].task != q[k].task { assert s[i] in Before(c) + Inorder(u.left); }
    GoneCounts(q, k);
  }

  /** The first task after `p` has left. */
  lemma {:induction false} FirstLeft(a: seq<Addr>, p: Addr, b: seq<Addr>)
    requires p !in a
    ensures FirstOf(Without(a + [p] + b, p)) == if FirstOf(a + [p] + b) == p then FirstOf(b) else FirstOf(a + [p] + b)
  {
    WithoutAt(a, p, b);
    if a != [] { assert a[0] in a; }
  }

  /** One step down the tree keeps the place of a task between its neighbours. */
  lemma {:induction false} Descend(c: Ctx<Addr>, t: Tree<Addr>, se: Table, tickets: map<Addr, nat>, issued: nat,
                                   vruntime: nat)
    requires Distinct(Plug(c, t)) && Known(Nodes(Plug(c, t)), se, tickets, issued)
      && Ordered(View(Inorder(Plug(c, t)), se, tickets))
    requires t.Node? && Fits(Before(c), After(c), se, vruntime)
    ensures t.node in se
    ensures var c' := LeftOf(c, t.node, t.color, t.right);
      vruntime < se[t.node].vruntime ==> Fits(Before(c'), After(c'), se, vruntime)
    ensures var c' := RightOf(c, t.node, t.color, t.left);
      vruntime >= se[t.node].vruntime ==> Fits(Before(c'), After(c'), se, vruntime)
  {
    SplitAt(c, t);
    PlugDistinct(c, t);
    var n, a, b := t.node, Before(c) + Inorder(t.left), Inorder(t.right) + After(c);
    if vruntime < se[n].vruntime {
      forall x | x in After(LeftOf(c, n, t.color, t.right)) ensures x in se && vruntime < se[x].vruntime {
        if x in Inorder(t.right) {
          InorderNode(t.right, x);
          OrderAround(a, n, b, se, tickets, x);
        }
      }
    } else {
      forall x | x in Before(RightOf(c, n, t.color, t.left)) ensures x in se && se[x].vruntime <= vruntime {
        if x in Inorder(t.left) {
          InorderNode(t.left, x);
          OrderAround(a, n, b, se, tickets, x);
        }
      }
    }
  }

  /** The descent of enqueue_entity: the place behind every task that is not ahead.  The
      number of steps is at most twice the binary logarithm of the queue length. */
  method FindPlace(mem: Memory, root: Ptr, se: Table, vruntime: nat, ghost tree: Tree<Addr>,
                   ghost tickets: map<Addr, nat>, ghost issued: nat)
    returns (parent: Ptr, atLeft: bool, first: bool, ghost c: Ctx<Addr>, ghost steps: nat)
    requires Shaped(mem, tree, root) && RedBlack(tree) && Known(Nodes(tree), se, tickets, issued)
      && Ordered(View(Inorder(tree), se, tickets))
    ensures tree == Plug(c, Leaf) && Fits(Before(c), After(c), se, vruntime)
    ensures parent == CtxRef(c, 0) && (parent != 0 ==> (atLeft <==> c.LeftOf?)) && (first <==> Before(c) == [])
    ensures Logarithmic(steps, |Inorder(tree)|)
  {
    var cur := root;
    parent, atLeft, first, c, steps := 0, true, true, Top, 0;
    ghost var t := tree;
    while cur != 0
      invariant tree == Plug(c, t) && cur == Ref(t) && Fits(Before(c), After(c), se, vruntime)
      invariant parent == CtxRef(c, 0) && (parent != 0 ==> (atLeft <==> c.LeftOf?)) && (first <==> Before(c) == [])
      invariant steps + Height(t) <= Height(tree)
      decreases t
    {
      Reads(mem, root, c, t);
      Descend(c, t, se, tickets, issued, vruntime);
      parent := cur;
      if vruntime < se[parent].vruntime {
        cur, atLeft := mem[parent].left, true;
        c, t := LeftOf(c, parent, t.color, t.right), t.left;
      } else {
        cur, atLeft, first := mem[parent].right, false, false;
        c, t := RightOf(c, parent, t.color, t.left), t.right;
      }
      steps := steps + 1;
    }
    StepsBound(tree, steps);
  }

  /** enqueue_entity */
  method EnqueueEntity(mem0: Memory, root0: Ptr, leftmost0: Ptr, se: Table, p: Addr, ghost tree0: Tree<Addr>,
                       ghost tickets: map<Addr, nat>, ghost issued: nat)
    returns (mem: Memory, root: Ptr, leftmost: Ptr, ghost tree: Tree<Addr>)
    requires Arranged(mem0, root0, tree0, leftmost0, se, tickets, issued) && Cleared(mem0, Nodes(tree0), se)
    requires p !in Nodes(tree0) && p in se && se[p].weight > 0
    ensures Arranged(mem, root, tree, leftmost, se, tickets[p := issued], issued + 1) && Cleared(mem, Nodes(tree), se)
    ensures Nodes(tree) == Nodes(tree0) + {p}
    ensures var (q, q') := (View(Inorder(tree0), se, tickets), View(Inorder(tree), se, tickets[p := issued]));
      q' == Insert(q, EntityOf(p, se[p], issued)) && |q'| == |q| + 1 && TotalWeight(q') == TotalWeight(q) + se[p].weight
  {
    ghost var c, steps;
    var parent, atLeft, first;
    parent, atLeft, first, c, steps := FindPlace(mem0, root0, se, se[p].vruntime, tree0, tickets, issued);
    leftmost := leftmost0;
    if first {
      leftmost := p;
    }
    mem, root, tree := InsertAt(mem0, root0, p, parent, atLeft, c);
    JoinedTree(tree0, c, p, se, tickets, issued);
  }

  /** dequeue_entity */
  method DequeueEntity(mem0: Memory, root0: Ptr, leftmost0: Ptr, se: Table, p: Addr, ghost tree0: Tree<Addr>,
                       ghost tickets: map<Addr, nat>, ghost issued: nat)
    returns (mem: Memory, root: Ptr, leftmost: Ptr, ghost tree: Tree<Addr>)
    requires Arranged(mem0, root0, tree0, leftmost0, se, tickets, issued) && Cleared(mem0, Nodes(tree0), se)
    requires p in Nodes(tree0)
    ensures Arranged(mem, root, tree, leftmost, se, tickets, issued) && Cleared(mem, Nodes(tree), se)
    ensures Nodes(tree) == Nodes(tree0) - {p}
    ensures var (q, q') := (View(Inorder(tree0), se, tickets), View(Inorder(tree), se, tickets));
      q' == Gone(q, p) && |q'| == |q| - 1 && TotalWeight(q) == TotalWeight(q') + se[p].weight
  {
    Left(tree0, p, se, tickets, issued);
    leftmost := leftmost0;
    ghost var a, b;
    var next;
    next, a, b := Next(mem0, root0, p, tree0);
    if leftmost == p {
      leftmost := next;
    }
    FirstLeft(a, p, b);
    mem, root, tree := Erase(mem0, root0, p, tree0);
    mem := Clear(mem, root, p, tree);
  }

  /** A task without virtual run time or weight gets them when it is enqueued. */
  ghost function Prepared(e: Sched, minVruntime: nat): Sched
  {
    var v := if e.vruntime == 0 then minVruntime else e.vruntime;
    var w := if e.weight == 0 then NiceToWeight(e.nice) else e.weight;
    e.(vruntime := v, weight := w)
  }

  /** struct cfs_rq, with the tree nodes and the scheduling fields of all processes. */
  datatype Rq = Rq(mem: Memory, root: Ptr, leftmost: Ptr, nrRunning: nat, minVruntime: nat, execClock: nat,
                   totalWeight: nat, se: Table)

  /** What the proof keeps beside it: the tree and the order of the enqueues. */
  datatype Shadow = Shadow(tree: Tree<Addr>, tickets: map<Addr, nat>, issued: nat)

  ghost function Queued(g: Shadow): set<Addr>
  {
    Nodes(g.tree)
  }

  ghost function Queue(rq: Rq, g: Shadow): seq<Entity<Addr>>
  {
    View(Inorder(g.tree), rq.se, g.tickets)
  }

  ghost predicate Valid(rq: Rq, g: Shadow)
  {
    && Arranged(rq.mem, rq.root, g.tree, rq.leftmost, rq.se, g.tickets, g.issued)
    && Cleared(rq.mem, Nodes(g.tree), rq.se) && Weighted(rq.se)
    && rq.nrRunning == |Queue(rq, g)| && rq.totalWeight == TotalWeight(Queue(rq, g))
  }

  /** min_vruntime is a lower bound of the queued virtual run times. */
  ghost predicate Floor(rq: Rq, g: Shadow)
  {
    Bounded(Queue(rq, g), rq.minVruntime)
  }

  /** cfs_init: the processes exist and none is queued. */
  method Init(se: Table) returns (rq: Rq, ghost g: Shadow)
    requires Weighted(se)
    ensures Valid(rq, g) && Queue(rq, g) == [] && rq.minVruntime == rq.execClock == 0 && rq.se == se
  {
    var mem := map p | p in se :: RbNode(p, 0, 0, Red);
    rq := Rq(mem, 0, 0, 0, 0, 0, 0, se);
    g := Shadow(Leaf, map[], 0);
  }

  /** update_min_vruntime */
  method UpdateMinVruntime(rq0: Rq, ghost g: Shadow) returns (rq: Rq)
    requires Arranged(rq0.mem, rq0.root, g.tree, rq0.leftmost, rq0.se, g.tickets, g.issued)
    ensures rq == rq0.(minVruntime := NextMin(Queue(rq0, g), rq0.minVruntime))
  {
    rq := rq0;
    var vruntime := rq.minVruntime;
    if rq.leftmost != 0 {
      InorderNode(g.tree, rq.leftmost);
      vruntime := rq.se[rq.leftmost].vruntime;
    }
    if vruntime > rq.minVruntime {
      rq := rq.(minVruntime := vruntime);
    }
  }

  /** The fields of a task that is not queued may change without the queue noticing. */
  lemma {:induction false} Updated(rq: Rq, g: Shadow, p: Addr, e: Sched)
    requires Valid(rq, g) && p in rq.se && p !in Queued(g) && (e.weight == 0 || 15 <= e.weight <= 88761)
    ensures var r := rq.(se := rq.se[p := e]);
      Valid(r, g) && Queue(r, g) == Queue(rq, g)
  {
    Elsewhere(g.tree, rq.se, g.tickets, g.issued, p, e);
  }

  /** The part of cfs_enqueue_task that initialises a task. */
  method Prepare(rq0: Rq, p: Addr, ghost g: Shadow) returns (rq: Rq)
    requires Valid(rq0, g) && p in rq0.se && p !in Queued(g)
    ensures Valid(rq, g) && rq == rq0.(se := rq0.se[p := Prepared(rq0.se[p], rq0.minVruntime)]) && rq.se[p].weight > 0
    ensures Queue(rq, g) == Queue(rq0, g)
  {
    var e := rq0.se[p];
    if e.vruntime == 0 {
      e := e.(vruntime := rq0.minVruntime);
    }
    if e.weight == 0 {
      e := e.(weight := NiceToWeight(e.nice));
    }
    Weights(e.nice, 0);
    Updated(rq0, g, p, e);
    rq := rq0.(se := rq0.se[p := e]);
  }

  /** The part of cfs_enqueue_task after that. */
  method Join(rq0: Rq, p: Addr, ghost g0: Shadow) returns (rq: Rq, ghost g: Shadow)
    requires Valid(rq0, g0) && p in rq0.se && p !in Queued(g0) && rq0.se[p].weight > 0
    ensures Valid(rq, g) && Queued(g) == Queued(g0) + {p} && g.issued == g0.issued + 1
    ensures rq.minVruntime == rq0.minVruntime && rq.execClock == rq0.execClock && rq.se == rq0.se
    ensures Queue(rq, g) == Insert(Queue(rq0, g0), EntityOf(p, rq.se[p], g0.issued))
  {
    var mem, root, leftmost;
    ghost var tree;
    mem, root, leftmost, tree := EnqueueEntity(rq0.mem, rq0.root, rq0.leftmost, rq0.se, p, g0.tree, g0.tickets,
                                               g0.issued);
    rq := rq0.(mem := mem, root := root, leftmost := leftmost, nrRunning := rq0.nrRunning + 1,
               totalWeight := rq0.totalWeight + rq0.se[p].weight);
    g := Shadow(tree, g0.tickets[p := g0.issued], g0.issued + 1);
  }

  /** cfs_enqueue_task: min_vruntime stays below every task exactly when the newcomer is
      new or not behind it. */
  method EnqueueTask(rq0: Rq, p: Ptr, ghost g0: Shadow) returns (rq: Rq, ghost g: Shadow)
    requires Valid(rq0, g0) && (p != 0 ==> p in rq0.se && p !in Queued(g0))
    ensures Valid(rq, g) && rq.minVruntime == rq0.minVruntime && rq.execClock == rq0.execClock
    ensures p == 0 ==> rq == rq0 && g == g0
    ensures p != 0 ==> Queued(g) == Queued(g0) + {p} && g.issued == g0.issued + 1
    ensures p != 0 ==> rq.se == rq0.se[p := Prepared(rq0.se[p], rq0.minVruntime)]
    ensures p != 0 ==>
      var (a, b) := (rq0.se[p], rq.se[p]);
      && b == a.(vruntime := b.vruntime, weight := b.weight)
      && b.vruntime == (if a.vruntime == 0 then rq0.minVruntime else a.vruntime)
      && b.weight == (if a.weight == 0 then NiceToWeight(a.nice) else a.weight)
    ensures p != 0 ==>
      Queue(rq, g) == Insert(Queue(rq0, g0), EntityOf(p, Prepared(rq0.se[p], rq0.minVruntime), g0.issued))
    ensures p != 0 ==>
      (Floor(rq, g) <==> Floor(rq0, g0) && (rq0.se[p].vruntime == 0 || rq0.minVruntime <= rq0.se[p].vruntime))
  {
    rq, g := rq0, g0;
    if p != 0 {
      rq := Prepare(rq, p, g);
      InsertBounded(Queue(rq, g), EntityOf(p, rq.se[p], g.issued), rq.minVruntime);
      rq, g := Join(rq, p, g);
    }
  }

  /** A task that has run less than the first one, enqueued without cfs_task_waking. */
  method EnqueueBehind() returns (rq: Rq, ghost g: Shadow)
    ensures Valid(rq, g) && !Floor(rq, g)
  {
    rq, g := Init(map[4 := Sched(10, 0, 1024, 0, 120), 8 := Sched(5, 0, 1024, 0, 120)]);
    rq, g := EnqueueTask(rq, 4, g);
    rq := UpdateMinVruntime(rq, g);
    rq, g := EnqueueTask(rq, 8, g);
  }

  /** cfs_dequeue_task */
  method DequeueTask(rq0: Rq, p: Ptr, ghost g0: Shadow) returns (rq: Rq, ghost g: Shadow)
    requires Valid(rq0, g0) && (p != 0 ==> p in Queued(g0))
    ensures Valid(rq, g) && rq.se == rq0.se && rq.execClock == rq0.execClock && g.issued == g0.issued
    ensures p == 0 ==> rq == rq0 && g == g0
    ensures p != 0 ==> Queued(g) == Queued(g0) - {p} && Queue(rq, g) == Gone(Queue(rq0, g0), p)
    ensures p != 0 ==> rq.minVruntime == NextMin(Queue(rq, g), rq0.minVruntime)
    ensures rq0.minVruntime <= rq.minVruntime && (Floor(rq0, g0) ==> Floor(rq, g))
  {
    rq, g := rq0, g0;
    if p != 0 {
      var mem, root, leftmost;
      ghost var tree;
      mem, root, leftmost, tree := DequeueEntity(rq.mem, rq.root, rq.leftmost, rq.se, p, g.tree, g.tickets, g.issued);
      rq := rq.(mem := mem, root := root, leftmost := leftmost);
      g := g.(tree := tree);
      if rq.nrRunning > 0 {
        rq := rq.(nrRunning := rq.nrRunning - 1);
      }
      if rq.totalWeight >= rq.se[p].weight {
        rq := rq.(totalWeight := rq.totalWeight - rq.se[p].weight);
      }
      rq := UpdateMinVruntime(rq, g);
      NextMinBounds(Queue(rq, g), rq0.minVruntime);
      if Floor(rq0, g0) { GoneBounded(Queue(rq0, g0), p, rq0.minVruntime); }
    }
  }

  /** cfs_pick_next_task: the least virtual run time, earliest enqueued among equals. */
  method PickNextTask(rq: Rq, ghost g: Shadow) returns (p: Ptr)
    requires Valid(rq, g)
    ensures p == 0 <==> Queue(rq, g) == []
    ensures p != 0 ==> p in Queued(g) && Queue(rq, g)[0] == EntityOf(p, rq.se[p], g.tickets[p])
    ensures p != 0 ==> forall e :: e in Queue(rq, g) && e != Queue(rq, g)[0] ==> Precedes(Queue(rq, g)[0], e)
  {
    p := rq.leftmost;
    if p != 0 {
      InorderNode(g.tree, p);
      forall e | e in Queue(rq, g) && e != Queue(rq, g)[0] ensures Precedes(Queue(rq, g)[0], e) {
        var i :| 0 <= i < |Queue(rq, g)| && Queue(rq, g)[i] == e;
      }
    }
  }

  /** cfs_update_curr, for a task that is not queued. */
  method UpdateCurr(rq0: Rq, p: Ptr, ghost g: Shadow) returns (rq: Rq)
    requires Valid(rq0, g) && (p != 0 ==> p in rq0.se && p !in Queued(g) && rq0.se[p].weight > 0)
    ensures Valid(rq, g) && Queue(rq, g) == Queue(rq0, g)
    ensures p == 0 ==> rq == rq0
    ensures p != 0 ==> rq.execClock == rq0.execClock + TICK && rq.minVruntime == NextMin(Queue(rq, g), rq0.minVruntime)
    ensures p != 0 ==> rq.se == rq0.se[p := RanFor(rq0.se[p])]
    ensures p != 0 ==>
      var (a, b) := (rq0.se[p], rq.se[p]);
      && b == a.(vruntime := b.vruntime, sumExec := a.sumExec + 1000000)
      && (b.vruntime - a.vruntime) * a.weight <= 1024000000 < (b.vruntime - a.vruntime + 1) * a.weight
    ensures rq0.minVruntime <= rq.minVruntime && (Floor(rq0, g) ==> Floor(rq, g))
  {
    rq := rq0;
    if p != 0 {
      var e := rq.se[p].(sumExec := rq.se[p].sumExec + TICK);
      e := e.(vruntime := e.vruntime + DeltaFair(TICK, e.weight));
      Updated(rq0, g, p, e);
      DeltaFairExact(TICK, e.weight);
      rq := rq.(se := rq.se[p := e], execClock := rq.execClock + TICK);
      rq := UpdateMinVruntime(rq, g);
      NextMinBounds(Queue(rq, g), rq0.minVruntime);
    }
  }

  /** A tick of real and of weighted time. */
  ghost function RanFor(e: Sched): Sched
    requires e.weight > 0
  {
    e.(sumExec := e.sumExec + TICK, vruntime := e.vruntime + DeltaFair(TICK, e.weight))
  }

  /** cfs_task_waking: a task that slept is brought up to min_vruntime.  A queued task has to be there already. */
  method TaskWaking(rq0: Rq, p: Ptr, ghost g: Shadow) returns (rq: Rq)
    requires Valid(rq0, g) && (p != 0 ==> p in rq0.se)
    requires p in Queued(g) ==> p in rq0.se && rq0.minVruntime <= rq0.se[p].vruntime
    ensures Valid(rq, g) && Queue(rq, g) == Queue(rq0, g) && rq == rq0.(se := rq.se)
    ensures p == 0 ==> rq == rq0
    ensures p != 0 ==>
      p in rq.se && rq.se == rq0.se[p := rq.se[p]] && rq.se[p] == rq0.se[p].(vruntime := rq.se[p].vruntime)
    ensures p != 0 ==> rq.se[p].vruntime in {rq.minVruntime, rq0.se[p].vruntime} && rq.se[p].vruntime >= rq.minVruntime
    ensures p != 0 ==> rq.se[p].vruntime >= rq0.se[p].vruntime
  {
    rq := rq0;
    if p != 0 && rq.se[p].vruntime < rq.minVruntime {
      var e := rq.se[p].(vruntime := rq.minVruntime);
      Updated(rq, g, p, e);
      rq := rq.(se := rq.se[p := e]);
    }
  }

  /** cfs_task_waking followed by cfs_enqueue_task keeps min_vruntime below every task. */
  method WakeUp(rq0: Rq, p: Addr, ghost g0: Shadow) returns (rq: Rq, ghost g: Shadow)
    requires Valid(rq0, g0) && p in rq0.se && p !in Queued(g0)
    ensures Valid(rq, g) && Queued(g) == Queued(g0) + {p} && (Floor(rq0, g0) ==> Floor(rq, g))
  {
    rq := TaskWaking(rq0, p, g0);
    rq, g := EnqueueTask(rq, p, g0);
  }

  /** Running takes virtual time, so a task that has run is not taken for a new one. */
  lemma {:induction false} RanIsPrepared(p: Addr, e: Sched, min: nat, t: nat, k: nat)
    requires 15 <= e.weight <= 88761
    ensures Prepared(RanFor(e), min) == RanFor(e) && EntityOf(p, RanFor(e), k) == Ran(EntityOf(p, e, t), k)
  {
    DeltaFairBound(e.weight);
  }

  /** One scheduling round: pick, dequeue, run for a tick, enqueue. */
  method Round(rq0: Rq, ghost g0: Shadow) returns (rq: Rq, ghost g: Shadow)
    requires Valid(rq0, g0) && Queue(rq0, g0) != []
    ensures Valid(rq, g) && Queued(g) == Queued(g0) && g.issued == g0.issued + 1
    ensures Queue(rq, g) == Tick(Queue(rq0, g0), g0.issued)
    ensures rq.minVruntime == NextMin(Queue(rq0, g0)[1..], rq0.minVruntime) && rq.execClock == rq0.execClock + TICK
  {
    var p := PickNextTask(rq0, g0);
    rq, g := DequeueTask(rq0, p, g0);
    rq := UpdateCurr(rq, p, g);
    RanIsPrepared(p, rq0.se[p], rq.minVruntime, g0.tickets[p], g0.issued);
    rq, g := EnqueueTask(rq, p, g);
    BackIn(Queued(g0), p);
  }

  lemma {:induction false} BackIn(s: set<Addr>, p: Addr)
    requires p in s
    ensures s - {p} + {p} == s
  {
  }

  /** What a tick costs the lightest task. */
  const LARGEST_STEP: nat := 68266666

  /** The entities of the queue: what a tick costs them goes by their weight. */
  lemma {:induction false} QueuedEntity(rq: Rq, g: Shadow, x: Entity<Addr>)
    requires Valid(rq, g) && x in Queue(rq, g)
    ensures x.ticket < g.issued && 15 <= x.weight <= 88761 && x.step == DeltaFair(TICK, x.weight)
  {
    var s, q := Inorder(g.tree), Queue(rq, g);
    var i :| 0 <= i < |q| && q[i] == x;
    InorderNode(g.tree, s[i]);
  }

  lemma {:induction false} StepsByWeight(rq: Rq, g: Shadow)
    requires Valid(rq, g)
    ensures Tickets(Queue(rq, g), g.issued) && ByWeight(Queue(rq, g))
      && forall x :: x in Queue(rq, g) ==> x.step <= LARGEST_STEP && Costed(x)
  {
    forall x | x in Queue(rq, g)
      ensures x.ticket < g.issued && Costed(x) && x.step == DeltaFair(TICK, x.weight) && 0 < x.step <= LARGEST_STEP
    {
      QueuedEntity(rq, g, x);
      DeltaFairBound(x.weight);
      DeltaFairExact(TICK, x.weight);
    }
  }

  /** Once the spread of virtual run times is within the largest step of a tick, it stays so;
      two tasks of equal weight that start level never differ by more than one tick of run time;
      and any two that start level share the time in proportion to their weights. */
  ghost predicate Fair(qs: seq<seq<Entity<Addr>>>)
  {
    && qs != [] && (Spread(qs[0], LARGEST_STEP) ==> forall k :: 0 <= k < |qs| ==> Spread(qs[k], LARGEST_STEP))
    && (forall a, b, k :: 0 <= k < |qs| && Level(qs[0], a, b) ==> Even(qs[k], a, b))
    && (forall a, b, e, k :: 0 <= k < |qs| && Abreast(qs[0], a, b, e) ==> Proportional(qs[k], a, b, e))
  }

  lemma {:induction false} RunIsFair(qs: seq<seq<Entity<Addr>>>, ticket: nat)
    requires Schedule(qs, ticket) && qs != [] && Ordered(qs[0]) && Tickets(qs[0], ticket) && ByWeight(qs[0])
    requires forall x :: x in qs[0] ==> x.step <= LARGEST_STEP && Costed(x)
    ensures Fair(qs)
  {
    StaysSpread(qs, ticket, LARGEST_STEP);
    forall a, b, k | 0 <= k < |qs| && Level(qs[0], a, b) ensures Even(qs[k], a, b) {
      EqualShares(qs, ticket, a, b, k);
    }
    forall a, b, e: nat, k | 0 <= k < |qs| && Abreast(qs[0], a, b, e) ensures Proportional(qs[k], a, b, e) {
      SharesByWeight(qs, ticket, a, b, e, k);
    }
  }

  /** Any number of rounds of a fixed set of runnable tasks, and the queues between them. */
  method Rounds(rq0: Rq, n: nat, ghost g0: Shadow) returns (rq: Rq, ghost g: Shadow, ghost qs: seq<seq<Entity<Addr>>>)
    requires Valid(rq0, g0) && Queue(rq0, g0) != []
    ensures Valid(rq, g) && Queued(g) == Queued(g0)
    ensures |qs| == n + 1 && qs[0] == Queue(rq0, g0) && qs[n] == Queue(rq, g) && Schedule(qs, g0.issued)
    ensures Fair(qs)
  {
    rq, g, qs := rq0, g0, [Queue(rq0, g0)];
    var i: nat := 0;
    while i < n
      invariant i <= n && Valid(rq, g) && Queued(g) == Queued(g0) && g.issued == g0.issued + i
      invariant Recorded(qs, g0.issued, i, Queue(rq0, g0), Queue(rq, g)) && Queue(rq, g) != []
    {
      ghost var q, t := Queue(rq, g), g.issued;
      rq, g := Round(rq, g);
      RecordedMore(qs, g0.issued, i, Queue(rq0, g0), q, t, Queue(rq, g));
      qs := qs + [Queue(rq, g)];
      i := i + 1;
    }
    StepsByWeight(rq0, g0);
    RunIsFair(qs, g0.issued);
  }

  // ----- changing weights -----

  lemma {:induction false} ReweightedView(s: seq<Addr>, p: Addr, se: Table, e: Sched, tickets: map<Addr, nat>)
    requires p in se && e.vruntime == se[p].vruntime && Ordered(View(s, se, tickets))
    ensures Ordered(View(s, se[p := e], tickets))
  {
    var q, r := View(s, se, tickets), View(s, se[p := e], tickets);
    forall i, j | 0 <= i < j < |r| ensures Precedes(r[i], r[j]) {
      assert Precedes(q[i], q[j]);
    }
  }

  lemma {:induction false} ReweightedTotal(t: Tree<Addr>, p: Addr, se: Table, e: Sched, tickets: map<Addr, nat>,
                                           issued: nat)
    requires Distinct(t) && p in Nodes(t) && Known(Nodes(t), se, tickets, issued)
      && Ordered(View(Inorder(t), se, tickets))
    requires e.vruntime == se[p].vruntime && e.weight > 0
    ensures TotalWeight(View(Inorder(t), se[p := e], tickets)) + se[p].weight ==
      TotalWeight(View(Inorder(t), se, tickets)) + e.weight
  {
    var s := Inorder(t);
    ReweightedView(s, p, se, e, tickets);
    Left(t, p, se, tickets, issued);
    Left(t, p, se[p := e], tickets, issued);
    var c, u := Locate(Top, t, p);
    SplitAt(c, u);
    WithoutAt(Before(c) + Inorder(u.left), p, Inorder(u.right) + After(c));
    var w := Without(s, p);
    assert p !in w;
    assert View(w, se[p := e], tickets) == View(w, se, tickets);
  }

  /** cfs_reweight_task: whether or not the task is queued, which rb_empty_node tells, the
      total weight stays the sum of the queued weights and the order is kept. */
  method ReweightTask(rq0: Rq, p: Ptr, prio: int, ghost g: Shadow) returns (rq: Rq)
    requires Valid(rq0, g) && (p != 0 ==> p in rq0.se)
    ensures Valid(rq, g)
    ensures p == 0 ==> rq == rq0
    ensures p != 0 ==>
      rq == rq0.(se := rq0.se[p := rq0.se[p].(weight := NiceToWeight(PrioToNice(prio)))], totalWeight := rq.totalWeight)
    ensures p != 0 && p !in Queued(g) ==> rq.totalWeight == rq0.totalWeight
  {
    rq := rq0;
    if p != 0 {
      var oldWeight, newWeight := rq.se[p].weight, NiceToWeight(PrioToNice(prio));
      var e := rq.se[p].(weight := newWeight);
      Weights(PrioToNice(prio), 0);
      if !IsEmpty(rq.mem, p) {
        ReweightedView(Inorder(g.tree), p, rq.se, e, g.tickets);
        ReweightedTotal(g.tree, p, rq.se, e, g.tickets, g.issued);
        rq := rq.(se := rq.se[p := e]);
        rq := rq.(totalWeight := rq.totalWeight - oldWeight + newWeight);
      } else {
        Member(rq.mem, rq.root, p, g.tree);
        Updated(rq, g, p, e);
        rq := rq.(se := rq.se[p := e]);
      }
    }
  }

  /** cfs_set_task_nice: out-of-range values are clamped and the weight is the one of the
      requested nice value. */
  method SetTaskNice(rq0: Rq, p: Ptr, nice0: int, ghost g: Shadow) returns (rq: Rq)
    requires Valid(rq0, g) && (p != 0 ==> p in rq0.se)
    ensures Valid(rq, g)
    ensures p == 0 ==> rq == rq0
    ensures p != 0 ==> p in rq.se && rq.se == rq0.se[p := rq.se[p]] && -20 <= rq.se[p].nice <= 19
    ensures p != 0 ==> rq.se[p].nice == if nice0 < -20 then -20 else if nice0 > 19 then 19 else nice0
    ensures p != 0 ==> rq.se[p].staticPriority == rq.se[p].nice + 120
    ensures p != 0 ==> rq.se[p].weight == NiceToWeight(nice0)
    ensures p != 0 ==> rq.se[p].vruntime == rq0.se[p].vruntime && rq.se[p].sumExec == rq0.se[p].sumExec
  {
    rq := rq0;
    if p != 0 {
      var nice := ClampNice(nice0);
      var e := rq.se[p].(nice := nice, staticPriority := NiceToPrio(nice));
      Renamed(rq, g, p, e);
      rq := rq.(se := rq.se[p := e]);
      Weights(nice0, 0);
      rq := ReweightTask(rq, p, NiceToPrio(nice), g);
    }
  }

  lemma {:induction false} Renamed(rq: Rq, g: Shadow, p: Addr, e: Sched)
    requires Valid(rq, g) && p in rq.se
      && e.(nice := 0, staticPriority := 0) == rq.se[p].(nice := 0, staticPriority := 0)
    ensures Valid(rq.(se := rq.se[p := e]), g)
  {
    assert View(Inorder(g.tree), rq.se[p := e], g.tickets) == View(Inorder(g.tree), rq.se, g.tickets);
  }
}

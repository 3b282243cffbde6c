/** kernel/ipc/mqueue.c: POSIX message queues.  Messages are kept on a linked list by falling
    priority; blocking is not modelled, as the code returns EAGAIN instead.
 */
module MQueue {
  import opened Machine
  import opened Sequences
  import opened LinkedList

  const MAX_MESSAGES: nat := 32
  const MAX_MSG_SIZE: nat := 8192
  const PRIO_MAX: nat := 32768

  /** struct mq_message; `ticket` says how many messages had been sent to the queue before. */
  datatype Message = Message(priority: nat, data: seq<nat>, ticket: nat)

  type Messages = map<Addr, Message>

  /** The list head in struct mqueue. */
  const HEAD: Addr := 1

  datatype Mqueue = Mqueue(links: Links, msgs: Messages, maxMsg: nat, msgSize: nat, curMsgs: nat, refCount: nat,
                           sent: nat, received: nat)

  datatype Error = EINVAL | EMSGSIZE | EAGAIN | ENOMEM

  datatype Result<T> = Ok(value: T) | Err(error: Error)

  // ----- queues as sequences -----

  ghost function View(s: seq<Addr>, msgs: Messages): (v: seq<Message>)
    requires forall x :: x in s ==> x in msgs
    ensures |v| == |s| && forall i :: 0 <= i < |s| ==> s[i] in s && v[i] == msgs[s[i]]
  {
    if s == [] then [] else
      assert s[0] in s && forall x :: x in s[1..] ==> x in s;
      [msgs[s[0]]] + View(s[1..], msgs)
  }

  ghost predicate Precedes(a: Message, b: Message)
  {
    a.priority > b.priority || (a.priority == b.priority && a.ticket < b.ticket)
  }

  /** Highest priority first, and in order of arrival within a priority. */
  ghost predicate Ordered(q: seq<Message>)
  {
    forall i, j :: 0 <= i < j < |q| ==> Precedes(q[i], q[j])
  }

  ghost function Bytes(q: seq<Message>): nat
  {
    if q == [] then 0 else |q[0].data| + Bytes(q[1..])
  }

  lemma {:induction false} BytesConcat(a: seq<Message>, b: seq<Message>)
    ensures Bytes(a + b) == Bytes(a) + Bytes(b)
  {
    if a == [] {
      assert a + b == b;
    } else {
      assert (a + b)[1..] == a[1..] + b;
      BytesConcat(a[1..], b);
    }
  }

  ghost predicate Listed(s: seq<Addr>, msgs: Messages)
  {
    forall x :: x in s <==> x in msgs
  }

  ghost predicate Fit(msgs: Messages, sent: nat, size: nat)
  {
    forall x :: x in msgs ==> msgs[x].ticket < sent && |msgs[x].data| <= size
  }

  /** The list holds `s`, ordered, with exactly curMsgs messages. */
  ghost predicate Valid(m: Mqueue, s: seq<Addr>)
  {
    && Ring(m.links, HEAD, s) && Listed(s, m.msgs) && Ordered(View(s, m.msgs)) && Fit(m.msgs, m.sent, m.msgSize)
    && m.curMsgs == |s| <= m.maxMsg <= MAX_MESSAGES && m.msgSize <= MAX_MSG_SIZE && m.sent == m.received + m.curMsgs
  }

  // ----- opening -----

  /** struct mq_attr */
  datatype Attr = Attr(maxMsg: nat, msgSize: nat, curMsgs: nat)

  datatype Option<T> = None | Some(value: T)

  /** The creating part of mq_open: the attributes are copied, the current message count too.
      The queue is in order exactly when that count is 0. */
  method Create(attr: Option<Attr>) returns (m: Mqueue)
    ensures Ring(m.links, HEAD, []) && m.msgs == map[] && m.sent == m.received == 0 && m.refCount == 1
    ensures 0 < m.maxMsg <= MAX_MESSAGES && 0 < m.msgSize <= MAX_MSG_SIZE
    ensures Valid(m, []) <==> attr.None? || attr.value.curMsgs == 0
  {
    var links := InitListHead(map[], HEAD);
    var a := Attr(MAX_MESSAGES, MAX_MSG_SIZE, 0);
    if attr.Some? {
      a := attr.value;
      if a.maxMsg == 0 || a.maxMsg > MAX_MESSAGES {
        a := a.(maxMsg := MAX_MESSAGES);
      }
      if a.msgSize == 0 || a.msgSize > MAX_MSG_SIZE {
        a := a.(msgSize := MAX_MSG_SIZE);
      }
    }
    m := Mqueue(links, map[], a.maxMsg, a.msgSize, a.curMsgs, 1, 0, 0);
  }

  /** A queue that counts a message it does not have. */
  method CreatedFull() returns (m: Mqueue)
    ensures Ring(m.links, HEAD, []) && m.msgs == map[] && !Valid(m, [])
  {
    m := Create(Some(Attr(1, 1, 1)));
  }

  // ----- sending -----

  /** Where a message of priority `p` belongs: behind all of its priority or higher. */
  ghost function Place(q: seq<Message>, p: nat): nat
  {
    if q == [] || p > q[0].priority then 0 else 1 + Place(q[1..], p)
  }

  lemma {:induction false} PlaceIs(q: seq<Message>, p: nat, k: nat)
    requires k <= |q| && (forall i :: 0 <= i < k ==> q[i].priority >= p) && (k < |q| ==> q[k].priority < p)
    ensures Place(q, p) == k
  {
    if k > 0 {
      forall i | 0 <= i < k - 1 ensures q[1..][i].priority >= p { assert q[i + 1].priority >= p; }
      PlaceIs(q[1..], p, k - 1);
    }
  }

  /** The loop of mq_send: the first message of a lower priority, or the head. */
  method FindPlace(m: Mqueue, p: nat, ghost s: seq<Addr>) returns (at: Addr, ghost k: nat)
    requires Valid(m, s)
    ensures k <= |s| && at == At(s, k, HEAD) && k == Place(View(s, m.msgs), p)
  {
    ghost var q := View(s, m.msgs);
    k := 0;
    Neighbours(m.links, HEAD, s, 0);
    at := m.links[HEAD].next;
    while at != HEAD
      invariant k <= |s| && at == At(s, k, HEAD) && forall i :: 0 <= i < k ==> q[i].priority >= p
      decreases |s| - k
    {
      assert s[k] in s && q[k] == m.msgs[s[k]];
      if p > m.msgs[at].priority {
        break;
      }
      Neighbours(m.links, HEAD, s, k + 1);
      at := m.links[at].next;
      k := k + 1;
    }
    assert k < |s| ==> s[k] in s;
    PlaceIs(q, p, k);
  }

  /** `r` is `q` with `x` put in at `k`. */
  ghost predicate IsInsert(r: seq<Message>, q: seq<Message>, k: nat, x: Message)
  {
    && |r| == |q| + 1 && k <= |q| && r[k] == x
    && (forall i {:trigger r[i]} :: 0 <= i < k ==> r[i] == q[i]) && (forall i :: k < i < |r| ==> r[i] == q[i - 1])
  }

  lemma {:induction false} InsertOrdered(q: seq<Message>, x: Message, k: nat, r: seq<Message>)
    requires Ordered(q) && k == Place(q, x.priority) && (forall y :: y in q ==> y.ticket < x.ticket)
      && IsInsert(r, q, k, x)
    ensures Ordered(r)
  {
    PlaceBounds(q, x.priority);
    forall i, j | 0 <= i < j < |r| ensures Precedes(r[i], r[j]) {
      if j == k {
        assert q[i] in q;
      } else if i == k {
        assert k < j - 1 ==> Precedes(q[k], q[j - 1]);
      }
    }
  }

  lemma {:induction false} InsertBytes(r: seq<Message>, q: seq<Message>, k: nat, x: Message)
    requires IsInsert(r, q, k, x)
    ensures Bytes(r) == Bytes(q) + |x.data|
  {
    if k == 0 {
      assert r[1..] == q;
    } else {
      InsertBytes(r[1..], q[1..], k - 1, x);
    }
  }

  lemma {:induction false} PlaceBounds(q: seq<Message>, p: nat)
    ensures var k := Place(q, p);
      k <= |q| && (forall i :: 0 <= i < k ==> q[i].priority >= p) && (k < |q| ==> q[k].priority < p)
  {
    if q != [] && p <= q[0].priority {
      PlaceBounds(q[1..], p);
      forall i | 0 <= i < Place(q, p) ensures q[i].priority >= p { assert i > 0 ==> q[i] == q[1..][i - 1]; }
    }
  }

  lemma {:induction false} SentListed(s: seq<Addr>, msgs: Messages, k: nat, p: Addr, x: Message, r: seq<Addr>)
    requires IsInserted(r, s, k, p) && Listed(s, msgs)
    ensures Listed(r, msgs[p := x])
  {
    forall i | 0 <= i < |r| ensures r[i] in msgs[p := x] {
      if i < k { assert s[i] in s; } else if i > k { assert s[i - 1] in s; }
    }
    forall y | y in msgs[p := x] ensures y in r {
      if y != p {
        var i :| 0 <= i < |s| && s[i] == y;
        assert y == if i < k then r[i] else r[i + 1];
      } else {
        assert r[k] == p;
      }
    }
  }

  /** The view of the list with a new message in it. */
  lemma {:induction false} SentView(s: seq<Addr>, msgs: Messages, k: nat, p: Addr, x: Message, r: seq<Addr>)
    requires IsInserted(r, s, k, p) && p !in msgs && Listed(s, msgs) && Listed(r, msgs[p := x])
    ensures IsInsert(View(r, msgs[p := x]), View(s, msgs), k, x)
  {
    var v, q := View(r, msgs[p := x]), View(s, msgs);
    forall i: nat | i < |v| ensures InsertAt(v, q, k, x, i) { SentAt(s, msgs, k, p, x, r, i); }
    InsertIs(v, q, k, x);
  }

  ghost predicate InsertAt(r: seq<Message>, q: seq<Message>, k: nat, x: Message, i: nat)
    requires |r| == |q| + 1 && i < |r| && k <= |q|
  {
    r[i] == if i < k then q[i] else if i == k then x else q[i - 1]
  }

  lemma {:induction false} InsertIs(r: seq<Message>, q: seq<Message>, k: nat, x: Message)
    requires |r| == |q| + 1 && k <= |q| && forall i: nat :: i < |r| ==> InsertAt(r, q, k, x, i)
    ensures IsInsert(r, q, k, x)
  {
    assert InsertAt(r, q, k, x, k);
    forall i: nat | i < k ensures r[i] == q[i] { assert InsertAt(r, q, k, x, i); }
    forall i: nat | k < i < |r| ensures r[i] == q[i - 1] { assert InsertAt(r, q, k, x, i); }
  }

  lemma {:induction false} SentAt(s: seq<Addr>, msgs: Messages, k: nat, p: Addr, x: Message, r: seq<Addr>, i: nat)
    requires IsInserted(r, s, k, p) && p !in msgs && Listed(s, msgs) && Listed(r, msgs[p := x]) && i < |r|
    ensures InsertAt(View(r, msgs[p := x]), View(s, msgs), k, x, i)
  {
    if i < k {
      assert r[i] == s[i] && s[i] in s;
    } else if i > k {
      assert r[i] == s[i - 1] && s[i - 1] in s;
    }
  }

  lemma {:induction false} Earlier(s: seq<Addr>, msgs: Messages, sent: nat, size: nat)
    requires Listed(s, msgs) && Fit(msgs, sent, size)
    ensures forall y :: y in View(s, msgs) ==> y.ticket < sent
  {
    var q := View(s, msgs);
    forall y | y in q ensures y.ticket < sent {
      var i :| 0 <= i < |q| && q[i] == y;
      assert s[i] in s;
    }
  }

  lemma {:induction false} FitMore(msgs: Messages, p: Addr, x: Message, size: nat)
    requires Fit(msgs, x.ticket, size) && |x.data| <= size
    ensures Fit(msgs[p := x], x.ticket + 1, size)
  {
  }

  /** The message has joined the list. */
  lemma {:induction false} JoinedQueue(m0: Mqueue, s0: seq<Addr>, k: nat, p: Addr, x: Message, m: Mqueue, s: seq<Addr>)
    requires Valid(m0, s0) && p !in m0.msgs && m0.curMsgs < m0.maxMsg && x.ticket == m0.sent && |x.data| <= m0.msgSize
    requires k == Place(View(s0, m0.msgs), x.priority) && IsInserted(s, s0, k, p) && Ring(m.links, HEAD, s)
    requires m == m0.(links := m.links, msgs := m0.msgs[p := x], curMsgs := m0.curMsgs + 1, sent := m0.sent + 1)
    ensures Valid(m, s) && IsInsert(View(s, m.msgs), View(s0, m0.msgs), k, x)
  {
    SentListed(s0, m0.msgs, k, p, x, s);
    SentView(s0, m0.msgs, k, p, x, s);
    Earlier(s0, m0.msgs, m0.sent, m0.msgSize);
    InsertOrdered(View(s0, m0.msgs), x, k, View(s, m.msgs));
    FitMore(m0.msgs, p, x, m0.msgSize);
  }

  /** The insertion of mq_send. */
  method Insert(m0: Mqueue, p: Addr, x: Message, ghost s0: seq<Addr>) returns (m: Mqueue, ghost s: seq<Addr>)
    requires Valid(m0, s0) && p !in m0.msgs && p != HEAD && m0.curMsgs < m0.maxMsg && x.ticket == m0.sent
      && |x.data| <= m0.msgSize
    ensures Valid(m, s) && IsInsert(View(s, m.msgs), View(s0, m0.msgs), Place(View(s0, m0.msgs), x.priority), x)
    ensures m == m0.(links := m.links, msgs := m0.msgs[p := x], curMsgs := m0.curMsgs + 1, sent := m0.sent + 1)
  {
    var at;
    ghost var k;
    at, k := FindPlace(m0, x.priority, s0);
    var links := ListAddTail(m0.links, p, at, HEAD, s0, k);
    s := Inserted(s0, k, p);
    InsertedIs(s0, k, p);
    m := m0.(links := links, msgs := m0.msgs[p := x], curMsgs := m0.curMsgs + 1, sent := m0.sent + 1);
    JoinedQueue(m0, s0, k, p, x, m, s);
  }

  /** What mq_send returns with `n` of at most `max` messages queued; the errors come in this
      order. */
  ghost function Verdict(size: nat, max: nat, n: nat, data: seq<nat>, priority: nat, memory: bool): Result<nat>
  {
    if |data| > size then Err(EMSGSIZE)
    else if priority >= PRIO_MAX then Err(EINVAL)
    else if n >= max then Err(EAGAIN)
    else if !memory then Err(ENOMEM)
    else Ok(0)
  }

  /** mq_send: the errors in their order, and otherwise the message goes behind all messages
      of its own or a higher priority.  `memory` says whether kmalloc finds a message buffer,
      which is then any unused address. */
  method Send(m0: Mqueue, data: seq<nat>, priority: nat, memory: bool, ghost s0: seq<Addr>)
    returns (r: Result<nat>, m: Mqueue, ghost s: seq<Addr>)
    requires Valid(m0, s0)
    ensures Valid(m, s) && r == Verdict(m0.msgSize, m0.maxMsg, |s0|, data, priority, memory)
    ensures r.Ok? <==> |s0| < m0.maxMsg && |data| <= m0.msgSize && priority < 32768 && memory
    ensures r == Err(EMSGSIZE) <==> |data| > m0.msgSize
    ensures r == Err(EINVAL) <==> |data| <= m0.msgSize && priority >= 32768
    ensures r == Err(EAGAIN) <==> |data| <= m0.msgSize && priority < 32768 && |s0| >= m0.maxMsg
    ensures r.Err? ==> m == m0 && s == s0
    ensures r.Ok? ==>
      var (q, x) := (View(s0, m0.msgs), Message(priority, data, m0.sent));
      && IsInsert(View(s, m.msgs), q, Place(q, priority), x)
      && m == m0.(links := m.links, msgs := m.msgs, curMsgs := m0.curMsgs + 1, sent := m0.sent + 1)
  {
    m, s := m0, s0;
    if |data| > m.msgSize {
      return Err(EMSGSIZE), m, s;
    }
    if priority >= PRIO_MAX {
      return Err(EINVAL), m, s;
    }
    if m.curMsgs >= m.maxMsg {
      return Err(EAGAIN), m, s;
    }
    if !memory {
      return Err(ENOMEM), m, s;
    }
    ghost var unused := Unused(m.msgs.Keys + {HEAD});
    assert unused !in m.msgs && unused != HEAD;
    var p: Addr :| p !in m.msgs && p != HEAD;
    m, s := Insert(m, p, Message(priority, data, m.sent), s);
    r := Ok(0);
  }

  // ----- receiving -----

  lemma {:induction false} ReceivedView(s: seq<Addr>, msgs: Messages, t: seq<Addr>)
    requires s != [] && Listed(s, msgs) && t == s[1..] && Listed(t, msgs - {s[0]})
    ensures View(t, msgs - {s[0]}) == View(s, msgs)[1..]
  {
    SameView(t, msgs - {s[0]}, msgs);
  }

  lemma {:induction false} ReceivedListed(s: seq<Addr>, msgs: Messages, t: seq<Addr>)
    requires s != [] && NoRepeats(s) && Listed(s, msgs) && t == s[1..]
    ensures Listed(t, msgs - {s[0]})
  {
    forall y | y in s && y != s[0] ensures y in t {
      var i :| 0 <= i < |s| && s[i] == y;
      assert t[i - 1] == y;
    }
    forall i | 0 <= i < |t| ensures t[i] in s && t[i] != s[0] { assert t[i] == s[i + 1]; }
  }

  lemma {:induction false} SameView(s: seq<Addr>, a: Messages, b: Messages)
    requires forall x :: x in s ==> x in a && x in b && a[x] == b[x]
    ensures View(s, a) == View(s, b)
  {
    if s != [] {
      assert s[0] in s && forall x :: x in s[1..] ==> x in s;
      SameView(s[1..], a, b);
    }
  }

  lemma {:induction false} LeftQueue(m0: Mqueue, s0: seq<Addr>, m: Mqueue, s: seq<Addr>)
    requires Valid(m0, s0) && s0 != [] && s == s0[1..] && Ring(m.links, HEAD, s) && m0.curMsgs > 0
    requires m == m0.(links := m.links, msgs := m0.msgs - {s0[0]}, curMsgs := m0.curMsgs - 1,
                      received := m0.received + 1)
    ensures Valid(m, s) && View(s, m.msgs) == View(s0, m0.msgs)[1..]
  {
    ReceivedListed(s0, m0.msgs, s);
    ReceivedView(s0, m0.msgs, s);
    RestOrdered(View(s0, m0.msgs), View(s, m.msgs));
  }

  lemma {:induction false} RestOrdered(q: seq<Message>, r: seq<Message>)
    requires Ordered(q) && q != [] && r == q[1..]
    ensures Ordered(r)
  {
    forall i, j | 0 <= i < j < |r| ensures Precedes(r[i], r[j]) { assert Precedes(q[i + 1], q[j + 1]); }
  }

  /** mq_receive: the first message, whole; a buffer below the message size of the queue is
      an error, and so is an empty queue. */
  method Receive(m0: Mqueue, length: nat, ghost s0: seq<Addr>)
    returns (r: Result<Message>, m: Mqueue, ghost s: seq<Addr>)
    requires Valid(m0, s0)
    ensures Valid(m, s) && (r.Err? ==> m == m0 && s == s0)
    ensures length < m0.msgSize ==> r == Err(EMSGSIZE)
    ensures length >= m0.msgSize && s0 == [] ==> r == Err(EAGAIN)
    ensures length >= m0.msgSize && s0 != [] ==>
      r == Ok(View(s0, m0.msgs)[0]) && View(s, m.msgs) == View(s0, m0.msgs)[1..]
    ensures r.Ok? ==>
      && |r.value.data| <= length
      && m == m0.(links := m.links, msgs := m.msgs, curMsgs := m.curMsgs, received := m.received)
  {
    m, s := m0, s0;
    if length < m.msgSize {
      return Err(EMSGSIZE), m, s;
    }
    if m.curMsgs == 0 {
      return Err(EAGAIN), m, s;
    }
    Neighbours(m.links, HEAD, s, 0);
    var p: Addr := m.links[HEAD].next;
    assert p == s0[0] && s0[0] in s0;
    var x := m.msgs[p];
    var links := ListDel(m.links, p, HEAD, s, 0);
    assert RemoveAt(s0, 0) == s0[1..];
    m := m.(links := links, msgs := m.msgs - {p}, curMsgs := m.curMsgs - 1, received := m.received + 1);
    s := s0[1..];
    LeftQueue(m0, s0, m, s);
    r := Ok(x);
  }

  /** Receiving until the queue is empty yields every message, in order. */
  method Drain(m0: Mqueue, length: nat, ghost s0: seq<Addr>) returns (out: seq<Message>, m: Mqueue, ghost s: seq<Addr>)
    requires Valid(m0, s0) && length >= m0.msgSize
    ensures Valid(m, s) && s == [] && out == View(s0, m0.msgs) && Ordered(out)
  {
    m, s, out := m0, s0, [];
    ghost var rest := View(s0, m0.msgs);
    assert out + rest == rest;
    while m.curMsgs > 0
      invariant Valid(m, s) && rest == View(s, m.msgs) && m.msgSize == m0.msgSize && out + rest == View(s0, m0.msgs)
      decreases |s|
    {
      var r;
      r, m, s := Receive(m, length, s);
      OneMore(out, rest);
      out, rest := out + [r.value], rest[1..];
    }
    assert out + [] == out;
  }

  lemma {:induction false} OneMore(a: seq<Message>, b: seq<Message>)
    requires b != []
    ensures a + b == a + [b[0]] + b[1..]
  {
  }

  // ----- runs of sends and receives -----

  datatype Op = Put(data: seq<nat>, priority: nat, memory: bool) | Get(length: nat)

  datatype Reply = Sent | Got(msg: Message) | Failed(error: Error)

  /** A queue as its users see it, and how many messages have been sent to it. */
  datatype State = State(q: seq<Message>, sent: nat)

  /** What a queue of at most `max` messages of at most `size` bytes answers. */
  ghost function Answer(size: nat, max: nat, st: State, op: Op): Reply
  {
    match op
    case Put(data, priority, memory) =>
      var v := Verdict(size, max, |st.q|, data, priority, memory);
      if v.Ok? then Sent else Failed(v.error)
    case Get(length) =>
      if length < size then Failed(EMSGSIZE)
      else if st.q == [] then Failed(EAGAIN)
      else Got(st.q[0])
  }

  ghost function After(st: State, op: Op, r: Reply): State
  {
    match op
    case Put(data, priority, _) =>
      if r.Sent? then State(PutIn(st.q, Message(priority, data, st.sent)), st.sent + 1) else st
    case Get(_) =>
      if r.Got? && st.q != [] then State(st.q[1..], st.sent) else st
  }

  /** Behind all messages of its own or a higher priority. */
  ghost function PutIn(q: seq<Message>, x: Message): seq<Message>
  {
    if q == [] || q[0].priority < x.priority then [x] + q else [q[0]] + PutIn(q[1..], x)
  }

  lemma {:induction false} PutInIs(q: seq<Message>, x: Message)
    ensures IsInsert(PutIn(q, x), q, Place(q, x.priority), x)
  {
    if q != [] && x.priority <= q[0].priority {
      PutInIs(q[1..], x);
      var (r, k) := (PutIn(q, x), Place(q, x.priority));
      assert r[1..] == PutIn(q[1..], x);
      forall i | 0 < i < k ensures r[i] == q[i] { assert r[i] == r[1..][i - 1] == q[1..][i - 1]; }
      forall i | k < i < |r| ensures r[i] == q[i - 1] { assert r[i] == r[1..][i - 1] == q[1..][i - 2]; }
    }
  }

  /** The state after a run, and the replies on the way. */
  ghost function Play(size: nat, max: nat, st: State, ops: seq<Op>): State
  {
    if ops == [] then st else
      var (t, op) := (Play(size, max, st, ops[..|ops| - 1]), ops[|ops| - 1]);
      After(t, op, Answer(size, max, t, op))
  }

  ghost function Replies(size: nat, max: nat, st: State, ops: seq<Op>): (rs: seq<Reply>)
    ensures |rs| == |ops|
  {
    if ops == [] then [] else
      var before := ops[..|ops| - 1];
      Replies(size, max, st, before) + [Answer(size, max, Play(size, max, st, before), ops[|ops| - 1])]
  }

  lemma {:induction false} OneMoreOp(size: nat, max: nat, st: State, ops: seq<Op>, op: Op)
    ensures var t := Play(size, max, st, ops);
      && Play(size, max, st, ops + [op]) == After(t, op, Answer(size, max, t, op))
      && Replies(size, max, st, ops + [op]) == Replies(size, max, st, ops) + [Answer(size, max, t, op)]
  {
    assert (ops + [op])[..|ops|] == ops;
  }

  /** A message that was received when `sent` messages had been sent. */
  datatype Receipt = Receipt(msg: Message, sent: nat)

  /** The messages that were accepted, in the order of their sending, and those received. */
  datatype History = History(put: seq<Message>, log: seq<Receipt>)

  /** The history with one more operation, in which `sent` messages had been sent at the start. */
  ghost function Noted(h: History, op: Op, r: Reply, sent: nat): History
  {
    if op.Put? && r.Sent? then h.(put := h.put + [Message(op.priority, op.data, sent + |h.put|)])
    else if r.Got? then h.(log := h.log + [Receipt(r.msg, sent + |h.put|)])
    else h
  }

  ghost function Past(ops: seq<Op>, rs: seq<Reply>, sent: nat): History
    requires |ops| == |rs|
  {
    if ops == [] then History([], []) else
      var n := |ops| - 1;
      Noted(Past(ops[..n], rs[..n], sent), ops[n], rs[n], sent)
  }

  /** Nobody was overtaken: what is received precedes every message that was in the queue then
      and is received later or still queued. */
  ghost predicate InTurn(log: seq<Receipt>, q: seq<Message>, sent: nat)
  {
    && (forall i, j :: 0 <= i < j < |log| && log[j].msg.ticket < log[i].sent ==> Precedes(log[i].msg, log[j].msg))
    && (forall i, y :: 0 <= i < |log| && y in q && y.ticket < log[i].sent ==> Precedes(log[i].msg, y))
    && (forall i :: 0 <= i < |log| ==> log[i].msg.ticket < log[i].sent <= sent)
  }

  lemma {:induction false} SentInTurn(log: seq<Receipt>, q: seq<Message>, x: Message, k: nat, r: seq<Message>)
    requires InTurn(log, q, x.ticket) && IsInsert(r, q, k, x)
    ensures InTurn(log, r, x.ticket + 1)
  {
    forall i, y | 0 <= i < |log| && y in r && y.ticket < log[i].sent ensures Precedes(log[i].msg, y) {
      InsertMember(r, q, k, x, y);
    }
  }

  lemma {:induction false} InsertMember(r: seq<Message>, q: seq<Message>, k: nat, x: Message, y: Message)
    requires IsInsert(r, q, k, x) && y in r
    ensures y == x || y in q
  {
    var j :| 0 <= j < |r| && r[j] == y;
    if j < k { assert q[j] == y; } else if j > k { assert q[j - 1] == y; }
  }

  lemma {:induction false} ReceivedInTurn(log: seq<Receipt>, q: seq<Message>, sent: nat, r: seq<Receipt>)
    requires InTurn(log, q, sent) && Ordered(q) && q != [] && q[0].ticket < sent && r == log + [Receipt(q[0], sent)]
    ensures InTurn(r, q[1..], sent)
  {
    assert q[0] in q;
    forall y | y in q[1..] ensures y in q && Precedes(q[0], y) {
      var j :| 0 <= j < |q[1..]| && q[1..][j] == y;
      assert q[j + 1] == y;
    }
  }

  /** All messages that have been accepted are in the queue or have been received. */
  ghost predicate Kept(before: seq<Message>, put: seq<Message>, log: seq<Receipt>, q: seq<Message>)
  {
    multiset(before) + multiset(put) == multiset(Received(log)) + multiset(q)
  }

  ghost function Received(log: seq<Receipt>): seq<Message>
  {
    if log == [] then [] else Received(log[..|log| - 1]) + [log[|log| - 1].msg]
  }

  lemma {:induction false} SentKept(before: seq<Message>, put: seq<Message>, log: seq<Receipt>, q: seq<Message>,
                                    x: Message, k: nat, r: seq<Message>)
    requires Kept(before, put, log, q) && IsInsert(r, q, k, x)
    ensures Kept(before, put + [x], log, r)
  {
    InsertedBag(q, k, x, r);
    AddBoth(multiset(before), multiset(put), multiset(Received(log)), multiset(q), multiset{x});
  }

  lemma {:induction false} InsertedBag(q: seq<Message>, k: nat, x: Message, r: seq<Message>)
    requires IsInsert(r, q, k, x)
    ensures multiset(r) == multiset(q) + multiset{x}
  {
    assert r == q[..k] + [x] + q[k..] && q == q[..k] + q[k..];
  }

  lemma {:induction false} AddBoth(a: multiset<Message>, b: multiset<Message>, c: multiset<Message>,
                                   d: multiset<Message>, x: multiset<Message>)
    requires a + b == c + d
    ensures a + (b + x) == c + (d + x)
  {
    assert a + (b + x) == (a + b) + x;
  }

  lemma {:induction false} ReceivedKept(before: seq<Message>, put: seq<Message>, log: seq<Receipt>, q: seq<Message>,
                                        r: Receipt)
    requires Kept(before, put, log, q) && q != [] && r.msg == q[0]
    ensures Kept(before, put, log + [r], q[1..])
  {
    assert (log + [r])[..|log|] == log && q == [q[0]] + q[1..];
  }

  ghost predicate Standing(st: State)
  {
    Ordered(st.q) && forall x :: x in st.q ==> x.ticket < st.sent
  }

  /** The messages there were and those that were accepted are those received and those left, and
      none has overtaken a queued one of its own or a higher priority. */
  ghost predicate Fair(st: State, h: History, t: State)
  {
    Standing(t) && t.sent == st.sent + |h.put| && Kept(st.q, h.put, h.log, t.q) && InTurn(h.log, t.q, t.sent)
  }

  /** So it is after every run of sends and receives. */
  lemma {:induction false} EveryRunIsFair(size: nat, max: nat, st: State, ops: seq<Op>)
    requires Standing(st)
    ensures Fair(st, Past(ops, Replies(size, max, st, ops), st.sent), Play(size, max, st, ops))
  {
    if ops != [] {
      var (n, rs) := (|ops| - 1, Replies(size, max, st, ops));
      EveryRunIsFair(size, max, st, ops[..n]);
      assert rs[..n] == Replies(size, max, st, ops[..n]);
      StepIsFair(size, max, st, Past(ops[..n], rs[..n], st.sent), Play(size, max, st, ops[..n]), ops[n]);
    }
  }

  lemma {:induction false} StepIsFair(size: nat, max: nat, st: State, h: History, t: State, op: Op)
    requires Fair(st, h, t)
    ensures var r := Answer(size, max, t, op);
      Fair(st, Noted(h, op, r, st.sent), After(t, op, r))
  {
    Effect(size, max, h, t, op, st.sent);
    var r := Answer(size, max, t, op);
    if r.Sent? {
      SendIsFair(st, h, t, Message(op.priority, op.data, t.sent));
    } else if r.Got? {
      ReceiveIsFair(st, h, t);
    }
  }

  lemma {:induction false} Effect(size: nat, max: nat, h: History, t: State, op: Op, sent: nat)
    requires t.sent == sent + |h.put|
    ensures var r := Answer(size, max, t, op); var (h', t') := (Noted(h, op, r, sent), After(t, op, r));
      match r
      case Sent =>
        && op.Put? && h' == h.(put := h.put + [Message(op.priority, op.data, t.sent)])
        && t' == State(PutIn(t.q, Message(op.priority, op.data, t.sent)), t.sent + 1)
      case Got(x) =>
        && t.q != [] && h' == h.(log := h.log + [Receipt(t.q[0], t.sent)]) && t' == State(t.q[1..], t.sent)
      case Failed(_) => h' == h && t' == t
  {
  }

  lemma {:induction false} SendIsFair(st: State, h: History, t: State, x: Message)
    requires Fair(st, h, t) && x.ticket == t.sent
    ensures Fair(st, h.(put := h.put + [x]), State(PutIn(t.q, x), t.sent + 1))
  {
    var (r, k) := (PutIn(t.q, x), Place(t.q, x.priority));
    PutInIs(t.q, x);
    InsertOrdered(t.q, x, k, r);
    SentInTurn(h.log, t.q, x, k, r);
    SentKept(st.q, h.put, h.log, t.q, x, k, r);
    forall y | y in r ensures y.ticket < t.sent + 1 { InsertMember(r, t.q, k, x, y); }
  }

  lemma {:induction false} ReceiveIsFair(st: State, h: History, t: State)
    requires Fair(st, h, t) && t.q != []
    ensures Fair(st, h.(log := h.log + [Receipt(t.q[0], t.sent)]), State(t.q[1..], t.sent))
  {
    var r := Receipt(t.q[0], t.sent);
    assert t.q[0] in t.q;
    ReceivedInTurn(h.log, t.q, t.sent, h.log + [r]);
    ReceivedKept(st.q, h.put, h.log, t.q, r);
    RestOrdered(t.q, t.q[1..]);
  }

  ghost function StateOf(m: Mqueue, s: seq<Addr>): State
    requires Valid(m, s)
  {
    State(View(s, m.msgs), m.sent)
  }

  /** One operation on the linked list is one operation on the abstract queue. */
  ghost predicate Performs(m0: Mqueue, s0: seq<Addr>, op: Op, r: Reply, m: Mqueue, s: seq<Addr>)
    requires Valid(m0, s0)
  {
    && Valid(m, s) && m.msgSize == m0.msgSize && m.maxMsg == m0.maxMsg
    && r == Answer(m0.msgSize, m0.maxMsg, StateOf(m0, s0), op) && StateOf(m, s) == After(StateOf(m0, s0), op, r)
  }

  method RunSend(m0: Mqueue, data: seq<nat>, priority: nat, memory: bool, ghost s0: seq<Addr>)
    returns (r: Reply, m: Mqueue, ghost s: seq<Addr>)
    requires Valid(m0, s0)
    ensures Performs(m0, s0, Put(data, priority, memory), r, m, s)
  {
    var v;
    v, m, s := Send(m0, data, priority, memory, s0);
    r := if v.Ok? then Sent else Failed(v.error);
    if v.Ok? {
      InsertedAt(View(s, m.msgs), View(s0, m0.msgs), Message(priority, data, m0.sent));
      SendPerforms(m0, s0, data, priority, memory, m, s);
    }
  }

  lemma {:induction false} SendPerforms(m0: Mqueue, s0: seq<Addr>, data: seq<nat>, priority: nat, memory: bool,
                                        m: Mqueue, s: seq<Addr>)
    requires Valid(m0, s0) && Valid(m, s) && Verdict(m0.msgSize, m0.maxMsg, |s0|, data, priority, memory).Ok?
    requires View(s, m.msgs) == PutIn(View(s0, m0.msgs), Message(priority, data, m0.sent))
    requires m.sent == m0.sent + 1 && m.msgSize == m0.msgSize && m.maxMsg == m0.maxMsg
    ensures Performs(m0, s0, Put(data, priority, memory), Sent, m, s)
  {
  }

  method RunReceive(m0: Mqueue, length: nat, ghost s0: seq<Addr>) returns (r: Reply, m: Mqueue, ghost s: seq<Addr>)
    requires Valid(m0, s0)
    ensures Performs(m0, s0, Get(length), r, m, s)
  {
    var v;
    v, m, s := Receive(m0, length, s0);
    r := if v.Ok? then Got(v.value) else Failed(v.error);
  }

  lemma {:induction false} InsertedAt(r: seq<Message>, q: seq<Message>, x: Message)
    requires IsInsert(r, q, Place(q, x.priority), x)
    ensures r == PutIn(q, x)
  {
    PutInIs(q, x);
    InsertsAgree(r, PutIn(q, x), q, Place(q, x.priority), x);
  }

  lemma {:induction false} InsertsAgree(r: seq<Message>, t: seq<Message>, q: seq<Message>, k: nat, x: Message)
    requires IsInsert(r, q, k, x) && IsInsert(t, q, k, x)
    ensures r == t
  {
    assert forall i :: 0 <= i < |r| ==> r[i] == t[i];
  }

  /** Any run of sends and receives on the linked list is the run on the abstract queue, with the
      same replies, so no message is lost and none overtakes a queued one of its own or a higher
      priority. */
  method Run(m0: Mqueue, ops: seq<Op>, ghost s0: seq<Addr>) returns (rs: seq<Reply>, m: Mqueue, ghost s: seq<Addr>)
    requires Valid(m0, s0)
    ensures Valid(m, s) && rs == Replies(m0.msgSize, m0.maxMsg, StateOf(m0, s0), ops)
    ensures StateOf(m, s) == Play(m0.msgSize, m0.maxMsg, StateOf(m0, s0), ops)
    ensures Fair(StateOf(m0, s0), Past(ops, rs, m0.sent), StateOf(m, s))
  {
    rs, m, s := [], m0, s0;
    var i: nat := 0;
    ghost var (size, max, st) := (m0.msgSize, m0.maxMsg, StateOf(m0, s0));
    while i < |ops|
      invariant Valid(m, s) && m.msgSize == size && m.maxMsg == max
      invariant Played(size, max, st, ops, i, rs, StateOf(m, s))
    {
      var r;
      ghost var t := StateOf(m, s);
      match ops[i] {
        case Put(data, priority, memory) =>
          r, m, s := RunSend(m, data, priority, memory, s);
        case Get(length) =>
          r, m, s := RunReceive(m, length, s);
      }
      PlayedMore(size, max, st, ops, i, rs, t, r, StateOf(m, s));
      rs, i := rs + [r], i + 1;
    }
    assert ops[..i] == ops;
    Earlier(s0, m0.msgs, m0.sent, m0.msgSize);
    EveryRunIsFair(size, max, st, ops);
  }

  ghost predicate Played(size: nat, max: nat, st: State, ops: seq<Op>, i: nat, rs: seq<Reply>, t: State)
  {
    i <= |ops| && rs == Replies(size, max, st, ops[..i]) && t == Play(size, max, st, ops[..i])
  }

  lemma {:induction false} PlayedMore(size: nat, max: nat, st: State, ops: seq<Op>, i: nat, rs: seq<Reply>, t: State,
                                      r: Reply, t': State)
    requires Played(size, max, st, ops, i, rs, t) && i < |ops|
    requires r == Answer(size, max, t, ops[i]) && t' == After(t, ops[i], r)
    ensures Played(size, max, st, ops, i + 1, rs + [r], t')
  {
    assert ops[..i + 1] == ops[..i] + [ops[i]];
    OneMoreOp(size, max, st, ops[..i], ops[i]);
  }

  /** Messages of one priority are received in the order in which they were sent. */
  lemma {:induction false} FirstComeFirstServed(log: seq<Receipt>, q: seq<Message>, sent: nat, i: nat, j: nat)
    requires InTurn(log, q, sent) && i < j < |log| && log[i].msg.priority == log[j].msg.priority
    ensures log[i].msg.ticket < log[j].msg.ticket
  {
    assert log[i].msg.ticket < log[i].sent;
  }

  // ----- all queues -----

  /** struct mqueue_manager */
  datatype Manager = Manager(queues: seq<Mqueue>, totalMessages: nat, totalBytes: nat)

  ghost function Count(vs: seq<seq<Message>>): nat
  {
    if vs == [] then 0 else |vs[0]| + Count(vs[1..])
  }

  ghost function AllBytes(vs: seq<seq<Message>>): nat
  {
    if vs == [] then 0 else Bytes(vs[0]) + AllBytes(vs[1..])
  }

  lemma {:induction false} SumsChange(vs: seq<seq<Message>>, k: nat, v: seq<Message>)
    requires k < |vs|
    ensures Count(vs[k := v]) + |vs[k]| == Count(vs) + |v|
      && AllBytes(vs[k := v]) + Bytes(vs[k]) == AllBytes(vs) + Bytes(v)
  {
    if k == 0 {
      assert vs[k := v][1..] == vs[1..];
    } else {
      SumsChange(vs[1..], k - 1, v);
      assert vs[k := v][1..] == vs[1..][k - 1 := v];
    }
  }

  lemma {:induction false} Spent(vs: seq<seq<Message>>, k: nat, v: seq<Message>)
    requires k < |vs| && vs[k] != [] && v == vs[k][1..]
    ensures Count(vs) == Count(vs[k := v]) + 1 && AllBytes(vs) == AllBytes(vs[k := v]) + |vs[k][0].data|
  {
    SumsChange(vs, k, v);
  }

  lemma {:induction false} SumsDrop(vs: seq<seq<Message>>, k: nat)
    requires k < |vs|
    ensures Count(vs[..k] + vs[k + 1..]) + |vs[k]| == Count(vs)
      && AllBytes(vs[..k] + vs[k + 1..]) + Bytes(vs[k]) == AllBytes(vs)
  {
    if k == 0 {
      assert vs[..0] + vs[1..] == vs[1..];
    } else {
      SumsDrop(vs[1..], k - 1);
      assert (vs[..k] + vs[k + 1..])[1..] == vs[1..][..k - 1] + vs[1..][k..];
    }
  }

  /** The queues hold `ss`, which are the messages `vs`. */
  ghost predicate Holds(g: Manager, ss: seq<seq<Addr>>, vs: seq<seq<Message>>)
  {
    && |g.queues| == |ss| == |vs|
    && forall i :: 0 <= i < |ss| ==> Stands(g.queues[i], ss[i], vs[i])
  }

  ghost predicate Stands(m: Mqueue, s: seq<Addr>, v: seq<Message>)
  {
    Valid(m, s) && v == View(s, m.msgs)
  }

  /** The global counters are those of all queued messages. */
  ghost predicate Balanced(g: Manager, vs: seq<seq<Message>>)
  {
    g.totalMessages == Count(vs) && g.totalBytes == AllBytes(vs)
  }

  lemma {:induction false} Earned(g: Manager, vs: seq<seq<Message>>, k: nat, v: seq<Message>, i: nat, x: Message,
                                  g': Manager)
    requires Balanced(g, vs) && k < |vs| && IsInsert(v, vs[k], i, x)
    requires g'.totalMessages == g.totalMessages + 1 && g'.totalBytes == g.totalBytes + |x.data|
    ensures Balanced(g', vs[k := v])
  {
    InsertBytes(v, vs[k], i, x);
    SumsChange(vs, k, v);
  }

  lemma {:induction false} HoldsWith(g: Manager, ss: seq<seq<Addr>>, vs: seq<seq<Message>>, k: nat, m: Mqueue,
                                     s: seq<Addr>, g': Manager)
    requires Holds(g, ss, vs) && k < |vs| && Valid(m, s) && g'.queues == g.queues[k := m]
    ensures Holds(g', ss[k := s], vs[k := View(s, m.msgs)])
  {
  }

  lemma {:induction false} HoldsWithout(g: Manager, ss: seq<seq<Addr>>, vs: seq<seq<Message>>, k: nat, g': Manager,
                                        ss': seq<seq<Addr>>, vs': seq<seq<Message>>)
    requires Holds(g, ss, vs) && k < |vs| && g'.queues == g.queues[..k] + g.queues[k + 1..]
    requires ss' == ss[..k] + ss[k + 1..] && vs' == vs[..k] + vs[k + 1..]
    ensures Holds(g', ss', vs')
  {
    forall i | 0 <= i < |ss'| ensures Stands(g'.queues[i], ss'[i], vs'[i]) {
      var j := if i < k then i else i + 1;
      Cut(g.queues, k, g'.queues, i, j);
      Cut(ss, k, ss', i, j);
      Cut(vs, k, vs', i, j);
      assert Stands(g.queues[j], ss[j], vs[j]);
    }
  }

  lemma {:induction false} Cut<T>(s: seq<T>, k: nat, r: seq<T>, i: nat, j: nat)
    requires k < |s| && r == s[..k] + s[k + 1..] && i < |r| && j == if i < k then i else i + 1
    ensures |r| == |s| - 1 && r[i] == s[j]
  {
  }

  /** mq_send with its effect on the global counters. */
  method SendTo(g0: Manager, k: nat, data: seq<nat>, priority: nat, memory: bool, ghost ss0: seq<seq<Addr>>,
                ghost vs0: seq<seq<Message>>)
    returns (r: Result<nat>, g: Manager, ghost ss: seq<seq<Addr>>, ghost vs: seq<seq<Message>>)
    requires Holds(g0, ss0, vs0) && Balanced(g0, vs0) && k < |vs0|
    ensures Holds(g, ss, vs) && Balanced(g, vs)
    ensures r == Verdict(g0.queues[k].msgSize, g0.queues[k].maxMsg, |vs0[k]|, data, priority, memory)
    ensures r.Ok? <==>
      |vs0[k]| < g0.queues[k].maxMsg && |data| <= g0.queues[k].msgSize && priority < 32768 && memory
    ensures (r.Err? ==> g == g0 && vs == vs0) && |vs| == |vs0| && vs == vs0[k := vs[k]]
    ensures g.queues == g0.queues[k := g.queues[k]] && g.queues[k].refCount == g0.queues[k].refCount
    ensures r.Ok? ==> IsInsert(vs[k], vs0[k], Place(vs0[k], priority), Message(priority, data, g0.queues[k].sent))
  {
    var m;
    ghost var s;
    g, ss, vs := g0, ss0, vs0;
    r, m, s := Send(g.queues[k], data, priority, memory, ss[k]);
    if r.Ok? {
      g := Manager(g.queues[k := m], g.totalMessages + 1, g.totalBytes + |data|);
      ss, vs := ss[k := s], vs[k := View(s, m.msgs)];
      HoldsWith(g0, ss0, vs0, k, m, s, g);
      Earned(g0, vs0, k, vs[k], Place(vs0[k], priority), Message(priority, data, g0.queues[k].sent), g);
    }
  }

  /** mq_receive with its effect on the global counters. */
  method ReceiveFrom(g0: Manager, k: nat, length: nat, ghost ss0: seq<seq<Addr>>, ghost vs0: seq<seq<Message>>)
    returns (r: Result<Message>, g: Manager, ghost ss: seq<seq<Addr>>, ghost vs: seq<seq<Message>>)
    requires Holds(g0, ss0, vs0) && Balanced(g0, vs0) && k < |vs0|
    ensures Holds(g, ss, vs) && Balanced(g, vs) && (r.Err? ==> g == g0 && vs == vs0)
    ensures length < g0.queues[k].msgSize ==> r == Err(EMSGSIZE)
    ensures length >= g0.queues[k].msgSize && vs0[k] == [] ==> r == Err(EAGAIN)
    ensures length >= g0.queues[k].msgSize && vs0[k] != [] ==>
      r == Ok(vs0[k][0]) && vs == vs0[k := vs0[k][1..]]
  {
    var m;
    ghost var s;
    g, ss, vs := g0, ss0, vs0;
    r, m, s := Receive(g.queues[k], length, ss[k]);
    if r.Ok? {
      Enough(g0, vs0, k);
      g := Manager(g.queues[k := m], g.totalMessages - 1, g.totalBytes - |r.value.data|);
      ss, vs := ss[k := s], vs[k := View(s, m.msgs)];
      Settled(g0, ss0, vs0, k, m, s, g);
    }
  }

  lemma {:induction false} Enough(g: Manager, vs: seq<seq<Message>>, k: nat)
    requires Balanced(g, vs) && k < |vs| && vs[k] != []
    ensures g.totalMessages >= 1 && g.totalBytes >= |vs[k][0].data|
  {
    Spent(vs, k, vs[k][1..]);
  }

  lemma {:induction false} Settled(g: Manager, ss: seq<seq<Addr>>, vs: seq<seq<Message>>, k: nat, m: Mqueue,
                                   s: seq<Addr>, g': Manager)
    requires Holds(g, ss, vs) && Balanced(g, vs) && k < |vs| && vs[k] != [] && Valid(m, s)
      && View(s, m.msgs) == vs[k][1..]
    requires g'.queues == g.queues[k := m] && g'.totalMessages == g.totalMessages - 1
      && g'.totalBytes == g.totalBytes - |vs[k][0].data|
    ensures Holds(g', ss[k := s], vs[k := View(s, m.msgs)]) && Balanced(g', vs[k := View(s, m.msgs)])
  {
    HoldsWith(g, ss, vs, k, m, s, g');
    Spent(vs, k, View(s, m.msgs));
  }

  /** mq_unlink of queue `k`: with references left nothing happens, otherwise the queue goes
      and its messages with it.  The counters are not adjusted, so they stay right exactly
      when the queue was empty. */
  method Unlink(g0: Manager, k: nat, ghost ss0: seq<seq<Addr>>, ghost vs0: seq<seq<Message>>)
    returns (g: Manager, ghost ss: seq<seq<Addr>>, ghost vs: seq<seq<Message>>)
    requires Holds(g0, ss0, vs0) && Balanced(g0, vs0) && k < |vs0|
    ensures Holds(g, ss, vs)
    ensures g0.queues[k].refCount > 0 ==> g == g0 && vs == vs0
    ensures g0.queues[k].refCount == 0 ==> vs == vs0[..k] + vs0[k + 1..] && (Balanced(g, vs) <==> vs0[k] == [])
  {
    g, ss, vs := g0, ss0, vs0;
    if g.queues[k].refCount > 0 {
      return;
    }
    SumsDrop(vs0, k);
    g := g.(queues := g.queues[..k] + g.queues[k + 1..]);
    ss, vs := ss[..k] + ss[k + 1..], vs[..k] + vs[k + 1..];
    HoldsWithout(g0, ss0, vs0, k, g, ss, vs);
  }

  /** A closed queue that is unlinked with a message in it leaves the message in the counters. */
  method UnlinkedInUse() returns (g: Manager)
    ensures g.queues == [] && !Balanced(g, [])
  {
    var m := Create(None);
    var r;
    ghost var ss, vs;
    g := Manager([m.(refCount := 0)], 0, 0);
    assert Valid(g.queues[0], []) && Holds(g, [[]], [[]]) && Balanced(g, [[]]);
    r, g, ss, vs := SendTo(g, 0, [], 0, true, [[]], [[]]);
    g, ss, vs := Unlink(g, 0, ss, vs);
    assert vs == [];
  }
}

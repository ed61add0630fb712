/**
 What becomes of each message, over every run of the dispatch queue: a log of what happened to
 whom, and the order in which messages of one priority are taken.
 */
module DispatchFates {
  import opened FifoQueue
  import opened DispatchQueue
  import opened DispatchRuns

  // ---------- The log ----------

  datatype Fate =
    | Accepted(m: nat, size: nat)
    | Dispatched(m: nat, size: nat)
    | Discarded(m: nat, size: nat)
    | Dropped(m: nat, size: nat)

  function Discards(q: seq<Entry<Item>>): (log: seq<Fate>) {
    if q == [] then []
    else (if q[0].item.Msg? then [Discarded(q[0].item.m, q[0].item.size)] else []) + Discards(q[1..])
  }

  /** What a step does to messages. */
  function StepLog(s: State, op: Op): (log: seq<Fate>)
    requires Enabled(s, op)
  {
    match op
    case Enqueue(m, _, size, _, _) => [Accepted(m, size)]
    case LocalDelivery(m, _, size, _) => [Accepted(m, size)]
    case Discard(id) => Discards(OfClass(s.queue, id))
    case DispatcherDelivers =>
      (match s.dispatcher.work
       case Code(_, _) => []
       case Msg(m, _, size) => if s.stop then [Dropped(m, size)] else [Dispatched(m, size)])
    case CourierDelivers(fast) => if fast then [Dispatched(s.courier.work.m, s.courier.work.size)] else []
    case _ => []
  }

  ghost function Log(s: State, ops: seq<Op>): (log: seq<Fate>)
    requires IsRun(s, ops)
    decreases |ops|
  {
    if ops == [] then [] else StepLog(s, ops[0]) + Log(Next(s, ops[0]), ops[1..])
  }

  // ---------- Reading the log ----------

  /** How often message `m` was accepted. */
  function In(log: seq<Fate>, m: nat): nat {
    if log == [] then 0 else (if log[0].Accepted? && log[0].m == m then 1 else 0) + In(log[1..], m)
  }

  /** How often message `m` was dispatched, discarded or dropped. */
  function Out(log: seq<Fate>, m: nat): nat {
    if log == [] then 0 else (if !log[0].Accepted? && log[0].m == m then 1 else 0) + Out(log[1..], m)
  }

  /** The bytes of the dispatched and discarded messages. */
  function Freed(log: seq<Fate>): nat {
    if log == [] then 0 else (if log[0].Dispatched? || log[0].Discarded? then log[0].size else 0) + Freed(log[1..])
  }

  /** The bytes of the dropped messages. */
  function Lost(log: seq<Fate>): nat {
    if log == [] then 0 else (if log[0].Dropped? then log[0].size else 0) + Lost(log[1..])
  }

  lemma {:induction false} LogAppend(a: seq<Fate>, b: seq<Fate>, m: nat)
    ensures In(a + b, m) == In(a, m) + In(b, m) && Out(a + b, m) == Out(a, m) + Out(b, m)
    ensures Freed(a + b) == Freed(a) + Freed(b) && Lost(a + b) == Lost(a) + Lost(b)
    decreases |a|
  {
    if a == [] {
      assert a + b == b;
    } else {
      assert (a + b)[1..] == a[1..] + b;
      LogAppend(a[1..], b, m);
    }
  }

  lemma {:induction false} DiscardsMeasure(q: seq<Entry<Item>>, m: nat)
    ensures In(Discards(q), m) == 0 && Out(Discards(q), m) == Count(q, m)
    ensures Freed(Discards(q)) == Bytes(q) && Lost(Discards(q)) == 0
    decreases |q|
  {
    if q != [] {
      DiscardsMeasure(q[1..], m);
      if q[0].item.Msg? {
        LogAppend([Discarded(q[0].item.m, q[0].item.size)], Discards(q[1..]), m);
      } else {
        assert [] + Discards(q[1..]) == Discards(q[1..]);
      }
    }
  }

  // ---------- Every message has one fate ----------

  lemma EnqueueHeld(s: State, m: nat, stamp: int, size: nat, priority: int, id: nat, k: nat)
    ensures Held(DoEnqueue(s, m, stamp, size, priority, id), k) == Held(s, k) + if k == m then 1 else 0
  {
    InsertCount(s.queue, Entry(Rank(priority), id, Msg(m, stamp, size)), k);
  }

  lemma ArrivalHeld(s: State, op: Op, k: nat)
    requires Enabled(s, op) && (op.Enqueue? || op.LocalDelivery? || op.CourierDelivers? || op.QueueEvent?)
    ensures Held(s, k) + In(StepLog(s, op), k) == Held(Next(s, op), k) + Out(StepLog(s, op), k)
  {
    hide Insert, DoEnqueue;
    match op
    case Enqueue(m, stamp, size, priority, id) => EnqueueHeld(AcceptBytes(s, size), m, stamp, size, priority, id, k);
    case QueueEvent(event, con) => InsertCount(s.queue, Entry(PRIO_HIGHEST + 1, 0, Code(event, con)), k);
    case LocalDelivery(m, stamp, size, priority) => LocalSnoc(s.local, Local(m, stamp, size, priority), k);
    case CourierDelivers(fast) =>
      var w := s.courier.work;
      EnqueueHeld(s.(courier := Ready), w.m, w.stamp, w.size, w.priority, 0, k);
  }

  lemma StepHeld(s: State, op: Op, k: nat)
    requires Enabled(s, op)
    ensures Held(s, k) + In(StepLog(s, op), k) == Held(Next(s, op), k) + Out(StepLog(s, op), k)
  {
    hide Next, Enabled, Held, StepLog;
    if op.Enqueue? || op.LocalDelivery? || op.CourierDelivers? || op.QueueEvent? {
      ArrivalHeld(s, op, k);
    } else if op.Discard? {
      DiscardHeld(s, op.id, k);
    } else {
      OtherHeld(s, op, k);
    }
  }

  lemma DiscardHeld(s: State, id: nat, k: nat)
    requires Enabled(s, Op.Discard(id))
    ensures var log := StepLog(s, Op.Discard(id));
            Held(s, k) + In(log, k) == Held(Next(s, Op.Discard(id)), k) + Out(log, k)
  {
    hide OfClass, NotOfClass, Stamps, Bytes, Discards, Count, LocalCount;
    ClassCount(s.queue, id, k);
    DiscardsMeasure(OfClass(s.queue, id), k);
  }

  lemma OtherHeld(s: State, op: Op, k: nat)
    requires Enabled(s, op) && !(op.Enqueue? || op.LocalDelivery? || op.CourierDelivers? || op.QueueEvent?)
    requires !op.Discard?
    ensures Held(s, k) + In(StepLog(s, op), k) == Held(Next(s, op), k) + Out(StepLog(s, op), k)
  {
    hide Insert, DoEnqueue, DoDiscard, Discards;
  }

  /**
   Over every run each message that is accepted is afterwards still held or has been dispatched,
   discarded or dropped, one for one, whatever its size.
   */
  lemma {:induction false} EachMessageOnce(s: State, ops: seq<Op>, m: nat)
    requires IsRun(s, ops)
    ensures Held(s, m) + In(Log(s, ops), m) == Held(After(s, ops), m) + Out(Log(s, ops), m)
    decreases |ops|
  {
    hide Next, StepLog, Held;
    if ops != [] {
      StepHeld(s, ops[0], m);
      EachMessageOnce(Next(s, ops[0]), ops[1..], m);
      LogAppend(StepLog(s, ops[0]), Log(Next(s, ops[0]), ops[1..]), m);
    }
  }

  /** From the start: at most the latest acceptance of a message is still open, and it is open exactly while held. */
  lemma OneFateEach(ops: seq<Op>, m: nat)
    requires IsRun(Init(), ops)
    ensures In(Log(Init(), ops), m) - Out(Log(Init(), ops), m) == Held(After(Init(), ops), m)
    ensures Held(After(Init(), ops), m) <= 1
  {
    hide Next, Held, InSync;
    EachMessageOnce(Init(), ops, m);
    StartsEmpty(m);
    InitGood();
    ArrivalsInSync(Init(), ops);
    HeldOnce(After(Init(), ops), m);
  }

  lemma StartsEmpty(m: nat)
    ensures Held(Init(), m) == 0
  {
  }

  lemma HeldOnce(s: State, m: nat)
    requires Consistent(s)
    ensures Held(s, m) <= 1
  {
    hide Held;
  }

  // ---------- Bytes, by the log ----------

  /** The sizes of the dispatch calls in progress, which are released when they end. */
  function InCalls(s: State): nat {
    (if s.dispatcher.Delivering? then s.dispatcher.size else 0) + (if s.courier.Delivering? then s.courier.size else 0)
  }

  lemma StepBytes(s: State, op: Op)
    requires Enabled(s, op)
    ensures s.ledger.released + InCalls(s) + Freed(StepLog(s, op)) == Next(s, op).ledger.released + InCalls(Next(s, op))
    ensures Next(s, op).ledger.dropped == s.ledger.dropped + Lost(StepLog(s, op))
  {
    hide Insert, OfClass, NotOfClass, Stamps, Bytes, Discards;
    if op.Discard? {
      DiscardsMeasure(OfClass(s.queue, op.id), 0);
    } else {
      hide DoDiscard;
    }
  }

  /** Over every run the bytes released are the sizes of the messages logged as dispatched or discarded. */
  lemma {:induction false} ReleasedAsLogged(s: State, ops: seq<Op>)
    requires IsRun(s, ops)
    ensures s.ledger.released + InCalls(s) + Freed(Log(s, ops)) ==
            After(s, ops).ledger.released + InCalls(After(s, ops))
    ensures After(s, ops).ledger.dropped == s.ledger.dropped + Lost(Log(s, ops))
    decreases |ops|
  {
    hide Next, StepLog, InCalls;
    if ops != [] {
      StepBytes(s, ops[0]);
      ReleasedAsLogged(Next(s, ops[0]), ops[1..]);
      LogAppend(StepLog(s, ops[0]), Log(Next(s, ops[0]), ops[1..]), 0);
    }
  }

  /** Without a shutdown of the dispatcher no message is ever dropped, of whatever size. */
  lemma {:induction false} NothingDropped(s: State, ops: seq<Op>)
    requires IsRun(s, ops) && !s.stop && forall op <- ops :: !op.StopDispatcher?
    ensures !After(s, ops).stop && forall f <- Log(s, ops) :: !f.Dropped?
    decreases |ops|
  {
    hide Next, StepLog;
    if ops != [] {
      assert ops[0] in ops;
      StepDropsNothing(s, ops[0]);
      NothingDropped(Next(s, ops[0]), ops[1..]);
    }
  }

  lemma StepDropsNothing(s: State, op: Op)
    requires Enabled(s, op) && !s.stop && !op.StopDispatcher?
    ensures !Next(s, op).stop && forall f <- StepLog(s, op) :: !f.Dropped?
  {
    hide Insert, OfClass, NotOfClass;
    if op.Discard? {
      DiscardsOnly(OfClass(s.queue, op.id));
    }
  }

  lemma {:induction false} DiscardsOnly(q: seq<Entry<Item>>)
    ensures forall f <- Discards(q) :: f.Discarded?
    decreases |q|
  {
    if q != [] {
      DiscardsOnly(q[1..]);
    }
  }

  // ---------- Order within a priority ----------

  /** What a step adds to the queue. */
  function StepQueued(s: State, op: Op): (q: seq<Entry<Item>>)
    requires Enabled(s, op)
  {
    match op
    case Enqueue(m, stamp, size, priority, id) => [Entry(Rank(priority), id, Msg(m, stamp, size))]
    case QueueEvent(event, con) => if s.stop then [] else [Entry(PRIO_HIGHEST + 1, 0, Code(event, con))]
    case CourierDelivers(fast) =>
      var w := s.courier.work;
      if fast then [] else [Entry(Rank(w.priority), 0, Msg(w.m, w.stamp, w.size))]
    case _ => []
  }

  /** What a step hands to the dispatcher. */
  function StepTaken(s: State, op: Op): (q: seq<Entry<Item>>) {
    if op.DispatcherTakes? && s.queue != [] then [s.queue[0]] else []
  }

  ghost function Queued(s: State, ops: seq<Op>): (q: seq<Entry<Item>>)
    requires IsRun(s, ops)
    decreases |ops|
  {
    if ops == [] then [] else StepQueued(s, ops[0]) + Queued(Next(s, ops[0]), ops[1..])
  }

  ghost function Taken(s: State, ops: seq<Op>): (q: seq<Entry<Item>>)
    requires IsRun(s, ops)
    decreases |ops|
  {
    if ops == [] then [] else StepTaken(s, ops[0]) + Taken(Next(s, ops[0]), ops[1..])
  }

  /** `a` is what is left of `b` after leaving elements out. */
  ghost predicate Within<T>(a: seq<T>, b: seq<T>)
    decreases |b|
  {
    a == [] || (b != [] && ((a[0] == b[0] && Within(a[1..], b[1..])) || Within(a, b[1..])))
  }

  lemma {:induction false} WithinItself<T>(a: seq<T>)
    ensures Within(a, a)
    decreases |a|
  {
    if a != [] {
      WithinItself(a[1..]);
    }
  }

  lemma {:induction false} WithinTrans<T>(a: seq<T>, b: seq<T>, c: seq<T>)
    requires Within(a, b) && Within(b, c)
    ensures Within(a, c)
    decreases |c|
  {
    if a != [] {
      if b[0] == c[0] && Within(b[1..], c[1..]) {
        if a[0] == b[0] && Within(a[1..], b[1..]) {
          WithinTrans(a[1..], b[1..], c[1..]);
        } else {
          WithinTrans(a, b[1..], c[1..]);
        }
      } else {
        WithinTrans(a, b, c[1..]);
      }
    }
  }

  lemma {:induction false} WithinAfter<T>(x: seq<T>, a: seq<T>, b: seq<T>)
    requires Within(a, b)
    ensures Within(x + a, x + b)
    decreases |x|
  {
    if x == [] {
      assert x + a == a && x + b == b;
    } else {
      WithinAfter(x[1..], a, b);
      assert (x + a)[1..] == x[1..] + a && (x + b)[1..] == x[1..] + b;
    }
  }

  lemma {:induction false} WithinBefore<T>(a: seq<T>, b: seq<T>, y: seq<T>)
    requires Within(a, b)
    ensures Within(a + y, b + y)
    decreases |b|
  {
    if b == [] {
      WithinItself(a + y);
    } else {
      assert (b + y)[1..] == b[1..] + y;
      if a != [] && a[0] == b[0] && Within(a[1..], b[1..]) {
        WithinBefore(a[1..], b[1..], y);
        assert (a + y)[1..] == a[1..] + y;
      } else {
        WithinBefore(a, b[1..], y);
      }
    }
  }

  lemma {:induction false} RankAppend(a: seq<Entry<Item>>, b: seq<Entry<Item>>, rank: nat)
    ensures OfRank(a + b, rank) == OfRank(a, rank) + OfRank(b, rank)
    decreases |a|
  {
    if a == [] {
      assert a + b == b;
    } else {
      assert (a + b)[1..] == a[1..] + b;
      RankAppend(a[1..], b, rank);
      Assoc(if a[0].rank == rank then [a[0]] else [], OfRank(a[1..], rank), OfRank(b, rank));
    }
  }

  lemma {:induction false} ClassWithin(q: seq<Entry<Item>>, id: nat, rank: nat)
    ensures Within(OfRank(NotOfClass(q, id), rank), OfRank(q, rank))
    decreases |q|
  {
    if q != [] {
      var rest := NotOfClass(q[1..], id);
      ClassWithin(q[1..], id, rank);
      var x := if q[0].rank == rank then [q[0]] else [];
      if q[0].cls == id {
        assert [] + rest == rest;
        WithinSkip(x, OfRank(rest, rank), OfRank(q[1..], rank));
      } else {
        assert ([q[0]] + rest)[1..] == rest;
        WithinAfter(x, OfRank(rest, rank), OfRank(q[1..], rank));
      }
    }
  }

  lemma WithinSkip<T>(x: seq<T>, a: seq<T>, b: seq<T>)
    requires Within(a, b) && |x| <= 1
    ensures Within(a, x + b)
  {
    if x == [] {
      assert x + b == b;
    } else {
      assert (x + b)[1..] == b;
    }
  }

  ghost predicate Discarding(ops: seq<Op>) {
    exists op <- ops :: op.Discard?
  }

  /** What is taken and what stays, of one priority, against what was there and what came. */
  lemma StepOrder(s: State, op: Op, rank: nat)
    requires Enabled(s, op) && Sorted(s.queue)
    ensures var old', new' := OfRank(s.queue, rank) + OfRank(StepQueued(s, op), rank),
                              OfRank(StepTaken(s, op), rank) + OfRank(Next(s, op).queue, rank);
            Within(new', old') && (!op.Discard? ==> new' == old')
  {
    hide Insert, OfRank, NotOfClass, OfClass, Within;
    RankNone(rank);
    var was, added := OfRank(s.queue, rank), OfRank(StepQueued(s, op), rank);
    WithinItself(was + added);
    assert was + [] == was && [] + was == was;
    if StepQueued(s, op) != [] {
      var e := StepQueued(s, op)[0];
      QueuedInserted(s, op, e);
      InsertOfRank(s.queue, e, rank);
      RankOne(e, rank);
      assert [] + OfRank(Insert(s.queue, e), rank) == OfRank(Insert(s.queue, e), rank);
    } else if op.Discard? {
      ClassWithin(s.queue, op.id, rank);
      assert [] + OfRank(Next(s, op).queue, rank) == OfRank(Next(s, op).queue, rank);
    } else if StepTaken(s, op) != [] {
      assert s.queue == [s.queue[0]] + s.queue[1..];
      RankAppend([s.queue[0]], s.queue[1..], rank);
    } else {
      QueueKept(s, op);
    }
  }

  lemma RankNone(rank: nat)
    ensures OfRank<Item>([], rank) == []
  {
  }

  lemma RankOne(e: Entry<Item>, rank: nat)
    ensures OfRank([e], rank) == if e.rank == rank then [e] else []
  {
    assert [e][1..] == [];
  }

  lemma QueuedInserted(s: State, op: Op, e: Entry<Item>)
    requires Enabled(s, op) && StepQueued(s, op) == [e]
    ensures Next(s, op).queue == Insert(s.queue, e) && !op.Discard? && StepTaken(s, op) == []
  {
    hide Insert;
  }

  lemma QueueKept(s: State, op: Op)
    requires Enabled(s, op) && StepQueued(s, op) == [] && StepTaken(s, op) == [] && !op.Discard?
    ensures Next(s, op).queue == s.queue
  {
    hide Insert;
  }

  /**
   Within a priority messages reach the dispatcher in the order in which they were queued, over
   every run: those taken, followed by those still queued, are those that were there or came, in
   that order, less discarded ones; and exactly those in a run without discards.
   */
  lemma {:induction false} TakenInOrder(s: State, ops: seq<Op>, rank: nat)
    requires IsRun(s, ops) && Sorted(s.queue)
    ensures var old', new' := OfRank(s.queue, rank) + OfRank(Queued(s, ops), rank),
                              OfRank(Taken(s, ops), rank) + OfRank(After(s, ops).queue, rank);
            Within(new', old') && (!Discarding(ops) ==> new' == old')
    decreases |ops|
  {
    hide Next, StepQueued, StepTaken, OfRank, Within, Enabled;
    if ops == [] {
      RankNone(rank);
      WithinItself(OfRank(s.queue, rank));
      assert OfRank(s.queue, rank) + [] == [] + OfRank(s.queue, rank);
      assert [] + OfRank(s.queue, rank) == OfRank(s.queue, rank);
    } else {
      var t, rest := Next(s, ops[0]), ops[1..];
      NextSorted(s, ops[0]);
      StepOrder(s, ops[0], rank);
      TakenInOrder(t, rest, rank);
      RankAppend(StepQueued(s, ops[0]), Queued(t, rest), rank);
      RankAppend(StepTaken(s, ops[0]), Taken(t, rest), rank);
      Chain(OfRank(s.queue, rank), OfRank(StepQueued(s, ops[0]), rank), OfRank(StepTaken(s, ops[0]), rank),
            OfRank(t.queue, rank), OfRank(Queued(t, rest), rank), OfRank(Taken(t, rest), rank),
            OfRank(After(t, rest).queue, rank));
      assert !Discarding(ops) ==> !ops[0].Discard? && !Discarding(rest);
    }
  }

  lemma Chain<T>(q: seq<T>, e1: seq<T>, t1: seq<T>, q': seq<T>, e2: seq<T>, t2: seq<T>, q'': seq<T>)
    requires Within(t1 + q', q + e1) && Within(t2 + q'', q' + e2)
    ensures Within((t1 + t2) + q'', q + (e1 + e2))
    ensures t1 + q' == q + e1 && t2 + q'' == q' + e2 ==> (t1 + t2) + q'' == q + (e1 + e2)
  {
    hide Within;
    Assoc(t1, t2, q'');
    Assoc(t1, q', e2);
    Assoc(q, e1, e2);
    WithinAfter(t1, t2 + q'', q' + e2);
    WithinBefore(t1 + q', q + e1, e2);
    WithinTrans((t1 + t2) + q'', (t1 + q') + e2, q + (e1 + e2));
  }

  lemma Assoc<T>(a: seq<T>, b: seq<T>, c: seq<T>)
    ensures a + (b + c) == (a + b) + c
  {
  }
}

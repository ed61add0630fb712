/** What holds of the dispatch queue over every interleaving of its steps. */
module DispatchRuns {
  import opened FifoQueue
  import opened DispatchQueue

  // ---------- Measures ----------

  lemma {:induction false} InsertCount(q: seq<Entry<Item>>, e: Entry<Item>, m: nat)
    ensures Count(Insert(q, e), m) == Count(q, m) + Is(e.item, m)
    decreases |q|
  {
    if q == [] || q[0].rank < e.rank {
      assert ([e] + q)[1..] == q;
    } else {
      var rest := Insert(q[1..], e);
      InsertCount(q[1..], e, m);
      assert ([q[0]] + rest)[1..] == rest;
    }
  }

  lemma {:induction false} InsertBytes(q: seq<Entry<Item>>, e: Entry<Item>)
    ensures Bytes(Insert(q, e)) == Bytes(q) + Size(e.item)
    decreases |q|
  {
    if q == [] || q[0].rank < e.rank {
      assert ([e] + q)[1..] == q;
    } else {
      var rest := Insert(q[1..], e);
      InsertBytes(q[1..], e);
      assert ([q[0]] + rest)[1..] == rest;
    }
  }

  lemma {:induction false} InsertStamps(q: seq<Entry<Item>>, e: Entry<Item>)
    ensures Stamps(Insert(q, e)) == Stamps(q) + Filed(e.item)
    decreases |q|
  {
    if q == [] || q[0].rank < e.rank {
      assert ([e] + q)[1..] == q;
    } else {
      var rest := Insert(q[1..], e);
      InsertStamps(q[1..], e);
      assert ([q[0]] + rest)[1..] == rest;
    }
  }

  lemma {:induction false} ClassCount(q: seq<Entry<Item>>, id: nat, m: nat)
    ensures Count(q, m) == Count(OfClass(q, id), m) + Count(NotOfClass(q, id), m)
    decreases |q|
  {
    if q != [] {
      var a, b := OfClass(q[1..], id), NotOfClass(q[1..], id);
      ClassCount(q[1..], id, m);
      assert ([q[0]] + a)[1..] == a && ([q[0]] + b)[1..] == b && [] + a == a && [] + b == b;
    }
  }

  lemma {:induction false} ClassBytes(q: seq<Entry<Item>>, id: nat)
    ensures Bytes(q) == Bytes(OfClass(q, id)) + Bytes(NotOfClass(q, id))
    decreases |q|
  {
    if q != [] {
      var a, b := OfClass(q[1..], id), NotOfClass(q[1..], id);
      ClassBytes(q[1..], id);
      assert ([q[0]] + a)[1..] == a && ([q[0]] + b)[1..] == b && [] + a == a && [] + b == b;
    }
  }

  lemma {:induction false} ClassStamps(q: seq<Entry<Item>>, id: nat)
    ensures Stamps(q) == Stamps(OfClass(q, id)) + Stamps(NotOfClass(q, id))
    decreases |q|
  {
    if q != [] {
      var a, b := OfClass(q[1..], id), NotOfClass(q[1..], id);
      ClassStamps(q[1..], id);
      assert ([q[0]] + a)[1..] == a && ([q[0]] + b)[1..] == b && [] + a == a && [] + b == b;
    }
  }

  /** A filed message is one of the queue's. */
  lemma {:induction false} StampCounted(q: seq<Entry<Item>>, p: Stamp)
    requires p in Stamps(q)
    ensures Count(q, p.1) >= 1
    decreases |q|
  {
    if p !in Filed(q[0].item) {
      StampCounted(q[1..], p);
    }
  }

  lemma {:induction false} EntryFiled(q: seq<Entry<Item>>, e: Entry<Item>)
    requires e in q
    ensures Filed(e.item) <= Stamps(q)
    decreases |q|
  {
    if e != q[0] {
      EntryFiled(q[1..], e);
    }
  }

  lemma {:induction false} LocalSnoc(q: seq<Local>, x: Local, m: nat)
    ensures LocalCount(q + [x], m) == LocalCount(q, m) + (if x.m == m then 1 else 0)
    ensures LocalBytes(q + [x]) == LocalBytes(q) + x.size
    decreases |q|
  {
    if q == [] {
      assert q + [x] == [x];
    } else {
      assert (q + [x])[1..] == q[1..] + [x];
      LocalSnoc(q[1..], x, m);
    }
  }

  // ---------- The arrival containers ----------

  /** Both arrival containers hold exactly the queued messages. */
  ghost predicate InSync(q: seq<Entry<Item>>, arrivals: set<Stamp>, index: map<nat, Stamp>) {
    && arrivals == Stamps(q)
    && (forall p :: p in arrivals ==> p.1 in index && index[p.1] == p)
    && (forall m :: m in index ==> index[m] in arrivals && index[m].1 == m)
  }

  lemma SyncInsert(q: seq<Entry<Item>>, arrivals: set<Stamp>, index: map<nat, Stamp>, e: Entry<Item>)
    requires InSync(q, arrivals, index) && e.item.Msg? && Count(q, e.item.m) == 0
    ensures e.item.m !in index
    ensures InSync(Insert(q, e), arrivals + Filed(e.item), index[e.item.m := (e.item.stamp, e.item.m)])
  {
    hide Insert;
    InsertStamps(q, e);
    var m := e.item.m;
    forall p | p in arrivals ensures p.1 != m {
      StampCounted(q, p);
    }
  }

  lemma SyncInsertEvent(q: seq<Entry<Item>>, arrivals: set<Stamp>, index: map<nat, Stamp>, e: Entry<Item>)
    requires InSync(q, arrivals, index) && e.item.Code?
    ensures InSync(Insert(q, e), arrivals, index)
  {
    hide Insert;
    InsertStamps(q, e);
  }

  /** The first message of a queue is filed, and unfiling it is right. */
  lemma SyncTake(q: seq<Entry<Item>>, arrivals: set<Stamp>, index: map<nat, Stamp>)
    requires InSync(q, arrivals, index) && q != [] && q[0].item.Msg? && Count(q, q[0].item.m) <= 1
    ensures q[0].item.m in index && index[q[0].item.m] == (q[0].item.stamp, q[0].item.m)
    ensures InSync(q[1..], arrivals - {index[q[0].item.m]}, index - {q[0].item.m})
  {
    var m, p := q[0].item.m, (q[0].item.stamp, q[0].item.m);
    assert p in Filed(q[0].item);
    assert Count(q[1..], m) == 0;
    forall r | r in Stamps(q[1..]) ensures r.1 != m {
      StampCounted(q[1..], r);
    }
  }

  lemma SyncTakeEvent(q: seq<Entry<Item>>, arrivals: set<Stamp>, index: map<nat, Stamp>)
    requires InSync(q, arrivals, index) && q != [] && q[0].item.Code?
    ensures InSync(q[1..], arrivals, index)
  {
  }

  /** What a discard removes is filed, and nothing that stays is filed under the same message. */
  lemma SplitFiled(q: seq<Entry<Item>>, arrivals: set<Stamp>, index: map<nat, Stamp>, id: nat)
    requires InSync(q, arrivals, index) && (forall m :: Count(q, m) <= 1)
    ensures forall e :: e in OfClass(q, id) && e.item.Msg? ==> e.item.m in index
    ensures forall p, r :: p in Stamps(NotOfClass(q, id)) && r in Stamps(OfClass(q, id)) ==> p.1 != r.1
    ensures arrivals == Stamps(OfClass(q, id)) + Stamps(NotOfClass(q, id))
  {
    hide OfClass, NotOfClass;
    var removed, kept := OfClass(q, id), NotOfClass(q, id);
    ClassStamps(q, id);
    forall e | e in removed && e.item.Msg? ensures e.item.m in index {
      EntryFiled(removed, e);
      assert (e.item.stamp, e.item.m) in Stamps(removed);
    }
    forall p, r | p in Stamps(kept) && r in Stamps(removed) ensures p.1 != r.1 {
      StampCounted(kept, p);
      StampCounted(removed, r);
      ClassCount(q, id, p.1);
    }
  }

  lemma SyncDiscard(q: seq<Entry<Item>>, arrivals: set<Stamp>, index: map<nat, Stamp>, id: nat)
    requires InSync(q, arrivals, index) && (forall m :: Count(q, m) <= 1)
    ensures InSync(NotOfClass(q, id), arrivals - Stamps(OfClass(q, id)),
                   index - (set p | p in Stamps(OfClass(q, id)) :: p.1))
  {
    hide OfClass, NotOfClass, Stamps;
    SplitFiled(q, arrivals, index, id);
  }

  /** No message waits in two places. */
  ghost predicate NoneTwice(s: State) {
    forall m :: Held(s, m) <= 1
  }

  /** Events are filed under class 0, which `get_id` never hands out. */
  ghost predicate EventsUnclassed(s: State) {
    && s.nextId >= 1
    && (forall e :: e in s.queue && e.item.Code? ==> e.cls == 0)
  }

  ghost predicate Consistent(s: State) {
    InSync(s.queue, s.arrivals, s.index) && NoneTwice(s) && EventsUnclassed(s)
  }

  lemma EnqueueConsistent(s: State, m: nat, stamp: int, size: nat, priority: int, id: nat)
    requires Consistent(s) && Held(s, m) == 0
    ensures Consistent(DoEnqueue(s, m, stamp, size, priority, id))
  {
    hide Insert, InSync;
    var e := Entry(Rank(priority), id, Msg(m, stamp, size));
    SyncInsert(s.queue, s.arrivals, s.index, e);
    var t := DoEnqueue(s, m, stamp, size, priority, id);
    forall k ensures Held(t, k) <= 1 {
      InsertCount(s.queue, e, k);
      assert Held(s, k) <= 1;
    }
    forall x | x in t.queue && x.item.Code? ensures x.cls == 0 {
      InsertMember(s.queue, e, x);
    }
  }

  lemma EventConsistent(s: State, event: Event, con: nat)
    requires Consistent(s)
    ensures Consistent(Next(s, QueueEvent(event, con)))
  {
    hide Insert, InSync;
    var e := Entry(PRIO_HIGHEST + 1, 0, Code(event, con));
    SyncInsertEvent(s.queue, s.arrivals, s.index, e);
    var t := Next(s, QueueEvent(event, con));
    forall k ensures Held(t, k) <= 1 {
      InsertCount(s.queue, e, k);
      assert Held(s, k) <= 1;
    }
    forall x | x in t.queue && x.item.Code? ensures x.cls == 0 {
      InsertMember(s.queue, e, x);
    }
  }

  lemma TakeConsistent(s: State)
    requires Consistent(s) && s.dispatcher.Ready?
    ensures Consistent(DispatcherTake(s)) && AssertionsHold(s, DispatcherTakes)
  {
    hide InSync;
    var t := DispatcherTake(s);
    if s.queue != [] {
      var item := s.queue[0].item;
      if item.Msg? {
        assert Held(s, item.m) <= 1;
        SyncTake(s.queue, s.arrivals, s.index);
      } else {
        SyncTakeEvent(s.queue, s.arrivals, s.index);
      }
    }
    forall k ensures Held(t, k) <= 1 {
      assert Held(s, k) <= 1;
    }
  }

  lemma DiscardConsistent(s: State, id: nat)
    requires Consistent(s) && id >= 1
    ensures Consistent(DoDiscard(s, id)) && AssertionsHold(s, Discard(id))
  {
    hide OfClass, NotOfClass, InSync;
    var t := DoDiscard(s, id);
    forall m ensures Count(s.queue, m) <= 1 && Held(t, m) <= 1 {
      assert Held(s, m) <= 1;
      ClassCount(s.queue, id, m);
    }
    SplitFiled(s.queue, s.arrivals, s.index, id);
    SyncDiscard(s.queue, s.arrivals, s.index, id);
    forall x | x in t.queue && x.item.Code? ensures x.cls == 0 {
      ClassMember(s.queue, id, x);
    }
    forall e | e in OfClass(s.queue, id) ensures e.item.Msg? {
      ClassMember(s.queue, id, e);
    }
  }

  lemma HandOverConsistent(s: State)
    requires Consistent(s) && s.courier.Holding?
    ensures Consistent(CourierDeliver(s, false))
  {
    hide InSync, DoEnqueue;
    var w, t := s.courier.work, s.(courier := Ready);
    forall k ensures Held(t, k) <= 1 {
      assert Held(s, k) <= 1;
    }
    assert Held(s, w.m) <= 1;
    EnqueueConsistent(t, w.m, w.stamp, w.size, w.priority, 0);
  }

  /** Steps that leave the queue and its files alone and hold no message more than before. */
  lemma OtherConsistent(s: State, op: Op)
    requires Consistent(s) && Enabled(s, op)
    requires !op.Enqueue? && !op.QueueEvent? && !op.Discard? && !op.DispatcherTakes?
    requires op.CourierDelivers? ==> op.fast
    ensures Consistent(Next(s, op)) && AssertionsHold(s, op)
  {
    hide InSync;
    var t := Next(s, op);
    forall k ensures Held(t, k) <= 1 {
      assert Held(s, k) <= 1;
      if op.LocalDelivery? {
        LocalSnoc(s.local, Local(op.m, op.stamp, op.size, op.priority), k);
      }
    }
  }

  lemma NextConsistent(s: State, op: Op)
    requires Consistent(s) && Enabled(s, op)
    ensures Consistent(Next(s, op)) && AssertionsHold(s, op)
  {
    hide DoEnqueue, DispatcherTake, DoDiscard, Insert, CourierDeliver, Consistent, AssertionsHold;
    match op
    case Enqueue(m, stamp, size, priority, id) =>
      AcceptKeeps(s, size);
      EnqueueConsistent(AcceptBytes(s, size), m, stamp, size, priority, id);
      NoAssertion(s, op);
    case QueueEvent(event, con) => EventConsistent(s, event, con); NoAssertion(s, op);
    case Discard(id) => DiscardConsistent(s, id);
    case DispatcherTakes => TakeConsistent(s);
    case CourierDelivers(fast) =>
      if fast { OtherConsistent(s, op); } else { HandOverConsistent(s); NoAssertion(s, op); }
    case _ => OtherConsistent(s, op);
  }

  lemma NoAssertion(s: State, op: Op)
    requires !op.Discard? && !op.DispatcherTakes?
    ensures AssertionsHold(s, op)
  {
  }

  lemma AcceptKeeps(s: State, n: nat)
    requires Consistent(s)
    ensures Consistent(AcceptBytes(s, n)) && forall m :: Held(AcceptBytes(s, n), m) == Held(s, m)
  {
    hide InSync;
    forall m ensures Held(AcceptBytes(s, n), m) == Held(s, m) {}
    forall m ensures Held(AcceptBytes(s, n), m) <= 1 {
      assert Held(s, m) <= 1;
    }
  }

  /**
   Arrival bookkeeping, over every run: the arrival set and its index always hold exactly the
   queued messages, no message waits in two places, and no assertion of the source fails at
   any step that comes next.
   */
  lemma {:induction false} ArrivalsInSync(s: State, ops: seq<Op>)
    requires Consistent(s) && IsRun(s, ops)
    ensures Consistent(After(s, ops))
    ensures forall op :: Enabled(After(s, ops), op) ==> AssertionsHold(After(s, ops), op)
    decreases |ops|
  {
    if ops == [] {
      forall op | Enabled(s, op) ensures AssertionsHold(s, op) {
        NextConsistent(s, op);
      }
    } else {
      NextConsistent(s, ops[0]);
      ArrivalsInSync(Next(s, ops[0]), ops[1..]);
    }
  }

  /** The queue an observer dequeues from is always in priority order. */
  lemma {:induction false} QueueSorted(s: State, ops: seq<Op>)
    requires Sorted(s.queue) && IsRun(s, ops)
    ensures Sorted(After(s, ops).queue)
    decreases |ops|
  {
    if ops != [] {
      NextSorted(s, ops[0]);
      QueueSorted(Next(s, ops[0]), ops[1..]);
    }
  }

  lemma NextSorted(s: State, op: Op)
    requires Sorted(s.queue) && Enabled(s, op)
    ensures Sorted(Next(s, op).queue)
  {
    match op
    case Enqueue(m, stamp, size, priority, id) => InsertSorted(s.queue, Entry(Rank(priority), id, Msg(m, stamp, size)));
    case QueueEvent(event, con) => InsertSorted(s.queue, Entry(PRIO_HIGHEST + 1, 0, Code(event, con)));
    case Discard(id) => ClassSorted(s.queue, id);
    case CourierDelivers(_) =>
      var w := s.courier.work;
      InsertSorted(s.queue, Entry(Rank(w.priority), 0, Msg(w.m, w.stamp, w.size)));
    case _ =>
  }

  // ---------- Wake-ups ----------

  /**
   A worker asleep with no wake-up on the way has nothing to do: its queue is empty and
   nobody has asked it to stop. The stop flags follow the stages of the shutdown.
   */
  ghost predicate Awake(s: State) {
    && (s.dispatcher == Blocked(false) ==> s.queue == [] && !s.stop)
    && (s.courier == Blocked(false) ==> s.local == [] && !s.stopLocal)
    && (s.stopLocal <==> s.stage.Joining?)
    && (s.stop <==> s.stage.Stopping?)
  }

  lemma NextAwake(s: State, op: Op)
    requires Awake(s) && Enabled(s, op)
    ensures Awake(Next(s, op))
  {
    hide Insert, NotOfClass, OfClass, Held;
    if op.Discard? && s.queue == [] {
      NoneOfNone(op.id);
    }
  }

  lemma NoneOfNone(id: nat)
    ensures NotOfClass<Item>([], id) == []
  {
  }

  /**
   Dispatcher wake-ups, over every interleaving: although `enqueue` signals only an empty
   queue, no worker sleeps through work or through a request to stop; so a shutdown never
   waits for a sleeping worker.
   */
  lemma {:induction false} NoSleepingWorker(s: State, ops: seq<Op>)
    requires Awake(s) && IsRun(s, ops)
    ensures Awake(After(s, ops))
    ensures After(s, ops).stage.Joining? ==> After(s, ops).courier != Blocked(false)
    ensures After(s, ops).stage.Stopping? ==> After(s, ops).dispatcher != Blocked(false)
    decreases |ops|
  {
    if ops != [] {
      NextAwake(s, ops[0]);
      NoSleepingWorker(Next(s, ops[0]), ops[1..]);
    }
  }

  /** A worker leaves only when it has been told to and has emptied its own queue. */
  lemma ExitDrained(s: State, op: Op)
    requires Enabled(s, op)
    ensures Next(s, op).dispatcher.Exited? && !s.dispatcher.Exited? ==> s.queue == [] && s.stop
    ensures Next(s, op).courier.Exited? && !s.courier.Exited? ==> s.local == [] && s.stopLocal
  {
    hide Insert, NotOfClass, OfClass, Held;
  }

  // ---------- Throttle bytes ----------

  /** Every byte that came in has been given back, lost under the stop flag, or is still held. */
  ghost predicate Conserved(s: State) {
    s.ledger.accepted == s.ledger.released + s.ledger.dropped + HeldBytes(s)
  }

  lemma EnqueueBytes(s: State, m: nat, stamp: int, size: nat, priority: int, id: nat)
    ensures HeldBytes(DoEnqueue(s, m, stamp, size, priority, id)) == HeldBytes(s) + size
    ensures DoEnqueue(s, m, stamp, size, priority, id).ledger == s.ledger
  {
    hide Insert;
    InsertBytes(s.queue, Entry(Rank(priority), id, Msg(m, stamp, size)));
  }

  lemma QueueConserved(s: State, op: Op)
    requires Conserved(s) && Enabled(s, op) && (op.QueueEvent? || op.Discard? || op.DispatcherTakes?)
    ensures Conserved(Next(s, op))
  {
    hide Insert, NotOfClass, OfClass, Held;
    match op
    case QueueEvent(event, con) => InsertBytes(s.queue, Entry(PRIO_HIGHEST + 1, 0, Code(event, con)));
    case Discard(id) => ClassBytes(s.queue, id);
    case DispatcherTakes =>
  }

  lemma MoveConserved(s: State, op: Op)
    requires Conserved(s) && Enabled(s, op) && (op.Enqueue? || op.LocalDelivery? || op.CourierDelivers?)
    ensures Conserved(Next(s, op))
  {
    hide Insert, NotOfClass, OfClass, Held, DoEnqueue, Bytes;
    match op
    case Enqueue(m, stamp, size, priority, id) => EnqueueBytes(AcceptBytes(s, size), m, stamp, size, priority, id);
    case LocalDelivery(m, stamp, size, priority) => LocalSnoc(s.local, Local(m, stamp, size, priority), m);
    case CourierDelivers(_) =>
      var w := s.courier.work;
      EnqueueBytes(s.(courier := Ready), w.m, w.stamp, w.size, w.priority, 0);
  }

  lemma NextConserved(s: State, op: Op)
    requires Conserved(s) && Enabled(s, op)
    ensures Conserved(Next(s, op))
  {
    if op.Enqueue? || op.LocalDelivery? || op.CourierDelivers? {
      MoveConserved(s, op);
    } else if op.QueueEvent? || op.Discard? || op.DispatcherTakes? {
      QueueConserved(s, op);
    } else {
      hide Insert, NotOfClass, OfClass, Held, DoEnqueue, Bytes;
    }
  }

  /** Conservation of throttle bytes, over every run. */
  lemma {:induction false} BytesConserved(s: State, ops: seq<Op>)
    requires Conserved(s) && IsRun(s, ops)
    ensures Conserved(After(s, ops))
    decreases |ops|
  {
    if ops != [] {
      NextConserved(s, ops[0]);
      BytesConserved(Next(s, ops[0]), ops[1..]);
    }
  }

  /** Releases happen only for messages dispatched or discarded by id, and for their exact sizes. */
  lemma ReleaseExact(s: State, op: Op)
    requires Enabled(s, op)
    ensures Next(s, op).ledger.released - s.ledger.released ==
            match op
            case Discard(id) => Bytes(OfClass(s.queue, id))
            case DispatcherFinishes => s.dispatcher.size
            case CourierFinishes => s.courier.size
            case _ => 0
  {
    hide Insert, NotOfClass, OfClass, Held;
  }

  /** Nothing is lost unless the stop flag is up. */
  lemma DropOnlyUnderStop(s: State, op: Op)
    requires Enabled(s, op) && !s.stop
    ensures Next(s, op).ledger.dropped == s.ledger.dropped
  {
    hide Insert, NotOfClass, OfClass, Held;
  }

  /** The starting state satisfies every invariant above. */
  lemma InitGood()
    ensures Consistent(Init()) && Awake(Init()) && Conserved(Init()) && Sorted(Init().queue)
  {
  }
}

/**
 Who goes first, in terms of the priorities and ids that callers gave: over every run, and with the
 bounds of include/msgr/msgr.h written out.
 */
module DispatchOrder {
  import opened FifoQueue
  import opened DispatchQueue
  import opened DispatchRuns
  import opened DispatchFates

  /** What the caller said when it queued a message. */
  datatype Ticket = Ticket(priority: int, id: nat)

  type Tickets = map<nat, Ticket>

  /** The latest ticket of each message. Local messages enter the queue under id 0. */
  function StepTickets(s: State, op: Op, t: Tickets): (r: Tickets)
    requires Enabled(s, op)
  {
    match op
    case Enqueue(m, _, _, priority, id) => t[m := Ticket(priority, id)]
    case CourierDelivers(fast) =>
      if fast then t else t[s.courier.work.m := Ticket(s.courier.work.priority, 0)]
    case _ => t
  }

  ghost function TicketsOf(s: State, ops: seq<Op>, t: Tickets): (r: Tickets)
    requires IsRun(s, ops)
    decreases |ops|
  {
    if ops == [] then t else TicketsOf(Next(s, ops[0]), ops[1..], StepTickets(s, ops[0], t))
  }

  /** An entry stands where its ticket puts it; events stand where priority 255 would. */
  predicate Placed(e: Entry<Item>, t: Tickets) {
    if e.item.Code? then e.rank == 256 && e.cls == 0
    else
      && e.item.m in t && e.cls == t[e.item.m].id
      && e.rank == if t[e.item.m].priority >= 64 then t[e.item.m].priority + 1 else 0
  }

  ghost predicate Ticketed(s: State, t: Tickets) {
    forall e <- s.queue :: Placed(e, t)
  }

  /** Strict priorities start at 64 and keep their order; all others are one. */
  lemma RankOrder(p: int, q: int)
    ensures q >= 64 && p < q ==> Rank(p) < Rank(q)
    ensures Rank(p) == 0 <==> p < 64
    ensures p >= 64 ==> Rank(p) == p + 1
  {
  }

  lemma {:induction false} Counted(q: seq<Entry<Item>>, e: Entry<Item>)
    requires e in q && e.item.Msg?
    ensures Count(q, e.item.m) >= 1
    decreases |q|
  {
    if e != q[0] {
      Counted(q[1..], e);
    }
  }

  /** A message that is not waiting gets its ticket without disturbing those that are. */
  lemma InsertPlaced(q: seq<Entry<Item>>, e: Entry<Item>, t: Tickets, ticket: Ticket)
    requires forall x <- q :: Placed(x, t)
    requires e.item.Msg? && Count(q, e.item.m) == 0 && Placed(e, t[e.item.m := ticket])
    ensures forall x <- Insert(q, e) :: Placed(x, t[e.item.m := ticket])
  {
    hide Insert, Count;
    forall x | x in Insert(q, e) ensures Placed(x, t[e.item.m := ticket]) {
      InsertMember(q, e, x);
      if x in q && x.item.Msg? {
        Counted(q, x);
      }
    }
  }

  lemma NextTicketed(s: State, op: Op, t: Tickets)
    requires Ticketed(s, t) && Consistent(s) && Enabled(s, op)
    ensures Ticketed(Next(s, op), StepTickets(s, op, t))
  {
    hide Insert, NotOfClass, OfClass, InSync, Count, LocalCount, Stamps, Bytes;
    match op
    case Enqueue(m, stamp, size, priority, id) =>
      InsertPlaced(s.queue, Entry(Rank(priority), id, Msg(m, stamp, size)), t, Ticket(priority, id));
    case CourierDelivers(fast) =>
      if !fast {
        var w := s.courier.work;
        assert Held(s, w.m) <= 1;
        InsertPlaced(s.queue, Entry(Rank(w.priority), 0, Msg(w.m, w.stamp, w.size)), t, Ticket(w.priority, 0));
      }
    case QueueEvent(event, con) =>
      var e := Entry(PRIO_HIGHEST + 1, 0, Code(event, con));
      forall x | x in Insert(s.queue, e) ensures Placed(x, t) {
        InsertMember(s.queue, e, x);
      }
    case Discard(id) =>
      forall x | x in NotOfClass(s.queue, id) ensures Placed(x, t) {
        ClassMember(s.queue, id, x);
      }
    case _ =>
  }

  lemma {:induction false} RunTicketed(s: State, ops: seq<Op>, t: Tickets)
    requires Ticketed(s, t) && Consistent(s) && IsRun(s, ops)
    ensures Ticketed(After(s, ops), TicketsOf(s, ops, t)) && Consistent(After(s, ops))
    decreases |ops|
  {
    hide Next, Ticketed, Consistent, StepTickets;
    if ops != [] {
      NextTicketed(s, ops[0], t);
      NextConsistent(s, ops[0]);
      RunTicketed(Next(s, ops[0]), ops[1..], StepTickets(s, ops[0], t));
    }
  }

  // ---------- Who goes first ----------

  /**
   Over every run, what the dispatcher takes is the front of the queue, and of all that waits: no
   message of a priority from 64 up has a higher one, a message below 64 means that neither such a
   message nor an event waits, and while an event waits only priorities from 255 up go before it.
   */
  lemma TakenFirst(ops: seq<Op>, e: Entry<Item>)
    requires IsRun(Init(), ops) && After(Init(), ops).dispatcher.Ready? && e in After(Init(), ops).queue
    ensures var s, t := After(Init(), ops), TicketsOf(Init(), ops, map[]);
            var taken := s.queue[0].item;
            && Next(s, DispatcherTakes).dispatcher == Holding(taken)
            && (taken.Msg? ==> taken.m in t) && (e.item.Msg? ==> e.item.m in t)
            && (taken.Msg? && e.item.Msg? && t[e.item.m].priority >= 64 ==>
                  t[taken.m].priority >= t[e.item.m].priority)
            && (taken.Msg? && e.item.Code? ==> t[taken.m].priority >= 255)
            && (taken.Code? && e.item.Msg? ==> t[e.item.m].priority <= 255)
  {
    hide Next, Consistent, InSync, Insert, Sorted;
    var s, t := After(Init(), ops), TicketsOf(Init(), ops, map[]);
    InitGood();
    RunTicketed(Init(), ops, map[]);
    QueueSorted(Init(), ops);
    FrontHighest(s.queue, e);
    TakesFront(s);
    assert Placed(s.queue[0], t) && Placed(e, t);
  }

  lemma FrontHighest(q: seq<Entry<Item>>, e: Entry<Item>)
    requires Sorted(q) && e in q
    ensures q != [] && q[0] in q && q[0].rank >= e.rank
  {
  }

  lemma TakesFront(s: State)
    requires s.dispatcher.Ready? && s.queue != []
    ensures Next(s, DispatcherTakes).dispatcher == Holding(s.queue[0].item)
  {
  }

  /** Over every run, discarding an id removes the messages queued under it and nothing else. */
  lemma DiscardExact(ops: seq<Op>, id: nat, e: Entry<Item>)
    requires IsRun(Init(), ops) && Enabled(After(Init(), ops), Discard(id)) && e in After(Init(), ops).queue
    ensures var s, t := After(Init(), ops), TicketsOf(Init(), ops, map[]);
            (e.item.Msg? ==> e.item.m in t)
            && (e in Next(s, Discard(id)).queue <==> !(e.item.Msg? && t[e.item.m].id == id))
  {
    hide Consistent, InSync, Insert, Sorted, NotOfClass, OfClass, Stamps, Bytes;
    InitGood();
    RunTicketed(Init(), ops, map[]);
    assert Placed(e, TicketsOf(Init(), ops, map[]));
    ClassMember(After(Init(), ops).queue, id, e);
  }

  /** What is taken out by class comes out, and what stays behind stays, in the order of the queue. */
  lemma {:induction false} ClassOrder(q: seq<Entry<Item>>, id: nat)
    ensures Within(OfClass(q, id), q) && Within(NotOfClass(q, id), q)
    decreases |q|
  {
    if q != [] {
      var x := [q[0]];
      var gone, kept := OfClass(q[1..], id), NotOfClass(q[1..], id);
      ClassOrder(q[1..], id);
      assert q == x + q[1..] && [] + gone == gone && [] + kept == kept;
      WithinAfter(x, gone, q[1..]);
      WithinSkip(x, gone, q[1..]);
      WithinAfter(x, kept, q[1..]);
      WithinSkip(x, kept, q[1..]);
    }
  }

  /** An event is queued, and the dispatcher woken, exactly until the dispatcher has been told to stop. */
  lemma EventsUntilStop(s: State, event: Event, con: nat)
    ensures s.stop ==> Next(s, QueueEvent(event, con)) == s
    ensures !s.stop ==>
              && Entry(256, 0, Code(event, con)) in Next(s, QueueEvent(event, con)).queue
              && Next(s, QueueEvent(event, con)).dispatcher != Blocked(false)
  {
    hide Insert;
    var e := Entry(PRIO_HIGHEST + 1, 0, Code(event, con));
    InsertMember(s.queue, e, e);
  }

  // ---------- Ids ----------

  /** An id handed out is never handed out again: what `get_id` returns only grows. */
  lemma {:induction false} IdsGrow(s: State, ops: seq<Op>)
    requires IsRun(s, ops)
    ensures After(s, ops).nextId >= s.nextId
    ensures ops != [] && ops[0].GetId? ==> After(s, ops).nextId > s.nextId
    decreases |ops|
  {
    hide Next, Enabled;
    if ops != [] {
      NextIdStep(s, ops[0]);
      IdsGrow(Next(s, ops[0]), ops[1..]);
    }
  }

  lemma NextIdStep(s: State, op: Op)
    requires Enabled(s, op)
    ensures Next(s, op).nextId == s.nextId + if op.GetId? then 1 else 0
  {
    hide Insert, NotOfClass, OfClass, Stamps, Bytes, Held;
  }

  // ---------- Local messages ----------

  function StepHanded(s: State, op: Op): (r: seq<Local>) {
    match op
    case LocalDelivery(m, stamp, size, priority) => [Local(m, stamp, size, priority)]
    case _ => []
  }

  function StepPicked(s: State, op: Op): (r: seq<Local>) {
    if op.CourierTakes? && s.local != [] then [s.local[0]] else []
  }

  /** What was handed to local delivery, and what its thread has picked up. */
  ghost function Handed(s: State, ops: seq<Op>): (r: seq<Local>)
    requires IsRun(s, ops)
    decreases |ops|
  {
    if ops == [] then [] else StepHanded(s, ops[0]) + Handed(Next(s, ops[0]), ops[1..])
  }

  ghost function Picked(s: State, ops: seq<Op>): (r: seq<Local>)
    requires IsRun(s, ops)
    decreases |ops|
  {
    if ops == [] then [] else StepPicked(s, ops[0]) + Picked(Next(s, ops[0]), ops[1..])
  }

  lemma StepLocal(s: State, op: Op)
    requires Enabled(s, op)
    ensures s.local + StepHanded(s, op) == StepPicked(s, op) + Next(s, op).local
  {
    if op.LocalDelivery? {
      NothingBefore(Next(s, op).local);
    } else if op.CourierTakes? {
      hide CourierTake;
      PickedUp(s);
    } else {
      hide Next;
      LocalKept(s, op);
      NothingBefore(s.local);
    }
  }

  lemma NothingBefore(q: seq<Local>)
    ensures [] + q == q == q + []
  {
  }

  lemma PickedUp(s: State)
    requires s.courier.Ready?
    ensures s.local + [] == StepPicked(s, CourierTakes) + CourierTake(s).local
  {
  }

  lemma LocalKept(s: State, op: Op)
    requires Enabled(s, op) && !op.LocalDelivery? && !op.CourierTakes?
    ensures Next(s, op).local == s.local
  {
    hide Insert, NotOfClass, OfClass, Stamps, Bytes, Held;
  }

  /** Local messages are picked up in the order in which they were handed over, and none is lost. */
  lemma {:induction false} LocalInOrder(s: State, ops: seq<Op>)
    requires IsRun(s, ops)
    ensures s.local + Handed(s, ops) == Picked(s, ops) + After(s, ops).local
    decreases |ops|
  {
    hide Next, Enabled, StepHanded, StepPicked;
    if ops == [] {
      assert s.local + [] == [] + s.local;
    } else {
      var t, rest := Next(s, ops[0]), ops[1..];
      StepLocal(s, ops[0]);
      LocalInOrder(t, rest);
      Assoc(s.local, StepHanded(s, ops[0]), Handed(t, rest));
      Assoc(StepPicked(s, ops[0]), t.local, Handed(t, rest));
      Assoc(StepPicked(s, ops[0]), Picked(t, rest), After(t, rest).local);
    }
  }
}

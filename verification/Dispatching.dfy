/** The dispatch queue as the object it is in the source: one priority queue and two arrival containers. */
module Dispatching {
  import opened FifoQueue
  import opened DispatchQueue
  import opened DispatchRuns

  class Dispatcher {
    const mqueue: Queue<Item>
    var arrivals: set<Stamp>
    var index: map<nat, Stamp>
    var nextId: nat
    var stop: bool
    var local: seq<Local>
    var stopLocal: bool
    ghost var dispatcher: Worker<Item>   // where the two worker threads are
    ghost var courier: Worker<Local>
    ghost var stage: Stage
    ghost var ledger: Ledger

    ghost function Abs(): State
      reads this, mqueue
    {
      State(mqueue.Contents(), arrivals, index, nextId, stop, dispatcher, local, stopLocal, courier, stage, ledger)
    }

    ghost predicate Valid()
      reads this, mqueue
    {
      mqueue.Valid() && Consistent(Abs())
    }

    constructor ()
      ensures Valid() && Abs() == Init() && fresh(mqueue)
    {
      mqueue := new Queue<Item>();
      arrivals, index, nextId, stop := {}, map[], 1, false;
      local, stopLocal := [], false;
      dispatcher, courier, stage, ledger := Ready, Ready, Open, Ledger(0, 0, 0);
      new;
      hide Consistent, Conserved, Awake, Sorted, Init;
      InitGood();
      StartsAsInit(Abs());
    }

    lemma StartsAsInit(s: State)
      requires s == State([], {}, map[], 1, false, Ready, [], false, Ready, Open, Ledger(0, 0, 0))
      ensures s == Init()
    {
    }

    method GetId() returns (id: nat)
      requires Valid()
      modifies this
      ensures Valid() && Abs() == Next(old(Abs()), Op.GetId) && id == old(nextId)
    {
      NextConsistent(Abs(), Op.GetId);
      id := nextId;
      nextId := nextId + 1;
    }

    method Enqueue(m: nat, stamp: int, size: nat, priority: int, id: nat)
      requires Valid() && Enabled(Abs(), Op.Enqueue(m, stamp, size, priority, id))
      modifies this, mqueue
      ensures Valid() && Abs() == Next(old(Abs()), Op.Enqueue(m, stamp, size, priority, id))
    {
      hide Insert, Consistent, Held, Next, Enabled, Signal, DispatchQueue.AddArrival;
      EnqueueMeaning(Abs(), m, stamp, size, priority, id);
      NextConsistent(Abs(), Op.Enqueue(m, stamp, size, priority, id));
      var empty := mqueue.Empty();
      Announce(empty, m, stamp, size);
      if priority >= PRIO_LOW {
        mqueue.EnqueueStrict(id, priority, Msg(m, stamp, size));
      } else {
        mqueue.Enqueue(id, 0, size, Msg(m, stamp, size));
      }
    }

    /** What `enqueue` does before it queues the item: wake the dispatcher if need be, note the arrival. */
    method Announce(empty: bool, m: nat, stamp: int, size: nat)
      modifies this
      ensures Abs() == DispatchQueue.AddArrival(AcceptBytes(old(Abs()), size), m, stamp)
                       .(dispatcher := if empty then Signal(old(dispatcher)) else old(dispatcher))
    {
      if empty {
        dispatcher := Signal(dispatcher);
      }
      AddArrival(m, stamp);
      ledger := ledger.(accepted := ledger.accepted + size);
    }

    lemma EnqueueMeaning(s: State, m: nat, stamp: int, size: nat, priority: int, id: nat)
      requires Enabled(s, Op.Enqueue(m, stamp, size, priority, id))
      ensures Next(s, Op.Enqueue(m, stamp, size, priority, id)) ==
              DoEnqueue(AcceptBytes(s, size), m, stamp, size, priority, id)
    {
    }

    method AddArrival(m: nat, stamp: int)
      modifies this
      ensures Abs() == DispatchQueue.AddArrival(old(Abs()), m, stamp)
    {
      arrivals := arrivals + {(stamp, m)};
      if m !in index {
        index := index[m := (stamp, m)];
      }
    }

    method RemoveArrival(m: nat)
      requires m in index
      modifies this
      ensures Abs() == DispatchQueue.RemoveArrival(old(Abs()), m)
    {
      arrivals := arrivals - {index[m]};
      index := index - {m};
    }

    method QueueEvent(event: Event, con: nat)
      requires Valid()
      modifies this, mqueue
      ensures Valid() && Abs() == Next(old(Abs()), Op.QueueEvent(event, con))
    {
      hide Insert, InSync;
      NextConsistent(Abs(), Op.QueueEvent(event, con));
      if stop {
        return;
      }
      mqueue.EnqueueStrict(0, PRIO_HIGHEST, Code(event, con));
      dispatcher := Signal(dispatcher);
    }

    /** The head of the dispatcher's loop: take an item, leave, or go to sleep. */
    method Take() returns (item: seq<Item>)
      requires Valid() && dispatcher.Ready?
      modifies this, mqueue
      ensures Valid() && Abs() == Next(old(Abs()), DispatcherTakes)
      ensures item == if old(mqueue.Contents()) == [] then [] else [old(mqueue.Contents())[0].item]
    {
      hide Consistent;
      NextConsistent(Abs(), DispatcherTakes);
      var empty := mqueue.Empty();
      if !empty {
        var qitem := mqueue.Dequeue();
        if qitem.Msg? {
          assert qitem.m in index;
          RemoveArrival(qitem.m);
        }
        dispatcher := Holding(qitem);
        return [qitem];
      }
      dispatcher := if stop then Exited else Blocked(false);
      return [];
    }

    /** What the dispatcher does with an item once it has let go of the lock. */
    method Deliver(item: Item) returns (dispatched: bool)
      requires Valid() && dispatcher == Holding(item)
      modifies this
      ensures Valid() && Abs() == Next(old(Abs()), DispatcherDelivers)
      ensures dispatched <==> item.Msg? && !stop
    {
      hide Consistent;
      NextConsistent(Abs(), DispatcherDelivers);
      dispatched := false;
      match item {
        case Code(_, _) => dispatcher := Ready;
        case Msg(_, _, size) =>
          if stop {
            dispatcher := Ready;
            ledger := ledger.(dropped := ledger.dropped + size);
          } else {
            dispatcher := Delivering(size);
            dispatched := true;
          }
      }
    }

    /** `local_delivery`. */
    method LocalDelivery(m: nat, stamp: int, size: nat, priority: int)
      requires Valid() && Enabled(Abs(), Op.LocalDelivery(m, stamp, size, priority))
      modifies this
      ensures Valid() && Abs() == Next(old(Abs()), Op.LocalDelivery(m, stamp, size, priority))
    {
      hide Consistent, Held;
      NextConsistent(Abs(), Op.LocalDelivery(m, stamp, size, priority));
      if local == [] {
        courier := Signal(courier);
      }
      local := local + [Local(m, stamp, size, priority)];
      ledger := ledger.(accepted := ledger.accepted + size);
    }

    /** The head of the loop in `run_local_delivery`. */
    method TakeLocal() returns (work: seq<Local>)
      requires Valid() && courier.Ready?
      modifies this
      ensures Valid() && Abs() == Next(old(Abs()), CourierTakes)
      ensures work == if old(local) == [] then [] else [old(local)[0]]
    {
      hide Consistent;
      NextConsistent(Abs(), CourierTakes);
      if local != [] {
        var mp := local[0];
        local := local[1..];
        courier := Holding(mp);
        return [mp];
      }
      courier := if stopLocal then Exited else Blocked(false);
      return [];
    }

    /** The rest of that loop: dispatch at once, or pass the message on to the queue under class 0. */
    method PassOn(w: Local, fast: bool)
      requires Valid() && courier == Holding(w)
      modifies this, mqueue
      ensures Valid() && Abs() == Next(old(Abs()), CourierDelivers(fast))
    {
      hide Consistent, Insert, Signal, DispatchQueue.AddArrival;
      NextConsistent(Abs(), CourierDelivers(fast));
      if fast {
        courier := Delivering(w.size);
        return;
      }
      courier := Ready;
      var empty := mqueue.Empty();
      Announce(empty, w.m, w.stamp, 0);
      if w.priority >= PRIO_LOW {
        mqueue.EnqueueStrict(0, w.priority, Msg(w.m, w.stamp, w.size));
      } else {
        mqueue.Enqueue(0, 0, w.size, Msg(w.m, w.stamp, w.size));
      }
    }

    /** The first half of `shutdown`, up to the join. */
    method StopLocalDelivery()
      requires Valid() && stage.Open?
      modifies this
      ensures Valid() && Abs() == Next(old(Abs()), StopCourier)
    {
      hide Consistent;
      NextConsistent(Abs(), StopCourier);
      stopLocal := true;
      courier := Signal(courier);
      stage := Joining;
    }

    /** The join, which returns only once the thread has left, and the second half of `shutdown`. */
    method StopDispatch()
      requires Valid() && stage.Joining? && courier.Exited?
      modifies this
      ensures Valid() && Abs() == Next(Next(old(Abs()), JoinCourier), StopDispatcher)
    {
      hide Consistent;
      ghost var s := Abs();
      NextConsistent(s, JoinCourier);
      NextConsistent(Next(s, JoinCourier), StopDispatcher);
      stopLocal := false;
      stop := true;
      dispatcher := Signal(dispatcher);
      stage := Stopping;
    }

    /** `discard_queue`: take the class out of the queue, then unfile and release what came out. */
    method Discard(id: nat)
      requires Valid() && Enabled(Abs(), Op.Discard(id))
      modifies this, mqueue
      ensures Valid() && Abs() == Next(old(Abs()), Op.Discard(id))
    {
      hide OfClass, NotOfClass, Consistent, Stamps, Bytes, Count;
      ghost var s := Abs();
      NextConsistent(s, Op.Discard(id));
      ghost var gone := OfClass(s.queue, id);
      DiscardDistinct(s, id);
      var removed := mqueue.RemoveByClass(id, []);
      assert removed == Items(gone);
      UnfiledNone(s, id);
      ReleaseAll(removed, s, id, gone);
    }

    /** The loop over the removed list. */
    method ReleaseAll(removed: seq<Item>, ghost s: State, ghost id: nat, ghost gone: seq<Entry<Item>>)
      requires Consistent(s) && gone == OfClass(s.queue, id) && removed == Items(gone)
      requires (forall m :: Count(gone, m) <= 1) && (forall e :: e in gone ==> e.item.Msg?)
      requires Abs() == Unfiled(s, id, [])
      modifies this
      ensures Abs() == Unfiled(s, id, gone)
    {
      hide OfClass, NotOfClass, Consistent, Stamps, Bytes, Count, Unfiled;
      assert gone[..0] == [];
      for i := 0 to |removed|
        invariant removed == Items(gone)
        invariant Abs() == Unfiled(s, id, gone[..i])
      {
        assert gone[i] in gone;
        assert !removed[i].Code?;
        var m := removed[i].m;
        UnfiledStep(s, id, gone, i);
        assert m in index;
        RemoveArrival(m);
        ledger := ledger.(released := ledger.released + removed[i].size);
      }
      assert gone[..|gone|] == gone;
    }

    /** `get_max_age`: how long ago the oldest queued message arrived. */
    method MaxAge(now: int) returns (age: int)
      requires Valid()
      ensures Stamps(mqueue.Contents()) == {} ==> age == 0
      ensures Stamps(mqueue.Contents()) != {} ==>
                && (exists p :: p in Stamps(mqueue.Contents()) && age == now - p.0)
                && (forall p :: p in Stamps(mqueue.Contents()) ==> now - p.0 <= age)
    {
      if arrivals == {} {
        return 0;
      }
      Oldest(arrivals);
      var first :| Earliest(first, arrivals);
      return now - first.0;
    }
  }

  /** The state after the messages of `part` have been unfiled and released. */
  ghost function Unfiled(s: State, id: nat, part: seq<Entry<Item>>): State {
    s.(queue := NotOfClass(s.queue, id), arrivals := s.arrivals - Stamps(part),
       index := s.index - (set p | p in Stamps(part) :: p.1),
       ledger := s.ledger.(released := s.ledger.released + Bytes(part)))
  }

  lemma UnfiledNone(s: State, id: nat)
    ensures Unfiled(s, id, []) == s.(queue := NotOfClass(s.queue, id))
  {
    var none: set<nat> := set p | p in Stamps([]) :: p.1;
    assert none == {};
    assert s.index - none == s.index;
  }

  /** The messages of a discarded class are filed under different records. */
  lemma DiscardDistinct(s: State, id: nat)
    requires Consistent(s)
    ensures forall m :: Count(OfClass(s.queue, id), m) <= 1
  {
    hide OfClass, NotOfClass, InSync;
    forall m ensures Count(OfClass(s.queue, id), m) <= 1 {
      assert Held(s, m) <= 1;
      ClassCount(s.queue, id, m);
    }
  }

  lemma {:induction false} PrefixMeasures(q: seq<Entry<Item>>, i: nat)
    requires i < |q|
    ensures Stamps(q[..i + 1]) == Stamps(q[..i]) + Filed(q[i].item)
    ensures Bytes(q[..i + 1]) == Bytes(q[..i]) + Size(q[i].item)
    ensures forall p :: p in Stamps(q[..i]) ==> Count(q, p.1) >= 1 + Is(q[i].item, p.1)
    decreases |q|
  {
    if i > 0 {
      assert q[..i + 1][1..] == q[1..][..i] && q[..i][1..] == q[1..][..i - 1];
      PrefixMeasures(q[1..], i - 1);
      forall p | p in Filed(q[0].item) ensures Count(q, p.1) >= 1 + Is(q[i].item, p.1) {
        MemberCounted(q[1..], i - 1, p.1);
      }
    } else {
      assert q[..1][1..] == [];
    }
  }

  lemma {:induction false} MemberCounted(q: seq<Entry<Item>>, i: nat, m: nat)
    requires i < |q|
    ensures Count(q, m) >= Is(q[i].item, m)
    decreases i
  {
    if i > 0 {
      MemberCounted(q[1..], i - 1, m);
    }
  }

  lemma UnfiledStep(s: State, id: nat, gone: seq<Entry<Item>>, i: nat)
    requires Consistent(s) && gone == OfClass(s.queue, id) && i < |gone| && gone[i].item.Msg?
    requires forall m :: Count(gone, m) <= 1
    ensures var m, t := gone[i].item.m, Unfiled(s, id, gone[..i]);
            && m in t.index
            && Unfiled(s, id, gone[..i + 1]) ==
               RemoveArrival(t, m).(ledger := t.ledger.(released := t.ledger.released + gone[i].item.size))
  {
    hide OfClass, NotOfClass;
    var item := gone[i].item;
    PrefixMeasures(gone, i);
    EntryFiled(gone, gone[i]);
    ClassStamps(s.queue, id);
    assert (item.stamp, item.m) in Stamps(gone);
    assert s.index[item.m] == (item.stamp, item.m);
    forall p | p in Stamps(gone[..i]) ensures p.1 != item.m {
      assert Count(gone, p.1) <= 1;
    }
    SetStep(Stamps(gone[..i]), Stamps(gone[..i + 1]), (item.stamp, item.m), s.arrivals, s.index);
  }

  /** Removing one more record from the two containers. */
  lemma SetStep(a: set<Stamp>, b: set<Stamp>, p: Stamp, arrivals: set<Stamp>, index: map<nat, Stamp>)
    requires b == a + {p}
    ensures arrivals - b == arrivals - a - {p}
    ensures index - (set r | r in b :: r.1) == index - (set r | r in a :: r.1) - {p.1}
  {
  }

  predicate Earliest(f: Stamp, a: set<Stamp>) {
    f in a && forall p <- a :: f.0 <= p.0
  }

  lemma {:induction false} Oldest(a: set<Stamp>)
    requires a != {}
    ensures exists f :: Earliest(f, a)
    decreases a
  {
    var x :| x in a;
    if a == {x} {
      assert Earliest(x, a);
    } else {
      Oldest(a - {x});
      var f :| Earliest(f, a - {x});
      EarlierOf(f, x, a);
    }
  }

  lemma EarlierOf(f: Stamp, x: Stamp, a: set<Stamp>)
    requires x in a && Earliest(f, a - {x})
    ensures Earliest(if f.0 <= x.0 then f else x, a)
  {
  }
}

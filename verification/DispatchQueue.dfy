/**
 The dispatch queue: one worker thread delivers queued messages and connection events in
 priority order, another passes on locally sent messages, and any thread may enqueue,
 discard or shut down. A run is a sequence of the steps below in any interleaving; each is
 one critical section of the source, or one stretch of a worker's code outside the locks.
 */
module DispatchQueue {
  import opened FifoQueue

  const PRIO_LOW := 64
  const PRIO_HIGHEST := 255

  datatype Event = Connect | Accept | BadRemoteReset | BadReset

  /**
   A queue item: a connection event, or a message with the receive stamp it was filed under
   and the size it holds in the dispatch throttle.
   */
  datatype Item = Code(event: Event, con: nat) | Msg(m: nat, stamp: int, size: nat)

  /** A message handed to local delivery. */
  datatype Local = Local(m: nat, stamp: int, size: nat, priority: int)

  /** Where a worker thread is. */
  datatype Worker<T> =
    | Ready                        // about to take its lock and look at its queue
    | Holding(work: T)             // has dequeued and released the lock
    | Delivering(size: nat)        // inside the dispatch call, with the size it will release
    | Blocked(signalled: bool)     // inside its condition-variable wait
    | Exited

  function Signal<T>(w: Worker<T>): Worker<T> {
    if w.Blocked? then Blocked(true) else w
  }

  /** How far `shutdown` and `wait` have come. */
  datatype Stage = Open | Joining | Joined | Stopping

  /** Throttle bytes: brought in by messages, given back, and lost with messages dropped under the stop flag. */
  datatype Ledger = Ledger(accepted: nat, released: nat, dropped: nat)

  type Stamp = (int, nat)

  datatype State = State(
    queue: seq<Entry<Item>>, arrivals: set<Stamp>, index: map<nat, Stamp>,
    nextId: nat, stop: bool, dispatcher: Worker<Item>,
    local: seq<Local>, stopLocal: bool, courier: Worker<Local>,
    stage: Stage, ledger: Ledger)

  function Init(): State {
    State([], {}, map[], 1, false, Ready, [], false, Ready, Open, Ledger(0, 0, 0))
  }

  datatype Op =
    | Enqueue(m: nat, stamp: int, size: nat, priority: int, id: nat)
    | QueueEvent(event: Event, con: nat)
    | Discard(id: nat)
    | GetId
    | DispatcherTakes | DispatcherDelivers | DispatcherFinishes | DispatcherWakes
    | LocalDelivery(m: nat, stamp: int, size: nat, priority: int)
    | CourierTakes | CourierDelivers(fast: bool) | CourierFinishes | CourierWakes
    | StopCourier | JoinCourier | StopDispatcher | JoinDispatcher

  // ---------- Measures of a queue ----------

  function Size(i: Item): nat {
    if i.Msg? then i.size else 0
  }

  function Filed(i: Item): set<Stamp> {
    if i.Msg? then {(i.stamp, i.m)} else {}
  }

  function Is(i: Item, m: nat): nat {
    if i.Msg? && i.m == m then 1 else 0
  }

  /** How often message `m` is in the queue. */
  function Count(q: seq<Entry<Item>>, m: nat): nat {
    if q == [] then 0 else Is(q[0].item, m) + Count(q[1..], m)
  }

  function Bytes(q: seq<Entry<Item>>): nat {
    if q == [] then 0 else Size(q[0].item) + Bytes(q[1..])
  }

  /** The arrival records of a queue: what the two arrival containers ought to hold. */
  function Stamps(q: seq<Entry<Item>>): set<Stamp> {
    if q == [] then {} else Filed(q[0].item) + Stamps(q[1..])
  }

  function LocalCount(q: seq<Local>, m: nat): nat {
    if q == [] then 0 else (if q[0].m == m then 1 else 0) + LocalCount(q[1..], m)
  }

  function LocalBytes(q: seq<Local>): nat {
    if q == [] then 0 else q[0].size + LocalBytes(q[1..])
  }

  function InHands(s: State, m: nat): nat {
    (if s.dispatcher.Holding? then Is(s.dispatcher.work, m) else 0)
    + (if s.courier.Holding? && s.courier.work.m == m then 1 else 0)
  }

  /** How often message `m` waits anywhere, not counting a dispatch call in progress. */
  function Held(s: State, m: nat): nat {
    Count(s.queue, m) + LocalCount(s.local, m) + InHands(s, m)
  }

  function HeldBytes(s: State): nat {
    Bytes(s.queue) + LocalBytes(s.local)
    + (match s.dispatcher
       case Holding(item) => Size(item)
       case Delivering(size) => size
       case _ => 0)
    + (match s.courier
       case Holding(Local(_, _, size, _)) => size
       case Delivering(size) => size
       case _ => 0)
  }

  // ---------- Steps ----------

  function AddArrival(s: State, m: nat, stamp: int): State {
    s.(arrivals := s.arrivals + {(stamp, m)},
       index := if m in s.index then s.index else s.index[m := (stamp, m)])
  }

  /** `remove_arrival` asserts that the message is filed; see `AssertionsHold`. */
  function RemoveArrival(s: State, m: nat): State {
    if m in s.index then s.(arrivals := s.arrivals - {s.index[m]}, index := s.index - {m}) else s
  }

  function Rank(priority: int): nat {
    if priority >= PRIO_LOW then priority + 1 else 0
  }

  /** `enqueue`: the dispatcher is signalled only when the queue was empty. */
  function DoEnqueue(s: State, m: nat, stamp: int, size: nat, priority: int, id: nat): State {
    AddArrival(s, m, stamp).(
      dispatcher := if s.queue == [] then Signal(s.dispatcher) else s.dispatcher,
      queue := Insert(s.queue, Entry(Rank(priority), id, Msg(m, stamp, size))))
  }

  function DispatcherTake(s: State): State {
    if s.queue != [] then
      var item := s.queue[0].item;
      (if item.Msg? then RemoveArrival(s, item.m) else s).(queue := s.queue[1..], dispatcher := Holding(item))
    else if s.stop then s.(dispatcher := Exited)
    else s.(dispatcher := Blocked(false))
  }

  function CourierTake(s: State): State {
    if s.local != [] then s.(local := s.local[1..], courier := Holding(s.local[0]))
    else if s.stopLocal then s.(courier := Exited)
    else s.(courier := Blocked(false))
  }

  function Release(s: State, n: nat): State {
    s.(ledger := s.ledger.(released := s.ledger.released + n))
  }

  function AcceptBytes(s: State, n: nat): State {
    s.(ledger := s.ledger.(accepted := s.ledger.accepted + n))
  }

  function DispatcherDeliver(s: State): State
    requires s.dispatcher.Holding?
  {
    match s.dispatcher.work
    case Code(_, _) => s.(dispatcher := Ready)
    case Msg(_, _, size) =>
      if s.stop then s.(dispatcher := Ready, ledger := s.ledger.(dropped := s.ledger.dropped + size))
      else s.(dispatcher := Delivering(size))
  }

  function CourierDeliver(s: State, fast: bool): State
    requires s.courier.Holding?
  {
    var w := s.courier.work;
    if fast then s.(courier := Delivering(w.size))
    else DoEnqueue(s.(courier := Ready), w.m, w.stamp, w.size, w.priority, 0)
  }

  function DoDiscard(s: State, id: nat): State {
    var removed := OfClass(s.queue, id);
    Release(s.(queue := NotOfClass(s.queue, id), arrivals := s.arrivals - Stamps(removed),
               index := s.index - (set p | p in Stamps(removed) :: p.1)),
            Bytes(removed))
  }

  /**
   When a step can happen. On the callers' side: no message is enqueued while it is already
   waiting somewhere, and only ids handed out by `get_id` are used or discarded.
   */
  predicate Enabled(s: State, op: Op) {
    match op
    case Enqueue(m, _, _, _, id) => Held(s, m) == 0 && id < s.nextId
    case LocalDelivery(m, _, _, _) => Held(s, m) == 0
    case Discard(id) => 1 <= id < s.nextId
    case DispatcherTakes => s.dispatcher.Ready?
    case DispatcherDelivers => s.dispatcher.Holding?
    case DispatcherFinishes => s.dispatcher.Delivering?
    case DispatcherWakes => s.dispatcher.Blocked?
    case CourierTakes => s.courier.Ready?
    case CourierDelivers(_) => s.courier.Holding?
    case CourierFinishes => s.courier.Delivering?
    case CourierWakes => s.courier.Blocked?
    case StopCourier => s.stage.Open?
    case JoinCourier => s.stage.Joining? && s.courier.Exited?
    case StopDispatcher => s.stage.Joined?
    case JoinDispatcher => s.stage.Stopping? && s.dispatcher.Exited?
    case _ => true
  }

  function Next(s: State, op: Op): State
    requires Enabled(s, op)
  {
    match op
    case Enqueue(m, stamp, size, priority, id) => DoEnqueue(AcceptBytes(s, size), m, stamp, size, priority, id)
    case QueueEvent(event, con) =>
      if s.stop then s
      else s.(queue := Insert(s.queue, Entry(PRIO_HIGHEST + 1, 0, Code(event, con))),
              dispatcher := Signal(s.dispatcher))
    case Discard(id) => DoDiscard(s, id)
    case GetId => s.(nextId := s.nextId + 1)
    case DispatcherTakes => DispatcherTake(s)
    case DispatcherDelivers => DispatcherDeliver(s)
    case DispatcherFinishes => Release(s.(dispatcher := Ready), s.dispatcher.size)
    case DispatcherWakes => s.(dispatcher := Ready)
    case LocalDelivery(m, stamp, size, priority) =>
      AcceptBytes(s, size).(courier := if s.local == [] then Signal(s.courier) else s.courier,
                            local := s.local + [Local(m, stamp, size, priority)])
    case CourierTakes => CourierTake(s)
    case CourierDelivers(fast) => CourierDeliver(s, fast)
    case CourierFinishes => Release(s.(courier := Ready), s.courier.size)
    case CourierWakes => s.(courier := Ready)
    case StopCourier => s.(stopLocal := true, courier := Signal(s.courier), stage := Joining)
    case JoinCourier => s.(stopLocal := false, stage := Joined)
    case StopDispatcher => s.(stop := true, dispatcher := Signal(s.dispatcher), stage := Stopping)
    case JoinDispatcher => s.(stop := false, stage := Open)
  }

  /** The assertions the source makes inside the step: filed messages, and no event ever discarded. */
  predicate AssertionsHold(s: State, op: Op) {
    match op
    case DispatcherTakes => s.queue != [] && s.queue[0].item.Msg? ==> s.queue[0].item.m in s.index
    case Discard(id) => forall e :: e in OfClass(s.queue, id) ==> e.item.Msg? && e.item.m in s.index
    case _ => true
  }

  ghost predicate IsRun(s: State, ops: seq<Op>)
    decreases |ops|
  {
    ops == [] || (Enabled(s, ops[0]) && IsRun(Next(s, ops[0]), ops[1..]))
  }

  ghost function After(s: State, ops: seq<Op>): State
    requires IsRun(s, ops)
    decreases |ops|
  {
    if ops == [] then s else After(Next(s, ops[0]), ops[1..])
  }
}

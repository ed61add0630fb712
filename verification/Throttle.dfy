/**
 The FIFO admission controller. Every public operation runs under one lock, and a blocking
 `get` gives that lock up only inside its condition-variable wait, so a run of the throttle
 is a sequence of the lock-atomic steps below, in any order the threads produce.
 */
module Throttle {

  /**
   A queue entry. A blocking waiter sleeps on its own condition variable; `signalled` says
   that a wake-up has been sent and not yet consumed. A callback waiter is run by whoever
   finds it admissible at the front.
   */
  datatype Waiter =
    | Blocking(id: nat, c: nat, signalled: bool)
    | Callback(id: nat, c: nat)

  /** What happened so far; the source keeps none of this. */
  datatype History = History(
    arrived: seq<nat>,     // requests in order of entry
    granted: seq<nat>,     // requests in order of admission
    grantedSum: nat,       // units asked for by the admitted requests
    taken: nat,
    returned: nat,
    queuedCallbacks: nat)  // units of callback requests that had to queue

  datatype State = State(count: int, max: nat, queue: seq<Waiter>, history: History)
  {
    /** `_should_wait` */
    predicate ShouldWait(c: nat) {
      max != 0 && ((c <= max && count + c > max) || (c >= max && count > max))
    }

    predicate MustQueue(c: nat) {
      ShouldWait(c) || queue != []
    }

    function Arrive(id: nat): State {
      this.(history := history.(arrived := history.arrived + [id]))
    }

    /** Admission of a request, charged or not at this point. */
    function Admit(id: nat, c: nat): State {
      this.(history := history.(granted := history.granted + [id], grantedSum := history.grantedSum + c))
    }

    function Charge(c: nat): State {
      this.(count := count + c)
    }

    /** `signal_first`: wake the front blocking waiter, or run every admissible callback up to one. */
    function SignalFirst(): State
      decreases |queue|
    {
      if queue == [] then this else
      match queue[0]
      case Blocking(id, c, _) => this.(queue := [Blocking(id, c, true)] + queue[1..])
      case Callback(id, c) =>
        if ShouldWait(c) then this
        else this.(queue := queue[1..]).Charge(c).Admit(id, c).SignalFirst()
    }

    function ResetMax(m: nat): State {
      if m == 0 then this else this.(max := m).SignalFirst()
    }
  }

  function Init(max: nat): State {
    State(0, max, [], History([], [], 0, 0, 0, 0))
  }

  /** The lock-atomic steps. A new maximum of 0 leaves the maximum alone. */
  datatype Op =
    | Get(id: nat, c: nat, m: nat)          // entry of a blocking get, up to its admission or its wait
    | Wake(i: nat)                          // waiter i returns from its wait, signalled or not
    | GetCallback(id: nat, c: nat, m: nat)
    | GetOrFail(id: nat, c: nat)
    | Take(c: nat)
    | Put(c: nat)

  /** The assertions of the source and the shape of the step: what a caller must not do. */
  predicate Enabled(s: State, op: Op) {
    match op
    case Wake(i) => i < |s.queue| && s.queue[i].Blocking?
    case Put(c) => s.max != 0 ==> c <= s.count
    case _ => true
  }

  function DoGet(s: State, id: nat, c: nat): State {
    var a := s.Arrive(id);
    if s.MustQueue(c) then a.(queue := s.queue + [Blocking(id, c, false)])
    else a.Admit(id, c).Charge(c)
  }

  function DoWake(s: State, i: nat): State
    requires i < |s.queue| && s.queue[i].Blocking?
  {
    var w := s.queue[i];
    if s.ShouldWait(w.c) || i != 0 then s.(queue := s.queue[i := w.(signalled := false)])
    else s.(queue := s.queue[1..]).Admit(w.id, w.c).SignalFirst().Charge(w.c)
  }

  function DoGetCallback(s: State, id: nat, c: nat): State {
    var a := s.Arrive(id);
    var b := if s.MustQueue(c)
      then a.(queue := s.queue + [Callback(id, c)],
              history := a.history.(queuedCallbacks := a.history.queuedCallbacks + c))
      else a.Admit(id, c);
    b.Charge(c)
  }

  function DoGetOrFail(s: State, id: nat, c: nat): State {
    if s.MustQueue(c) then s else s.Arrive(id).Admit(id, c).Charge(c)
  }

  function DoPut(s: State, c: nat): State {
    if c == 0 then s
    else s.(count := s.count - c, history := s.history.(returned := s.history.returned + c)).SignalFirst()
  }

  /** One step. A throttle whose maximum is zero is disabled: every operation returns at once. */
  function Next(s: State, op: Op): State
    requires Enabled(s, op)
  {
    if s.max == 0 && !op.Wake? then s else
    match op
    case Get(id, c, m) => DoGet(s.ResetMax(m), id, c)
    case Wake(i) => DoWake(s, i)
    case GetCallback(id, c, m) => DoGetCallback(s.ResetMax(m), id, c)
    case GetOrFail(id, c) => DoGetOrFail(s, id, c)
    case Take(c) => s.Charge(c).(history := s.history.(taken := s.history.taken + c))
    case Put(c) => DoPut(s, c)
  }

  /** A run is a list of steps each of which is enabled when its turn comes. */
  ghost predicate IsRun(s: State, ops: seq<Op>)
    decreases |ops|
  {
    ops == [] || (Enabled(s, ops[0]) && IsRun(Next(s, ops[0]), ops[1..]))
  }

  ghost function After(s: State, ops: seq<Op>): State
    requires IsRun(s, ops)
    decreases |ops|
  {
    if ops == [] then s else After(Next(s, ops[0]), ops[1..])
  }

  // ---------- The object ----------

  class Throttle {
    var count: int
    var max: nat
    var waitQueue: seq<Waiter>
    ghost var history: History

    ghost function Abs(): State
      reads this
    {
      State(count, max, waitQueue, history)
    }

    constructor (m: nat)
      ensures Abs() == Init(m)
    {
      count, max, waitQueue, history := 0, m, [], History([], [], 0, 0, 0, 0);
    }

    method ShouldWait(c: nat) returns (r: bool)
      ensures r == Abs().ShouldWait(c)
    {
      r := max != 0 && ((c <= max && count + c > max) || (c >= max && count > max));
    }

    /** The `goto again` loop: each turn around it removes a callback waiter. */
    method SignalFirst()
      modifies this
      ensures Abs() == old(Abs()).SignalFirst()
    {
      var again := true;
      while again
        invariant if again then Abs().SignalFirst() == old(Abs()).SignalFirst()
                  else Abs() == old(Abs()).SignalFirst()
        decreases |waitQueue|, again
      {
        again := false;
        if waitQueue != [] {
          match waitQueue[0]
          case Blocking(id, c, _) =>
            waitQueue := [Blocking(id, c, true)] + waitQueue[1..];
          case Callback(id, c) =>
            var wait := ShouldWait(c);
            if !wait {
              count := count + c;
              waitQueue := waitQueue[1..];
              history := history.(granted := history.granted + [id], grantedSum := history.grantedSum + c);
              again := true;
            }
        }
      }
    }

    method ResetMax(m: nat)
      modifies this
      ensures Abs() == old(Abs()).ResetMax(m)
    {
      if m != 0 {
        max := m;
        SignalFirst();
      }
    }

    method Get(id: nat, c: nat, m: nat) returns (waits: bool)
      modifies this
      ensures Abs() == Next(old(Abs()), Op.Get(id, c, m))
      ensures waits <==> old(max) != 0 && old(Abs()).ResetMax(m).MustQueue(c)
    {
      if max == 0 {
        return false;
      }
      ResetMax(m);
      waits := ShouldWait(c);
      waits := waits || waitQueue != [];
      history := history.(arrived := history.arrived + [id]);
      if waits {
        waitQueue := waitQueue + [Blocking(id, c, false)];
      } else {
        history := history.(granted := history.granted + [id], grantedSum := history.grantedSum + c);
        count := count + c;
      }
    }

    method Wake(i: nat) returns (done: bool)
      requires Enabled(Abs(), Op.Wake(i))
      modifies this
      ensures Abs() == Next(old(Abs()), Op.Wake(i))
      ensures done <==> i == 0 && !old(Abs()).ShouldWait(old(waitQueue)[0].c)
    {
      var w := waitQueue[i];
      var wait := ShouldWait(w.c);
      if wait || i != 0 {
        waitQueue := waitQueue[i := w.(signalled := false)];
        return false;
      }
      waitQueue := waitQueue[1..];
      history := history.(granted := history.granted + [w.id], grantedSum := history.grantedSum + w.c);
      SignalFirst();
      count := count + w.c;
      return true;
    }

    method GetCallback(id: nat, c: nat, m: nat) returns (waits: bool)
      modifies this
      ensures Abs() == Next(old(Abs()), Op.GetCallback(id, c, m))
      ensures waits <==> old(max) != 0 && old(Abs()).ResetMax(m).MustQueue(c)
    {
      if max == 0 {
        return false;
      }
      ResetMax(m);
      waits := ShouldWait(c);
      waits := waits || waitQueue != [];
      history := history.(arrived := history.arrived + [id]);
      if waits {
        waitQueue := waitQueue + [Callback(id, c)];
        history := history.(queuedCallbacks := history.queuedCallbacks + c);
      } else {
        history := history.(granted := history.granted + [id], grantedSum := history.grantedSum + c);
      }
      count := count + c;
    }

    method GetOrFail(id: nat, c: nat) returns (ok: bool)
      modifies this
      ensures Abs() == Next(old(Abs()), Op.GetOrFail(id, c))
      ensures ok <==> old(max) == 0 || !old(Abs()).MustQueue(c)
    {
      if max == 0 {
        return true;
      }
      var wait := ShouldWait(c);
      if wait || waitQueue != [] {
        return false;
      }
      history := history.(arrived := history.arrived + [id]);
      history := history.(granted := history.granted + [id], grantedSum := history.grantedSum + c);
      count := count + c;
      return true;
    }

    method Take(c: nat) returns (r: int)
      modifies this
      ensures Abs() == Next(old(Abs()), Op.Take(c))
      ensures r == if old(max) == 0 then 0 else count
    {
      if max == 0 {
        return 0;
      }
      count := count + c;
      history := history.(taken := history.taken + c);
      return count;
    }

    /** The result is the count before any callback the release sets off. */
    method Put(c: nat) returns (r: int)
      requires Enabled(Abs(), Op.Put(c))
      modifies this
      ensures Abs() == Next(old(Abs()), Op.Put(c))
      ensures r == if old(max) == 0 then 0 else old(count) - c
    {
      if max == 0 {
        return 0;
      }
      if c != 0 {
        count := count - c;
        history := history.(returned := history.returned + c);
        r := count;
        SignalFirst();
      } else {
        r := count;
      }
    }
  }
}

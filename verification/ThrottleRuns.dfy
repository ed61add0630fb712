/** What holds of a throttle over every run of its steps. */
module ThrottleRuns {
  import opened Throttle

  // ---------- No lost wake-up ----------

  /**
   The front waiter is never left admissible and asleep: a blocking one that would be let in
   now has been signalled, a callback one would have been run. Only the front is ever
   signalled, and a disabled throttle holds nothing.
   */
  ghost predicate Awake(s: State) {
    && (s.queue != [] ==>
          match s.queue[0]
          case Blocking(_, c, signalled) => signalled || s.ShouldWait(c)
          case Callback(_, c) => s.ShouldWait(c))
    && (forall i :: 0 < i < |s.queue| && s.queue[i].Blocking? ==> !s.queue[i].signalled)
    && (s.max == 0 ==> s.queue == [] && s.count == 0)
  }

  /** `signal_first` restores the front condition whatever it was, and stays out of the way otherwise. */
  lemma {:induction false} SignalFirstAwakens(s: State)
    requires forall i :: 0 < i < |s.queue| && s.queue[i].Blocking? ==> !s.queue[i].signalled
    requires s.max != 0
    ensures Awake(s.SignalFirst()) && s.SignalFirst().max == s.max && s.SignalFirst().count >= s.count
    decreases |s.queue|
  {
    if s.queue != [] && s.queue[0].Callback? && !s.ShouldWait(s.queue[0].c) {
      var w := s.queue[0];
      SignalFirstAwakens(s.(queue := s.queue[1..]).Charge(w.c).Admit(w.id, w.c));
    }
  }

  lemma ResetMaxAwakens(s: State, m: nat)
    requires Awake(s) && s.max != 0
    ensures Awake(s.ResetMax(m)) && s.ResetMax(m).max != 0
  {
    if m != 0 {
      SignalFirstAwakens(s.(max := m));
    }
  }

  lemma EnterAwake(s: State, id: nat, c: nat)
    requires Awake(s) && s.max != 0
    ensures Awake(DoGet(s, id, c)) && Awake(DoGetCallback(s, id, c)) && Awake(DoGetOrFail(s, id, c))
  {
  }

  lemma WakeAwake(s: State, i: nat)
    requires Awake(s) && Enabled(s, Wake(i))
    ensures Awake(DoWake(s, i))
  {
    var w := s.queue[i];
    if !s.ShouldWait(w.c) && i == 0 {
      SignalFirstAwakens(s.(queue := s.queue[1..]).Admit(w.id, w.c));
    }
  }

  lemma PutAwake(s: State, c: nat)
    requires Awake(s) && s.max != 0
    ensures Awake(DoPut(s, c))
  {
    SignalFirstAwakens(s.(count := s.count - c, history := s.history.(returned := s.history.returned + c)));
  }

  lemma NextAwake(s: State, op: Op)
    requires Awake(s) && Enabled(s, op)
    ensures Awake(Next(s, op))
  {
    hide DoGet, DoGetCallback, DoGetOrFail, DoWake, DoPut;
    if s.max != 0 {
      match op
      case Get(id, c, m) => ResetMaxAwakens(s, m); EnterAwake(s.ResetMax(m), id, c);
      case GetCallback(id, c, m) => ResetMaxAwakens(s, m); EnterAwake(s.ResetMax(m), id, c);
      case GetOrFail(id, c) => EnterAwake(s, id, c);
      case Wake(i) => WakeAwake(s, i);
      case Put(c) => PutAwake(s, c);
      case Take(c) =>
    }
  }

  lemma {:induction false} RunAwake(s: State, ops: seq<Op>)
    requires Awake(s) && IsRun(s, ops)
    ensures Awake(After(s, ops))
    decreases |ops|
  {
    if ops != [] {
      NextAwake(s, ops[0]);
      RunAwake(Next(s, ops[0]), ops[1..]);
    }
  }

  /**
   No lost wake-up, over every run: a waiter at the front that would be admitted is a blocking
   one, a wake-up is on its way to it, and when it arrives the waiter leaves the queue. In
   particular nobody is left asleep in front of a count of zero. That the count is zero once all
   units have come back is another matter; see `DrainedFront`.
   */
  lemma NoLostWakeup(max: nat, ops: seq<Op>)
    requires IsRun(Init(max), ops)
    ensures var s := After(Init(max), ops);
            s.queue != [] && !s.ShouldWait(s.queue[0].c) ==>
              && s.queue[0].Blocking? && s.queue[0].signalled
              && s.history.granted + [s.queue[0].id] <= Next(s, Wake(0)).history.granted
    ensures var s := After(Init(max), ops);
            s.queue != [] && s.count <= 0 ==> s.queue[0].Blocking? && s.queue[0].signalled
  {
    RunAwake(Init(max), ops);
    var s := After(Init(max), ops);
    if s.queue != [] && !s.ShouldWait(s.queue[0].c) {
      var w := s.queue[0];
      SignalFirstGrants(s.(queue := s.queue[1..]).Admit(w.id, w.c));
    }
  }

  // ---------- Order ----------

  function Ids(queue: seq<Waiter>): (ids: seq<nat>)
    ensures |ids| == |queue|
  {
    if queue == [] then [] else [queue[0].id] + Ids(queue[1..])
  }

  lemma {:induction false} IdsAppend(a: seq<Waiter>, b: seq<Waiter>)
    ensures Ids(a + b) == Ids(a) + Ids(b)
    decreases |a|
  {
    if a == [] {
      assert a + b == b;
    } else {
      assert (a + b)[1..] == a[1..] + b;
      IdsAppend(a[1..], b);
    }
  }

  lemma {:induction false} IdsUpdate(q: seq<Waiter>, i: nat, w: Waiter)
    requires i < |q| && w.id == q[i].id
    ensures Ids(q[i := w]) == Ids(q)
    decreases i
  {
    if i > 0 {
      assert q[i := w][1..] == q[1..][i - 1 := w];
      IdsUpdate(q[1..], i - 1, w);
    } else {
      assert q[0 := w][1..] == q[1..];
    }
  }

  /** Everybody who arrived has been admitted or is in the queue, in the order of arrival. */
  ghost predicate InOrder(s: State) {
    s.history.arrived == s.history.granted + Ids(s.queue)
  }

  lemma {:induction false} SignalFirstInOrder(s: State)
    ensures InOrder(s) ==> InOrder(s.SignalFirst())
    decreases |s.queue|
  {
    if s.queue != [] {
      var w := s.queue[0];
      match w
      case Blocking(id, c, _) =>
        assert ([Blocking(id, c, true)] + s.queue[1..])[1..] == s.queue[1..];
      case Callback(id, c) =>
        if !s.ShouldWait(c) {
          SignalFirstInOrder(s.(queue := s.queue[1..]).Charge(c).Admit(id, c));
        }
    }
  }

  lemma {:induction false} SignalFirstGrants(s: State)
    ensures s.history.granted <= s.SignalFirst().history.granted
    decreases |s.queue|
  {
    if s.queue != [] && s.queue[0].Callback? && !s.ShouldWait(s.queue[0].c) {
      var w := s.queue[0];
      SignalFirstGrants(s.(queue := s.queue[1..]).Charge(w.c).Admit(w.id, w.c));
    }
  }

  lemma EnterInOrder(s: State, id: nat, c: nat)
    requires InOrder(s)
    ensures InOrder(DoGet(s, id, c)) && InOrder(DoGetCallback(s, id, c)) && InOrder(DoGetOrFail(s, id, c))
  {
    var b, k := Blocking(id, c, false), Callback(id, c);
    IdsAppend(s.queue, [b]);
    IdsAppend(s.queue, [k]);
    assert Ids([b]) == [id] && Ids([k]) == [id];
  }

  lemma WakeInOrder(s: State, i: nat)
    requires InOrder(s) && Enabled(s, Wake(i))
    ensures InOrder(DoWake(s, i))
  {
    var w := s.queue[i];
    if s.ShouldWait(w.c) || i != 0 {
      IdsUpdate(s.queue, i, w.(signalled := false));
    } else {
      SignalFirstInOrder(s.(queue := s.queue[1..]).Admit(w.id, w.c));
    }
  }

  lemma NextInOrder(s: State, op: Op)
    requires InOrder(s) && Enabled(s, op)
    ensures InOrder(Next(s, op))
  {
    hide DoGet, DoGetCallback, DoGetOrFail, DoWake;
    match op
    case Get(id, c, m) => SignalFirstInOrder(s.(max := m)); EnterInOrder(s.ResetMax(m), id, c);
    case GetCallback(id, c, m) => SignalFirstInOrder(s.(max := m)); EnterInOrder(s.ResetMax(m), id, c);
    case GetOrFail(id, c) => EnterInOrder(s, id, c);
    case Wake(i) => WakeInOrder(s, i);
    case Put(c) =>
      SignalFirstInOrder(s.(count := s.count - c, history := s.history.(returned := s.history.returned + c)));
    case Take(c) =>
  }

  /**
   Admission in arrival order, over every run: the admitted requests are exactly the first
   arrivals, and the queue holds the remaining ones in order. Nothing overtakes a queued
   request (`take` is not a request).
   */
  lemma {:induction false} AdmittedInArrivalOrder(s: State, ops: seq<Op>)
    requires InOrder(s) && IsRun(s, ops)
    ensures InOrder(After(s, ops))
    decreases |ops|
  {
    if ops != [] {
      NextInOrder(s, ops[0]);
      AdmittedInArrivalOrder(Next(s, ops[0]), ops[1..]);
    }
  }

  // ---------- The ledger ----------

  /** The promised account: units in use are those admitted and taken less those returned. */
  ghost predicate Balanced(s: State) {
    s.count == s.history.grantedSum + s.history.taken - s.history.returned
  }

  /** What the code keeps: a callback request that queues is charged once more, on entry. */
  ghost predicate BalancedWithEntryCharge(s: State) {
    s.count == s.history.grantedSum + s.history.taken - s.history.returned + s.history.queuedCallbacks
  }

  lemma {:induction false} SignalFirstLedger(s: State)
    ensures var t := s.SignalFirst();
            && t.count - t.history.grantedSum == s.count - s.history.grantedSum
            && t.history.taken == s.history.taken && t.history.returned == s.history.returned
            && t.history.queuedCallbacks == s.history.queuedCallbacks && t.max == s.max
    decreases |s.queue|
  {
    if s.queue != [] && s.queue[0].Callback? && !s.ShouldWait(s.queue[0].c) {
      var w := s.queue[0];
      SignalFirstLedger(s.(queue := s.queue[1..]).Charge(w.c).Admit(w.id, w.c));
    }
  }

  lemma NextLedger(s: State, op: Op)
    requires BalancedWithEntryCharge(s) && Enabled(s, op)
    ensures BalancedWithEntryCharge(Next(s, op))
  {
    match op
    case Get(id, c, m) => SignalFirstLedger(s.(max := m));
    case GetCallback(id, c, m) => SignalFirstLedger(s.(max := m));
    case Wake(i) =>
      var w := s.queue[i];
      SignalFirstLedger(s.(queue := s.queue[1..]).Admit(w.id, w.c));
    case Put(c) =>
      SignalFirstLedger(s.(count := s.count - c, history := s.history.(returned := s.history.returned + c)));
    case _ =>
  }

  lemma {:induction false} RunLedger(s: State, ops: seq<Op>)
    requires BalancedWithEntryCharge(s) && IsRun(s, ops)
    ensures BalancedWithEntryCharge(After(s, ops))
    decreases |ops|
  {
    if ops != [] {
      NextLedger(s, ops[0]);
      RunLedger(Next(s, ops[0]), ops[1..]);
    }
  }

  /** The guard of the extra charge: a callback request of non-zero size that has to queue. */
  predicate ChargedOnEntry(s: State, op: Op) {
    op.GetCallback? && op.c > 0 && s.max != 0 && s.ResetMax(op.m).MustQueue(op.c)
  }

  /** Units in use beyond the promised account. */
  function Excess(s: State): int {
    s.count - (s.history.grantedSum + s.history.taken - s.history.returned)
  }

  /** Each step leaves the excess alone, but for that guard. */
  lemma NextExcess(s: State, op: Op)
    requires Enabled(s, op)
    ensures Excess(Next(s, op)) == Excess(s) + if ChargedOnEntry(s, op) then op.c else 0
  {
    if s.max != 0 || op.Wake? {
      match op
      case Get(id, c, m) => SignalFirstLedger(s.(max := m));
      case GetCallback(id, c, m) => SignalFirstLedger(s.(max := m));
      case Wake(i) =>
        var w := s.queue[i];
        SignalFirstLedger(s.(queue := s.queue[1..]).Admit(w.id, w.c));
      case Put(c) =>
        SignalFirstLedger(s.(count := s.count - c, history := s.history.(returned := s.history.returned + c)));
      case _ =>
    }
  }

  /** A step keeps the promised account exactly when its guard fails. */
  lemma LedgerStep(s: State, op: Op)
    requires Enabled(s, op) && Balanced(s)
    ensures Balanced(Next(s, op)) <==>
            !(op.GetCallback? && op.c > 0 && s.max != 0 && s.ResetMax(op.m).MustQueue(op.c))
  {
    hide Next;
    NextExcess(s, op);
  }

  /** Some step of the run meets the guard. */
  ghost predicate EverChargedOnEntry(s: State, ops: seq<Op>)
    requires IsRun(s, ops)
    decreases |ops|
  {
    ops != [] && (ChargedOnEntry(s, ops[0]) || EverChargedOnEntry(Next(s, ops[0]), ops[1..]))
  }

  lemma {:induction false} RunExcess(s: State, ops: seq<Op>)
    requires IsRun(s, ops)
    ensures Excess(After(s, ops)) >= Excess(s)
    ensures Excess(After(s, ops)) == Excess(s) <==> !EverChargedOnEntry(s, ops)
    decreases |ops|
  {
    hide Next, Excess, ChargedOnEntry;
    if ops != [] {
      NextExcess(s, ops[0]);
      PositiveCharge(s, ops[0]);
      RunExcess(Next(s, ops[0]), ops[1..]);
    }
  }

  lemma PositiveCharge(s: State, op: Op)
    ensures ChargedOnEntry(s, op) ==> op.GetCallback? && op.c > 0
  {
  }

  /** The promised account holds after a run exactly when no callback request of non-zero size had to queue. */
  lemma LedgerExact(max: nat, ops: seq<Op>)
    requires IsRun(Init(max), ops)
    ensures Balanced(After(Init(max), ops)) <==> !EverChargedOnEntry(Init(max), ops)
    ensures Balanced(After(Init(max), ops)) <==> After(Init(max), ops).history.queuedCallbacks == 0
  {
    RunExcess(Init(max), ops);
    RunLedger(Init(max), ops);
  }

  /** A callback request that queues is charged on entry and charged again when it is run. */
  lemma QueuedCallbackChargedTwice(s: State, id: nat, c: nat, p: nat)
    requires s.max != 0 && s.queue == [] && s.ShouldWait(c)
    requires p > 0 && p <= s.count + c
    ensures var t := Next(s, GetCallback(id, c, 0));
            && t.count == s.count + c && t.history.granted == s.history.granted
            && Enabled(t, Put(p))
            && (!s.(count := s.count + c - p).ShouldWait(c) ==>
                  Next(t, Put(p)).count == s.count + 2 * c - p && Next(t, Put(p)).queue == [])
  {
    var t := Next(s, GetCallback(id, c, 0));
    assert t.queue == [Callback(id, c)];
    var u := t.(count := t.count - p, history := t.history.(returned := t.history.returned + p));
    var v := u.(queue := u.queue[1..]).Charge(c).Admit(id, c);
    assert v.queue == [];
    assert v.SignalFirst() == v;
    assert u.ShouldWait(c) == s.(count := s.count + c - p).ShouldWait(c);
    assert !u.ShouldWait(c) ==> u.SignalFirst() == v.SignalFirst();
  }

  // ---------- When all units have come back ----------

  /** Everything admitted or taken has been returned. */
  predicate Drained(s: State) {
    s.history.returned == s.history.grantedSum + s.history.taken
  }

  /** A request of `c` would not fit beside `k` units: the admission rule at count `k`. */
  predicate TooBigBeside(c: nat, k: int, max: nat) {
    (c <= max && k + c > max) || (c >= max && k > max)
  }

  /** The front waiter is blocking, its wake-up is on the way, and it will be let in. */
  predicate FrontOnItsWay(s: State)
    requires s.queue != []
  {
    s.queue[0].Blocking? && s.queue[0].signalled && !s.ShouldWait(s.queue[0].c)
  }

  /**
   After any run that ends with all units returned, the units still in use are those charged to
   callback requests on entry, and the front waiter is on its way in if and only if it fits beside
   them. A waiter left asleep therefore means that such units exist; without them none is.
   */
  lemma DrainedFront(max: nat, ops: seq<Op>)
    requires IsRun(Init(max), ops) && Drained(After(Init(max), ops)) && After(Init(max), ops).queue != []
    ensures var s := After(Init(max), ops);
            && s.count == s.history.queuedCallbacks
            && (FrontOnItsWay(s) <==> !TooBigBeside(s.queue[0].c, s.history.queuedCallbacks, s.max))
            && (!FrontOnItsWay(s) ==> s.count > 0 && s.ShouldWait(s.queue[0].c))
  {
    RunLedger(Init(max), ops);
    RunAwake(Init(max), ops);
  }

  /** No step returns more than has been handed out, and none changes the maximum. */
  ghost predicate InLedger(s: State, ops: seq<Op>)
    requires IsRun(s, ops)
    decreases |ops|
  {
    ops == [] || (InLedgerStep(s, ops[0]) && InLedger(Next(s, ops[0]), ops[1..]))
  }

  predicate InLedgerStep(s: State, op: Op) {
    match op
    case Put(c) => s.history.returned + c <= s.history.grantedSum + s.history.taken
    case Get(_, _, m) => m == 0
    case GetCallback(_, _, m) => m == 0
    case _ => true
  }

  /** A callback request at the front that does not fit beside the units charged on entry, its own among them. */
  ghost predicate Stuck(s: State, id: nat, c: nat) {
    && BalancedWithEntryCharge(s) && s.max != 0 && s.queue != [] && s.queue[0] == Callback(id, c)
    && s.history.returned <= s.history.grantedSum + s.history.taken
    && TooBigBeside(c, s.history.queuedCallbacks, s.max)
  }

  lemma NextStuck(s: State, op: Op, id: nat, c: nat)
    requires Stuck(s, id, c) && Enabled(s, op) && InLedgerStep(s, op)
    ensures Stuck(Next(s, op), id, c) && Next(s, op).history.granted == s.history.granted
  {
    NextLedger(s, op);
  }

  /** Such a request is never run, and nobody is admitted any more, whatever units come back. */
  lemma {:induction false} StuckForever(s: State, ops: seq<Op>, id: nat, c: nat)
    requires Stuck(s, id, c) && IsRun(s, ops) && InLedger(s, ops)
    ensures Stuck(After(s, ops), id, c) && After(s, ops).history.granted == s.history.granted
    decreases |ops|
  {
    hide Next, Stuck;
    if ops != [] {
      NextStuck(s, ops[0], id, c);
      StuckForever(Next(s, ops[0]), ops[1..], id, c);
    }
  }

  /**
   In particular a callback request for more than half of the maximum is never run once it has to
   queue on a throttle in order with nobody waiting.
   */
  lemma LargeCallbackNeverRuns(s: State, id: nat, c: nat, ops: seq<Op>)
    requires BalancedWithEntryCharge(s) && s.history.returned <= s.history.grantedSum + s.history.taken
    requires s.max != 0 && s.queue == [] && s.ShouldWait(c) && c <= s.max < 2 * c
    requires IsRun(Next(s, GetCallback(id, c, 0)), ops) && InLedger(Next(s, GetCallback(id, c, 0)), ops)
    ensures var t := After(Next(s, GetCallback(id, c, 0)), ops);
            && t.queue != [] && t.queue[0] == Callback(id, c) && t.history.granted == s.history.granted
  {
    var t := Next(s, GetCallback(id, c, 0));
    NextLedger(s, GetCallback(id, c, 0));
    assert t.queue == [Callback(id, c)];
    StuckForever(t, ops, id, c);
  }

  /**
   A run that ends with every unit back and a request asleep for good: on a one-unit throttle the
   unit is taken, a callback request queues, and the unit is returned.
   */
  lemma EntryChargeBlocksItself()
    ensures var ops := [Get(1, 1, 0), GetCallback(2, 1, 0), Put(1)];
            && IsRun(Init(1), ops)
            && var s := After(Init(1), ops);
               Drained(s) && s.count == 1 && s.queue == [Callback(2, 1)] && s.ShouldWait(1) && Stuck(s, 2, 1)
  {
    var s0, a, b, c := Init(1), Get(1, 1, 0), GetCallback(2, 1, 0), Put(1);
    var s1 := Next(s0, a);
    var s2 := Next(s1, b);
    var s3 := Next(s2, c);
    assert s2.queue == [Callback(2, 1)];
    ThreeSteps(s0, a, b, c);
  }

  lemma ThreeSteps(s: State, a: Op, b: Op, c: Op)
    requires Enabled(s, a) && Enabled(Next(s, a), b) && Enabled(Next(Next(s, a), b), c)
    ensures IsRun(s, [a, b, c]) && After(s, [a, b, c]) == Next(Next(Next(s, a), b), c)
  {
    hide Next, Enabled;
    var s1, s2, s3 := Next(s, a), Next(Next(s, a), b), Next(Next(Next(s, a), b), c);
    assert IsRun(s3, []) && After(s3, []) == s3;
    assert [c][1..] == [] && [b, c][1..] == [c] && [a, b, c][1..] == [b, c];
    assert IsRun(s2, [c]) && After(s2, [c]) == s3;
    assert IsRun(s1, [b, c]) && After(s1, [b, c]) == s3;
  }

  lemma RunOn(s: State, ops: seq<Op>, more: seq<Op>)
    requires IsRun(s, ops) && IsRun(After(s, ops), more)
    ensures IsRun(s, ops + more) && After(s, ops + more) == After(After(s, ops), more)
    decreases |ops|
  {
    hide Next, Enabled;
    if ops == [] {
      assert ops + more == more;
    } else {
      assert (ops + more)[1..] == ops[1..] + more;
      RunOn(Next(s, ops[0]), ops[1..], more);
    }
  }

  /**
   A run that ends with every unit back, nobody waiting, and a unit missing for good: on a
   two-unit throttle both units are in use, a callback request queues, runs after the second
   return, and returns its unit.
   */
  lemma EntryChargeUnbalances()
    ensures var ops := [Get(1, 1, 0), Get(2, 1, 0), GetCallback(3, 1, 0)] + [Put(1), Put(1), Put(1)];
            && IsRun(Init(2), ops)
            && var s := After(Init(2), ops);
               Drained(s) && s.history.granted == [1, 2, 3] && s.queue == [] && s.count == 1 && !Balanced(s)
  {
    var s0, g, h, k, p := Init(2), Get(1, 1, 0), Get(2, 1, 0), GetCallback(3, 1, 0), Put(1);
    var s3 := Next(Next(Next(s0, g), h), k);
    ThreeSteps(s0, g, h, k);
    assert s3.queue == [Callback(3, 1)] && s3.count == 3;
    var s4 := Next(s3, p);
    assert s4.queue == [Callback(3, 1)] && s4.count == 2;
    var u := s4.(count := 1, history := s4.history.(returned := 2));
    var v := u.(queue := u.queue[1..]).Charge(1).Admit(3, 1);
    assert v.queue == [] && v.SignalFirst() == v;
    assert Next(s4, p) == u.SignalFirst() == v;
    ThreeSteps(s3, p, p, p);
    RunOn(s0, [g, h, k], [p, p, p]);
  }

  // ---------- The bound ----------

  /** Runs of blocking gets, tries and puts, each asking for at most `most`, with the maximum left alone. */
  ghost predicate Plain(ops: seq<Op>, most: nat) {
    forall op :: op in ops ==> PlainOp(op, most)
  }

  predicate PlainOp(op: Op, most: nat) {
    match op
    case Get(_, c, m) => c <= most && m == 0
    case GetOrFail(_, c) => c <= most
    case Wake(_) => true
    case Put(_) => true
    case _ => false
  }

  /** The ceiling: the maximum, unless single requests larger than it are made. */
  function Ceiling(max: nat, most: nat): (r: nat)
    ensures r >= max
  {
    if most <= max then max else max + most
  }

  ghost predicate Bounded(s: State, max: nat, most: nat) {
    && s.max == max && 0 <= s.count <= Ceiling(max, most)
    && (forall w :: w in s.queue ==> w.Blocking? && w.c <= most)
  }

  /** Without callback waiters `signal_first` only wakes. */
  lemma SignalFirstPlain(s: State, max: nat, most: nat)
    requires Bounded(s, max, most)
    ensures Bounded(s.SignalFirst(), max, most) && s.SignalFirst().count == s.count
  {
  }

  lemma NextBounded(s: State, op: Op, max: nat, most: nat)
    requires Bounded(s, max, most) && max != 0 && Enabled(s, op) && PlainOp(op, most)
    ensures Bounded(Next(s, op), max, most)
  {
    match op
    case Wake(i) =>
      var w := s.queue[i];
      assert w in s.queue;
      if !s.ShouldWait(w.c) && i == 0 {
        SignalFirstPlain(s.(queue := s.queue[1..]).Admit(w.id, w.c), max, most);
      }
    case Put(c) =>
      SignalFirstPlain(s.(count := s.count - c, history := s.history.(returned := s.history.returned + c)), max, most);
    case _ =>
  }

  /**
   The bound, over every plain run: the count stays between zero and the maximum when no
   single request exceeds it, and otherwise passes it by at most one request.
   */
  lemma {:induction false} CountBounded(s: State, ops: seq<Op>, max: nat, most: nat)
    requires Bounded(s, max, most) && max != 0 && IsRun(s, ops) && Plain(ops, most)
    ensures Bounded(After(s, ops), max, most)
    decreases |ops|
  {
    if ops != [] {
      NextBounded(s, ops[0], max, most);
      CountBounded(Next(s, ops[0]), ops[1..], max, most);
    }
  }

  /**
   A request above the maximum is let in only when the throttle is not over its maximum, one
   within it only when it fits; nobody is let in past a queue.
   */
  lemma AdmissionRule(s: State, op: Op)
    requires Awake(s) && Enabled(s, op) && s.max != 0
    requires (op.Get? && op.m == 0) || op.GetOrFail?
    ensures Next(s, op).history.granted != s.history.granted <==>
            s.queue == [] && (if op.c <= s.max then s.count + op.c <= s.max else s.count <= s.max)
  {
  }

  /** Whether a request of `c` fits at this count under a maximum of `max`. */
  predicate Fits(c: nat, count: int, max: nat) {
    if c <= max then count + c <= max else count <= max
  }

  /**
   A request that brings a new maximum sets it for good, and is judged by it: with nobody waiting it is
   let in exactly if it fits under the new maximum; behind a waiter that does not fit under it, or a
   blocking one, it queues; a callback in front that does fit is run first.
   */
  lemma NewMaximum(s: State, op: Op)
    requires s.max != 0 && (op.Get? || op.GetCallback?) && op.m > 0
    ensures Next(s, op).max == op.m
    ensures s.queue == [] ==>
              Next(s, op).history.granted == s.history.granted + if Fits(op.c, s.count, op.m) then [op.id] else []
    ensures s.queue != [] && (s.queue[0].Blocking? || !Fits(s.queue[0].c, s.count, op.m)) ==>
              && Next(s, op).history.granted == s.history.granted
              && |Next(s, op).queue| == |s.queue| + 1 && Next(s, op).queue[|s.queue|].id == op.id
              && (s.queue[0].Blocking? ==> Next(s, op).queue[0] == s.queue[0].(signalled := true))
    ensures s.queue != [] && s.queue[0].Callback? && Fits(s.queue[0].c, s.count, op.m) ==>
              s.history.granted + [s.queue[0].id] <= Next(s, op).history.granted
  {
    var r := s.(max := op.m);
    SignalFirstKeepsMax(r);
    if s.queue != [] && s.queue[0].Callback? && Fits(s.queue[0].c, s.count, op.m) {
      var w := s.queue[0];
      SignalFirstGrants(r.(queue := r.queue[1..]).Charge(w.c).Admit(w.id, w.c));
    }
  }

  lemma {:induction false} SignalFirstKeepsMax(s: State)
    ensures s.SignalFirst().max == s.max
    decreases |s.queue|
  {
    if s.queue != [] && s.queue[0].Callback? && !s.ShouldWait(s.queue[0].c) {
      var w := s.queue[0];
      SignalFirstKeepsMax(s.(queue := s.queue[1..]).Charge(w.c).Admit(w.id, w.c));
    }
  }

  /** A throttle built with maximum 0 is disabled for good. */
  lemma {:induction false} DisabledForever(ops: seq<Op>)
    requires IsRun(Init(0), ops)
    ensures After(Init(0), ops) == Init(0)
    decreases |ops|
  {
    if ops != [] {
      assert Next(Init(0), ops[0]) == Init(0);
      DisabledForever(ops[1..]);
    }
  }
}

/**
 Programs over buffer lists. A program that creates lists and appends to them, copies, claims, cuts,
 splices, swaps, rearranges and reads them, all sharing memory, computes what the same program
 computes on plain byte strings.
 */
module BufferRuns {
  import opened Bytes
  import opened Arith
  import opened Rope
  import opened Cursors
  import opened BufferLists
  import opened Rebuild

  /** Lists are named by the order of their creation. */
  datatype Op =
    | New
    | Prealloc(size: nat)
    | Append(i: nat, data: seq<byte>)
    | AppendChar(i: nat, c: byte)
    | PushRaw(i: nat, data: seq<byte>, shareable: bool)
    | PushFront(i: nat, data: seq<byte>)
    | AppendList(i: nat, j: nat)
    | Copy(j: nat)
    | Assign(i: nat, j: nat)
    | Claim(i: nat, j: nat, allowNonshareable: bool)
    | ClaimPrepend(i: nat, j: nat, allowNonshareable: bool)
    | Substr(i: nat, j: nat, off: nat, n: nat)
    | Splice(i: nat, off: nat, n: nat)
    | SpliceInto(i: nat, off: nat, n: nat, j: nat)
    | Swap(i: nat, j: nat)
    | Clear(i: nat)
    | RebuildAll(i: nat)
    | RebuildAligned(i: nat, size: nat, mem: nat)
    | GetContiguous(i: nat, off: nat, n: nat)
    | Read(i: nat, off: nat, n: nat)
    | CopyTo(i: nat, off: nat, n: nat, j: nat)

  /** What a caller observes: nothing, some bytes, or an `end_of_buffer`. */
  datatype Outcome = Done | Got(bytes: seq<byte>) | EndOfBuffer

  /** A byte string, and whether the remembered cursor may be read through. */
  datatype Value = Value(bytes: seq<byte>, trusted: bool) {
    function With(b: seq<byte>): Value { Value(b, trusted) }
  }

  type Values = seq<Value>

  /**
   Operations on two lists are meant for two different lists, and reads go through a cursor that can
   be trusted: not after bytes were put in front or the segments replaced, until it is reset.
   */
  predicate Legal(op: Op, m: Values) {
    var n := |m|;
    match op
    case New => true
    case Prealloc(_) => true
    case Append(i, _) => i < n
    case AppendChar(i, _) => i < n
    case PushRaw(i, _, _) => i < n
    case PushFront(i, _) => i < n
    case AppendList(i, j) => i < n && j < n && i != j
    case Copy(j) => j < n
    case Assign(i, j) => i < n && j < n
    case Claim(i, j, _) => i < n && j < n && i != j
    case ClaimPrepend(i, j, _) => i < n && j < n && i != j
    case Substr(i, j, _, _) => i < n && j < n && i != j
    case Splice(i, _, _) => i < n
    case SpliceInto(i, _, _, j) => i < n && j < n && i != j
    case Swap(i, j) => i < n && j < n
    case Clear(i) => i < n
    case RebuildAll(i) => i < n
    case RebuildAligned(i, size, mem) => i < n && size > 0 && PowerOfTwo(mem)
    case GetContiguous(i, _, _) => i < n
    case Read(i, _, _) => i < n && m[i].trusted
    case CopyTo(i, _, _, j) => i < n && j < n && i != j && m[i].trusted
  }

  /** The operation on byte strings. */
  function Effect(op: Op, m: Values): (r: (Values, Outcome))
    requires Legal(op, m)
  {
    match op
    case New => (m + [Value([], true)], Done)
    case Prealloc(_) => (m + [Value([], true)], Done)
    case Append(i, data) => (m[i := m[i].With(m[i].bytes + data)], Done)
    case AppendChar(i, c) => (m[i := m[i].With(m[i].bytes + [c])], Done)
    case PushRaw(i, data, _) => (m[i := m[i].With(m[i].bytes + data)], Done)
    case PushFront(i, data) => (m[i := Value(data + m[i].bytes, m[i].trusted && data == [])], Done)
    case AppendList(i, j) => (m[i := m[i].With(m[i].bytes + m[j].bytes)], Done)
    case Copy(j) => (m + [Value(m[j].bytes, true)], Done)
    case Assign(i, j) => (if i == j then m else m[i := Value(m[j].bytes, false)], Done)
    case Claim(i, j, _) => (m[i := m[i].With(m[i].bytes + m[j].bytes)][j := Value([], true)], Done)
    case ClaimPrepend(i, j, _) => (m[i := Value(m[j].bytes + m[i].bytes, false)][j := Value([], true)], Done)
    case Substr(i, j, off, n) =>
      if off + n <= |m[j].bytes| then (m[i := Value(m[j].bytes[off..off + n], true)], Done) else (m, EndOfBuffer)
    case Splice(i, off, n) =>
      if n == 0 then (m, Done)
      else if off < |m[i].bytes| then (m[i := Value(Kept(m[i].bytes, off, n), true)], Done)
      else (m, EndOfBuffer)
    case SpliceInto(i, off, n, j) =>
      if n == 0 then (m, Done)
      else if off < |m[i].bytes| then
        (m[i := Value(Kept(m[i].bytes, off, n), true)][j := m[j].With(m[j].bytes + Cut(m[i].bytes, off, n))], Done)
      else (m, EndOfBuffer)
    case Swap(i, j) => (m[i := Value(m[j].bytes, true)][j := Value(m[i].bytes, true)], Done)
    case Clear(i) => (m[i := Value([], true)], Done)
    case RebuildAll(i) => (m[i := Value(m[i].bytes, false)], Done)
    case RebuildAligned(i, _, _) => (m[i := Value(m[i].bytes, false)], Done)
    case GetContiguous(i, off, n) =>
      if off + n > |m[i].bytes| then (m, EndOfBuffer)
      else if n == 0 then (m, Got([]))
      else (m[i := Value(m[i].bytes, false)], Got(m[i].bytes[off..off + n]))
    case Read(i, off, n) => if off + n <= |m[i].bytes| then (m, Got(m[i].bytes[off..off + n])) else (m, EndOfBuffer)
    case CopyTo(i, off, n, j) =>
      if off + n <= |m[i].bytes| then (m[j := m[j].With(m[j].bytes + m[i].bytes[off..off + n])], Done)
      else (m, EndOfBuffer)
  }

  /** A byte string without up to `n` bytes from `off` on, and those bytes. */
  function Kept(b: seq<byte>, off: nat, n: nat): seq<byte>
    requires off <= |b|
  {
    b[..off] + b[Least(off + n, |b|)..]
  }

  function Cut(b: seq<byte>, off: nat, n: nat): seq<byte>
    requires off <= |b|
  {
    b[off..Least(off + n, |b|)]
  }

  ghost predicate LegalProgram(prog: seq<Op>, m: Values)
    decreases |prog|
  {
    prog == [] || (Legal(prog[0], m) && LegalProgram(prog[1..], Effect(prog[0], m).0))
  }

  ghost function Effects(prog: seq<Op>, m: Values): (r: (Values, seq<Outcome>))
    requires LegalProgram(prog, m)
    ensures |r.1| == |prog|
    decreases |prog|
  {
    if prog == [] then (m, [])
    else
      var (m', out) := Effect(prog[0], m);
      var (m'', outs) := Effects(prog[1..], m');
      (m'', [out] + outs)
  }

  // ---------- The lists and their values ----------

  predicate Distinct(lists: seq<BufferList>) {
    forall i, j :: 0 <= i < j < |lists| ==> lists[i] != lists[j]
  }

  ghost function AsSet(lists: seq<BufferList>): set<BufferList> {
    set l <- lists
  }

  ghost predicate Shows(l: BufferList, v: Value)
    reads l`buffers, l`lastP, set p <- l.buffers :: p.raw.data
  {
    l.Content() == v.bytes && (v.trusted ==> l.CursorOk())
  }

  /** The world is in order, and list `i` is worth `m[i]`, its cursor included. */
  ghost predicate Agree(lists: seq<BufferList>, m: Values)
    reads AsSet(lists), set l <- lists, p <- l.buffers :: p.raw.data
  {
    && |lists| == |m| && Distinct(lists) && World(AsSet(lists))
    && forall i :: 0 <= i < |lists| ==> Shows(lists[i], m[i])
  }

  /** The lists themselves and the blocks they may still write into. */
  ghost function Footprint(lists: seq<BufferList>): set<object>
    reads AsSet(lists)`appendBuffer
  {
    AsSet(lists) + set l <- lists | l.appendBuffer.Some? :: l.appendBuffer.value.raw.data
  }

  // ---------- One step each ----------

  method DoAppend(lists: seq<BufferList>, i: nat, data: seq<byte>, ghost m: Values)
    requires Agree(lists, m) && i < |lists|
    modifies Footprint(lists)
    ensures Agree(lists, m[i := m[i].With(m[i].bytes + data)])
    ensures fresh(Footprint(lists) - old(Footprint(lists)))
  {
    hide World, Coherent;
    ghost var w := AsSet(lists);
    assert lists[i] in lists;
    lists[i].Append(data, w);
    forall k | 0 <= k < |lists| && k != i ensures Shows(lists[k], m[k]) {
      assert lists[k] in w && lists[k] != lists[i];
    }
  }

  method DoAppendChar(lists: seq<BufferList>, i: nat, c: byte, ghost m: Values)
    requires Agree(lists, m) && i < |lists|
    modifies Footprint(lists)
    ensures Agree(lists, m[i := m[i].With(m[i].bytes + [c])])
    ensures fresh(Footprint(lists) - old(Footprint(lists)))
  {
    hide World, Coherent;
    ghost var w := AsSet(lists);
    assert lists[i] in lists;
    lists[i].AppendChar(c, w);
    forall k | 0 <= k < |lists| && k != i ensures Shows(lists[k], m[k]) {
      assert lists[k] in w && lists[k] != lists[i];
    }
  }

  method DoPushRaw(lists: seq<BufferList>, i: nat, data: seq<byte>, shareable: bool, ghost m: Values)
    requires Agree(lists, m) && i < |lists|
    modifies Footprint(lists)
    ensures Agree(lists, m[i := m[i].With(m[i].bytes + data)])
    ensures Footprint(lists) == old(Footprint(lists))
  {
    hide World, Coherent;
    ghost var w := AsSet(lists);
    assert lists[i] in lists;
    lists[i].PushRaw(data, shareable, w);
    forall k | 0 <= k < |lists| && k != i ensures Shows(lists[k], m[k]) {
      assert lists[k] in w && lists[k] != lists[i];
    }
  }

  method DoPushFront(lists: seq<BufferList>, i: nat, data: seq<byte>, ghost m: Values)
    requires Agree(lists, m) && i < |lists|
    modifies Footprint(lists)
    ensures Agree(lists, m[i := Value(data + m[i].bytes, m[i].trusted && data == [])])
    ensures Footprint(lists) == old(Footprint(lists))
  {
    hide World, Coherent;
    ghost var w := AsSet(lists);
    assert lists[i] in lists;
    lists[i].PushFrontRaw(data, w);
    forall k | 0 <= k < |lists| && k != i ensures Shows(lists[k], m[k]) {
      assert lists[k] in w && lists[k] != lists[i];
    }
  }

  method DoAppendList(lists: seq<BufferList>, i: nat, j: nat, ghost m: Values)
    requires Agree(lists, m) && i < |lists| && j < |lists| && i != j
    modifies Footprint(lists)
    ensures Agree(lists, m[i := m[i].With(m[i].bytes + m[j].bytes)])
    ensures Footprint(lists) == old(Footprint(lists))
  {
    hide World, Coherent;
    ghost var w := AsSet(lists);
    assert lists[i] in lists && lists[j] in lists;
    lists[i].AppendList(lists[j], w);
    forall k | 0 <= k < |lists| && k != i && k != j ensures Shows(lists[k], m[k]) {
      assert lists[k] in w && lists[k] != lists[i] && lists[k] != lists[j];
    }
  }

  method DoAssign(lists: seq<BufferList>, i: nat, j: nat, ghost m: Values)
    requires Agree(lists, m) && i < |lists| && j < |lists| && i != j
    modifies Footprint(lists)
    ensures Agree(lists, m[i := Value(m[j].bytes, false)])
    ensures Footprint(lists) == old(Footprint(lists))
  {
    hide World, Coherent;
    ghost var w := AsSet(lists);
    assert lists[i] in lists && lists[j] in lists;
    lists[i].Assign(lists[j], w);
    forall k | 0 <= k < |lists| && k != i && k != j ensures Shows(lists[k], m[k]) {
      assert lists[k] in w && lists[k] != lists[i] && lists[k] != lists[j];
    }
  }

  method DoClaim(lists: seq<BufferList>, i: nat, j: nat, allowNonshareable: bool, ghost m: Values)
    requires Agree(lists, m) && i < |lists| && j < |lists| && i != j
    modifies Footprint(lists)
    ensures Agree(lists, m[i := m[i].With(m[i].bytes + m[j].bytes)][j := Value([], true)])
    ensures Footprint(lists) == old(Footprint(lists))
  {
    hide World, Coherent;
    ghost var w := AsSet(lists);
    assert lists[i] in lists && lists[j] in lists;
    lists[i].ClaimAppend(lists[j], allowNonshareable, w);
    forall k | 0 <= k < |lists| && k != i && k != j ensures Shows(lists[k], m[k]) {
      assert lists[k] in w && lists[k] != lists[i] && lists[k] != lists[j];
    }
  }

  method DoClaimPrepend(lists: seq<BufferList>, i: nat, j: nat, allowNonshareable: bool, ghost m: Values)
    requires Agree(lists, m) && i < |lists| && j < |lists| && i != j
    modifies Footprint(lists)
    ensures Agree(lists, m[i := Value(m[j].bytes + m[i].bytes, false)][j := Value([], true)])
    ensures Footprint(lists) == old(Footprint(lists))
  {
    hide World, Coherent, Usable, Start;
    ghost var w := AsSet(lists);
    assert lists[i] in lists && lists[j] in lists;
    lists[i].ClaimPrepend(lists[j], allowNonshareable, w);
    forall k | 0 <= k < |lists| && k != i && k != j ensures Shows(lists[k], m[k]) {
      assert lists[k] in w && lists[k] != lists[i] && lists[k] != lists[j];
    }
  }

  method DoSubstr(lists: seq<BufferList>, i: nat, j: nat, off: nat, n: nat, ghost m: Values) returns (out: Outcome)
    requires Agree(lists, m) && i < |lists| && j < |lists| && i != j
    modifies Footprint(lists)
    ensures if off + n <= |m[j].bytes| then Agree(lists, m[i := Value(m[j].bytes[off..off + n], true)]) && out == Done
            else Agree(lists, m) && out == EndOfBuffer
    ensures Footprint(lists) == old(Footprint(lists))
  {
    hide World, Coherent;
    ghost var w := AsSet(lists);
    assert lists[i] in lists && lists[j] in lists;
    var ok := lists[i].SubstrOf(lists[j], off, n, w);
    out := if ok then Done else EndOfBuffer;
    forall k | 0 <= k < |lists| && k != i && k != j ensures Shows(lists[k], m[k]) {
      assert lists[k] in w && lists[k] != lists[i] && lists[k] != lists[j];
    }
  }

  method DoSplice(lists: seq<BufferList>, i: nat, off: nat, n: nat, ghost m: Values) returns (out: Outcome)
    requires Agree(lists, m) && i < |lists|
    modifies Footprint(lists)
    ensures n > 0 && off < |m[i].bytes| ==>
              Agree(lists, m[i := Value(Kept(m[i].bytes, off, n), true)]) && out == Done
    ensures n == 0 || off >= |m[i].bytes| ==> Agree(lists, m) && out == if n == 0 then Done else EndOfBuffer
    ensures Footprint(lists) == old(Footprint(lists))
  {
    hide World, Coherent, Flat;
    ghost var w := AsSet(lists);
    assert lists[i] in lists;
    var ok := lists[i].Splice(off, n, null, w);
    out := if ok then Done else EndOfBuffer;
    forall k | 0 <= k < |lists| && k != i ensures Shows(lists[k], m[k]) {
      assert lists[k] in w && lists[k] != lists[i];
    }
  }

  method DoSpliceInto(lists: seq<BufferList>, i: nat, off: nat, n: nat, j: nat, ghost m: Values) returns (out: Outcome)
    requires Agree(lists, m) && i < |lists| && j < |lists| && i != j
    modifies Footprint(lists)
    ensures n > 0 && off < |m[i].bytes| ==>
              && Agree(lists, m[i := Value(Kept(m[i].bytes, off, n), true)]
                               [j := m[j].With(m[j].bytes + Cut(m[i].bytes, off, n))])
              && out == Done
    ensures n == 0 || off >= |m[i].bytes| ==> Agree(lists, m) && out == if n == 0 then Done else EndOfBuffer
    ensures Footprint(lists) == old(Footprint(lists))
  {
    hide World, Coherent, Flat;
    ghost var w := AsSet(lists);
    assert lists[i] in lists && lists[j] in lists;
    var ok := lists[i].Splice(off, n, lists[j], w);
    out := if ok then Done else EndOfBuffer;
    forall k | 0 <= k < |lists| && k != i && k != j ensures Shows(lists[k], m[k]) {
      assert lists[k] in w && lists[k] != lists[i] && lists[k] != lists[j];
    }
  }

  method DoSwap(lists: seq<BufferList>, i: nat, j: nat, ghost m: Values)
    requires Agree(lists, m) && i < |lists| && j < |lists|
    modifies Footprint(lists)
    ensures Agree(lists, m[i := Value(m[j].bytes, true)][j := Value(m[i].bytes, true)])
    ensures Footprint(lists) <= old(Footprint(lists))
  {
    hide World, Coherent;
    ghost var w := AsSet(lists);
    assert lists[i] in lists && lists[j] in lists;
    lists[i].Swap(lists[j], w);
    forall k | 0 <= k < |lists| && k != i && k != j ensures Shows(lists[k], m[k]) {
      assert lists[k] in w && lists[k] != lists[i] && lists[k] != lists[j];
    }
  }

  method DoClear(lists: seq<BufferList>, i: nat, ghost m: Values)
    requires Agree(lists, m) && i < |lists|
    modifies Footprint(lists)
    ensures Agree(lists, m[i := Value([], true)])
    ensures Footprint(lists) == old(Footprint(lists))
  {
    hide World, Coherent;
    ghost var w := AsSet(lists);
    assert lists[i] in lists;
    lists[i].Clear(w);
    forall k | 0 <= k < |lists| && k != i ensures Shows(lists[k], m[k]) {
      assert lists[k] in w && lists[k] != lists[i];
    }
  }

  method DoRebuildAll(lists: seq<BufferList>, i: nat, ghost m: Values)
    requires Agree(lists, m) && i < |lists|
    modifies Footprint(lists)
    ensures Agree(lists, m[i := Value(m[i].bytes, false)])
    ensures Footprint(lists) == old(Footprint(lists))
  {
    hide World, Coherent;
    ghost var w := AsSet(lists);
    assert lists[i] in lists;
    Rebuild.RebuildAll(lists[i], w);
    forall k | 0 <= k < |lists| && k != i ensures Shows(lists[k], m[k]) {
      assert lists[k] in w && lists[k] != lists[i];
    }
  }

  method DoRebuildAligned(lists: seq<BufferList>, i: nat, size: nat, mem: nat, ghost m: Values)
    requires Agree(lists, m) && i < |lists| && size > 0 && PowerOfTwo(mem)
    modifies Footprint(lists)
    ensures Agree(lists, m[i := Value(m[i].bytes, false)])
    ensures Footprint(lists) == old(Footprint(lists))
  {
    hide World, Coherent;
    ghost var w := AsSet(lists);
    assert lists[i] in lists;
    Rebuild.RebuildAligned(lists[i], size, mem, w);
    forall k | 0 <= k < |lists| && k != i ensures Shows(lists[k], m[k]) {
      assert lists[k] in w && lists[k] != lists[i];
    }
  }

  method DoGetContiguous(lists: seq<BufferList>, i: nat, off: nat, n: nat, ghost m: Values) returns (out: Outcome)
    requires Agree(lists, m) && i < |lists|
    modifies Footprint(lists)
    ensures off + n > |m[i].bytes| ==> Agree(lists, m) && out == EndOfBuffer
    ensures off + n <= |m[i].bytes| && n == 0 ==> Agree(lists, m) && out == Got([])
    ensures off + n <= |m[i].bytes| && n > 0 ==>
              Agree(lists, m[i := Value(m[i].bytes, false)]) && out == Got(m[i].bytes[off..off + n])
    ensures Footprint(lists) == old(Footprint(lists))
  {
    hide World, Coherent, Flat;
    ghost var w := AsSet(lists);
    assert lists[i] in lists;
    var ok, q := Rebuild.GetContiguous(lists[i], off, n, w);
    out := if !ok then EndOfBuffer else if q.None? then Got([])
           else Got(q.value.raw.data[q.value.off..q.value.off + q.value.len]);
    forall k | 0 <= k < |lists| && k != i ensures Shows(lists[k], m[k]) {
      assert lists[k] in w && lists[k] != lists[i];
    }
  }

  method DoRead(lists: seq<BufferList>, i: nat, off: nat, n: nat, ghost m: Values) returns (out: Outcome)
    requires Agree(lists, m) && i < |lists| && m[i].trusted
    modifies Footprint(lists)
    ensures Agree(lists, m)
    ensures out == if off + n <= |m[i].bytes| then Got(m[i].bytes[off..off + n]) else EndOfBuffer
    ensures Footprint(lists) == old(Footprint(lists))
  {
    hide World, Coherent;
    ghost var w := AsSet(lists);
    assert lists[i] in lists;
    var ok, bytes := lists[i].Read(off, n, w);
    out := if ok then Got(bytes) else EndOfBuffer;
    forall k | 0 <= k < |lists| && k != i ensures Shows(lists[k], m[k]) {
      assert lists[k] in w && lists[k] != lists[i];
    }
  }

  method DoCopyTo(lists: seq<BufferList>, i: nat, off: nat, n: nat, j: nat, ghost m: Values) returns (out: Outcome)
    requires Agree(lists, m) && i < |lists| && j < |lists| && i != j && m[i].trusted
    modifies Footprint(lists)
    ensures if off + n <= |m[i].bytes| then
              Agree(lists, m[j := m[j].With(m[j].bytes + m[i].bytes[off..off + n])]) && out == Done
            else Agree(lists, m) && out == EndOfBuffer
    ensures Footprint(lists) == old(Footprint(lists))
  {
    hide World, Coherent;
    ghost var w := AsSet(lists);
    assert lists[i] in lists && lists[j] in lists;
    var ok := lists[i].CopyTo(off, n, lists[j], w);
    out := if ok then Done else EndOfBuffer;
    forall k | 0 <= k < |lists| && k != i && k != j ensures Shows(lists[k], m[k]) {
      assert lists[k] in w && lists[k] != lists[i] && lists[k] != lists[j];
    }
  }

  /** A new list joins the others. */
  lemma Joined(lists: seq<BufferList>, l: BufferList, m: Values, v: Value)
    requires Agree(lists, m) && l !in lists && World(AsSet(lists) + {l}) && Shows(l, v)
    ensures Agree(lists + [l], m + [v])
  {
    hide World, Coherent, Shows;
    assert AsSet(lists + [l]) == AsSet(lists) + {l};
  }

  method DoCopy(lists: seq<BufferList>, j: nat, ghost m: Values) returns (l: BufferList)
    requires Agree(lists, m) && j < |lists|
    ensures Agree(lists + [l], m + [Value(m[j].bytes, true)])
    ensures fresh(Footprint(lists + [l]) - old(Footprint(lists)))
  {
    hide World, Coherent, Flat;
    assert lists[j] in lists;
    l := new BufferList.Copy(lists[j], AsSet(lists));
    Joined(lists, l, m, Value(m[j].bytes, true));
  }

  method DoNew(lists: seq<BufferList>, size: Option<nat>, ghost m: Values) returns (l: BufferList)
    requires Agree(lists, m)
    ensures Agree(lists + [l], m + [Value([], true)])
    ensures fresh(Footprint(lists + [l]) - old(Footprint(lists)))
  {
    hide World, Coherent, Flat;
    if size.None? {
      l := new BufferList();
    } else {
      l := new BufferList.Prealloc(size.value);
    }
    NewcomerFits(AsSet(lists), l);
    Joined(lists, l, m, Value([], true));
  }

  // ---------- Programs ----------

  method Step(lists: seq<BufferList>, op: Op, ghost m: Values) returns (lists': seq<BufferList>, out: Outcome)
    requires Agree(lists, m) && Legal(op, m)
    modifies Footprint(lists)
    ensures Agree(lists', Effect(op, m).0) && out == Effect(op, m).1
    ensures fresh(Footprint(lists') - old(Footprint(lists)))
  {
    hide World, Agree, Footprint, Distinct, PowerOfTwo, Kept, Cut;
    AgreeLength(lists, m);
    if op.New? || op.Prealloc? || op.Copy? {
      lists' := Create(lists, op, m);
      out := Done;
    } else if op.Splice? || op.SpliceInto? || op.Substr? || op.Swap? || op.Clear? || op.CopyTo? || op.Read? {
      lists' := lists;
      out := CutOrRead(lists, op, m);
    } else {
      lists' := lists;
      out := GrowOrMove(lists, op, m);
    }
  }

  method Create(lists: seq<BufferList>, op: Op, ghost m: Values) returns (lists': seq<BufferList>)
    requires Agree(lists, m) && Legal(op, m) && (op.New? || op.Prealloc? || op.Copy?)
    ensures Agree(lists', Effect(op, m).0) && Effect(op, m).1 == Done
    ensures fresh(Footprint(lists') - old(Footprint(lists)))
  {
    hide World, Agree, Footprint, Distinct;
    AgreeLength(lists, m);
    var l;
    match op {
      case Copy(j) => l := DoCopy(lists, j, m);
      case Prealloc(size) => l := DoNew(lists, Some(size), m);
      case _ => l := DoNew(lists, None, m);
    }
    lists' := lists + [l];
  }

  method CutOrRead(lists: seq<BufferList>, op: Op, ghost m: Values) returns (out: Outcome)
    requires Agree(lists, m) && Legal(op, m)
    requires op.Splice? || op.SpliceInto? || op.Substr? || op.Swap? || op.Clear? || op.CopyTo? || op.Read?
    modifies Footprint(lists)
    ensures Agree(lists, Effect(op, m).0) && out == Effect(op, m).1
    ensures fresh(Footprint(lists) - old(Footprint(lists)))
  {
    hide World, Agree, Footprint, Distinct, Kept, Cut;
    AgreeLength(lists, m);
    out := Done;
    match op {
      case Substr(i, j, off, n) => out := DoSubstr(lists, i, j, off, n, m);
      case Splice(i, off, n) => out := DoSplice(lists, i, off, n, m);
      case SpliceInto(i, off, n, j) => out := DoSpliceInto(lists, i, off, n, j, m);
      case Swap(i, j) => DoSwap(lists, i, j, m);
      case Clear(i) => DoClear(lists, i, m);
      case Read(i, off, n) => out := DoRead(lists, i, off, n, m);
      case CopyTo(i, off, n, j) => out := DoCopyTo(lists, i, off, n, j, m);
    }
  }

  method GrowOrMove(lists: seq<BufferList>, op: Op, ghost m: Values) returns (out: Outcome)
    requires Agree(lists, m) && Legal(op, m) && !(op.New? || op.Prealloc? || op.Copy?)
    requires !(op.Splice? || op.SpliceInto? || op.Substr? || op.Swap? || op.Clear? || op.CopyTo? || op.Read?)
    modifies Footprint(lists)
    ensures Agree(lists, Effect(op, m).0) && out == Effect(op, m).1
    ensures fresh(Footprint(lists) - old(Footprint(lists)))
  {
    hide World, Agree, Footprint, Distinct, PowerOfTwo;
    AgreeLength(lists, m);
    out := Done;
    match op {
      case Append(i, data) => DoAppend(lists, i, data, m);
      case AppendChar(i, c) => DoAppendChar(lists, i, c, m);
      case PushRaw(i, data, shareable) => DoPushRaw(lists, i, data, shareable, m);
      case PushFront(i, data) => DoPushFront(lists, i, data, m);
      case AppendList(i, j) => DoAppendList(lists, i, j, m);
      case Assign(i, j) =>
        if i != j {
          DoAssign(lists, i, j, m);
        }
      case Claim(i, j, allow) => DoClaim(lists, i, j, allow, m);
      case ClaimPrepend(i, j, allow) => DoClaimPrepend(lists, i, j, allow, m);
      case RebuildAll(i) => DoRebuildAll(lists, i, m);
      case RebuildAligned(i, size, mem) => DoRebuildAligned(lists, i, size, mem, m);
      case GetContiguous(i, off, n) => out := DoGetContiguous(lists, i, off, n, m);
    }
  }

  lemma AgreeLength(lists: seq<BufferList>, m: Values)
    requires Agree(lists, m)
    ensures |lists| == |m|
  {
  }

  lemma EffectsSnoc(prog: seq<Op>, m: Values)
    requires prog != [] && LegalProgram(prog, m)
    ensures var (m', out) := Effect(prog[0], m);
            && LegalProgram(prog[1..], m')
            && Effects(prog, m) == (Effects(prog[1..], m').0, [out] + Effects(prog[1..], m').1)
  {
    hide Effect, Legal;
  }

  /** Every program on lists does what it does on byte strings, in values and in outcomes. */
  method Run(prog: seq<Op>) returns (lists: seq<BufferList>, outs: seq<Outcome>)
    requires LegalProgram(prog, [])
    ensures Agree(lists, Effects(prog, []).0) && outs == Effects(prog, []).1
  {
    hide World, Effect, Effects, Agree, Legal;
    lists, outs := [], [];
    ghost var m: Values := [];
    AgreeEmpty();
    assert prog[0..] == prog;
    for i := 0 to |prog|
      invariant Agree(lists, m) && fresh(Footprint(lists)) && LegalProgram(prog[i..], m)
      invariant Effects(prog, []).0 == Effects(prog[i..], m).0
      invariant Effects(prog, []).1 == outs + Effects(prog[i..], m).1
    {
      EffectsSnoc(prog[i..], m);
      assert prog[i..][1..] == prog[i + 1..];
      var out;
      ghost var m' := Effect(prog[i], m).0;
      lists, out := Step(lists, prog[i], m);
      m := m';
      outs := outs + [out];
    }
    EffectsNone(prog[|prog|..], m);
  }

  lemma EffectsNone(prog: seq<Op>, m: Values)
    requires prog == []
    ensures Effects(prog, m) == (m, [])
  {
  }

  lemma AgreeEmpty()
    ensures Agree([], []) && Footprint([]) == {}
  {
  }
}

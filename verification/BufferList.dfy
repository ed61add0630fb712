/**
 The buffer list: slices in order, their cached total length, a private append buffer whose
 memory is shared with slices already published, and a remembered cursor.

 Lists that share memory are reasoned about together: a `world` is a set of lists, and its
 invariant says who may still write where.
 */
module BufferLists {
  import opened Bytes
  import opened Arith
  import opened Rope
  import opened Cursors

  const PAGE: nat := 4096

  // ---------- The world ----------

  /** No slice of `ps` reaches into memory that a list of `w` may still append to. */
  ghost predicate Respects(w: set<BufferList>, ps: seq<Ptr>)
    reads w`appendBuffer
  {
    forall l <- w :: Below(l.appendBuffer, ps)
  }

  /** Every list is well formed, stays clear of all unused tails, and owns its append buffer alone. */
  ghost predicate World(w: set<BufferList>)
    reads w
  {
    && (forall l <- w :: l.Ok() && Respects(w, l.buffers))
    && (forall l <- w, m <- w :: l != m ==> Apart(l.appendBuffer, m.appendBuffer))
  }

  lemma OkIn(w: set<BufferList>, l: BufferList)
    requires World(w) && l in w
    ensures l.Ok()
  {
  }

  lemma RespectsIn(w: set<BufferList>, l: BufferList)
    requires World(w) && l in w
    ensures Respects(w, l.buffers)
  {
  }

  lemma RespectsNone(w: set<BufferList>)
    ensures Respects(w, [])
  {
  }

  lemma FreshRespects(w: set<BufferList>, q: Ptr)
    requires forall l <- w :: l.appendBuffer.Some? ==> l.appendBuffer.value.raw.data != q.raw.data
    ensures Respects(w, [q])
  {
  }

  lemma RespectsConcat(w: set<BufferList>, a: seq<Ptr>, b: seq<Ptr>)
    requires Respects(w, a) && Respects(w, b)
    ensures Respects(w, a + b)
  {
  }

  lemma RespectsSlices(w: set<BufferList>, ps: seq<Ptr>, f: nat)
    requires Respects(w, ps) && f < |ps|
    ensures Respects(w, ps[..f]) && Respects(w, ps[f + 1..]) && Respects(w, ps[f..])
  {
  }

  lemma RespectsSub(w: set<BufferList>, ps: seq<Ptr>, p: Ptr, o: nat, n: nat)
    requires Respects(w, ps) && p in ps && o + n <= p.len
    ensures Respects(w, [p.Sub(o, n)])
  {
  }

  lemma RespectsMerged(w: set<BufferList>, ps: seq<Ptr>, q: Ptr)
    requires Respects(w, ps) && Respects(w, [q])
    ensures Respects(w, Merged(ps, q))
  {
    forall l <- w ensures Below(l.appendBuffer, Merged(ps, q)) {
      MergedBelow(l.appendBuffer, ps, q);
    }
  }

  /** Lists that show the same bytes as before have the same values as before. */
  twostate lemma SameViews(w: set<BufferList>)
    requires old(World(w)) && (forall l <- w :: l.buffers == old(l.buffers))
    requires forall l <- w, p <- l.buffers :: View(p) == old(View(p))
    ensures forall l <- w :: Flat(l.buffers) == old(Flat(l.buffers))
  {
    forall l <- w ensures Flat(l.buffers) == old(Flat(l.buffers)) {
      FlatFrame(l.buffers);
    }
  }

  /** When an append buffer grows, everything published so far stays clear of all tails. */
  twostate lemma GrowTail(new list: BufferList, new a: Ptr, new b: Ptr, w: set<BufferList>)
    requires list in w && old(World(w)) && a.raw == b.raw && a.off == 0 == b.off && a.len <= b.len
    requires old(list.appendBuffer) == Some(a) && list.appendBuffer == Some(b)
    requires forall l <- w :: l.buffers == old(l.buffers)
    requires forall l <- w :: l != list ==> l.appendBuffer == old(l.appendBuffer)
    ensures forall l <- w :: Respects(w, l.buffers)
    ensures Respects(w, [b.Sub(a.len, b.len - a.len)])
    ensures forall l <- w, m <- w :: l != m ==> Apart(l.appendBuffer, m.appendBuffer)
  {
    forall l <- w, m <- w ensures Below(m.appendBuffer, l.buffers) {
      assert old(Respects(w, l.buffers));
      assert Below(old(m.appendBuffer), l.buffers);
    }
    forall l <- w ensures Below(l.appendBuffer, [b.Sub(a.len, b.len - a.len)]) {
      assert l != list ==> Apart(old(l.appendBuffer), old(list.appendBuffer));
    }
  }

  twostate lemma Exchanged(new a: BufferList, new b: BufferList, w: set<BufferList>)
    requires a in w && b in w && old(World(w))
    requires a.buffers == old(b.buffers) && b.buffers == old(a.buffers)
    requires a.appendBuffer == old(b.appendBuffer) && b.appendBuffer == old(a.appendBuffer)
    requires a.len == old(b.len) && b.len == old(a.len)
    requires forall l <- w :: l != a && l != b ==> l.buffers == old(l.buffers)
    requires forall l <- w :: l != a && l != b ==> l.appendBuffer == old(l.appendBuffer)
    requires forall l <- w :: l != a && l != b ==> l.len == old(l.len)
    ensures World(w)
  {
    hide Below, Apart, Sum, AllFit, NoneEmpty;
    forall l <- w ensures l.Ok() {
      assert old(Other(l, a, b).Ok());
    }
    forall l <- w, m <- w
      ensures Below(m.appendBuffer, l.buffers) && (l != m ==> Apart(l.appendBuffer, m.appendBuffer))
    {
      var l', m' := Other(l, a, b), Other(m, a, b);
      assert old(Respects(w, l'.buffers));
      assert old(Below(m'.appendBuffer, l'.buffers));
    }
  }

  /** A list that starts as a copy and has no append buffer joins the world. */
  lemma NewList(l: BufferList, other: BufferList, w: set<BufferList>)
    requires World(w) && other in w && l !in w
    requires l.buffers == other.buffers && l.len == other.len && l.appendBuffer == None
    ensures World(w + {l})
  {
    hide Flat, Sum, Apart, Below;
    OkIn(w, other);
    forall m <- w + {l} ensures Respects(w + {l}, m.buffers) {
      var m' := if m == l then other else m;
      assert Respects(w, m'.buffers);
      NoTail(l.buffers);
      NoTail(m'.buffers);
    }
    forall m <- w ensures Apart(l.appendBuffer, m.appendBuffer) && Apart(m.appendBuffer, l.appendBuffer) {
      NoTailApart(m.appendBuffer);
    }
  }

  /** So does an empty list whose append buffer, if any, is memory nobody else has. */
  lemma NewcomerFits(w: set<BufferList>, l: BufferList)
    requires World(w) && l !in w && l.Ok() && l.buffers == []
    requires l.appendBuffer.Some? ==> forall m <- w ::
               && (m.appendBuffer.Some? ==> m.appendBuffer.value.raw.data != l.appendBuffer.value.raw.data)
               && (forall p <- m.buffers :: p.raw.data != l.appendBuffer.value.raw.data)
    ensures World(w + {l})
  {
    hide Sum, AllFit, NoneEmpty;
    forall m <- w + {l} ensures Respects(w + {l}, m.buffers) {
      assert m != l ==> Respects(w, m.buffers);
    }
  }

  lemma Alone(list: BufferList)
    requires list.Ok() && list.buffers == [] && list.appendBuffer == None
    ensures World({list})
  {
    NewcomerFits({}, list);
    assert {} + {list} == {list};
  }

  lemma NoTail(ps: seq<Ptr>)
    ensures Below(None, ps)
  {
  }

  lemma NoTailApart(a: Option<Ptr>)
    ensures Apart(None, a) && Apart(a, None)
  {
  }

  ghost function Other(l: BufferList, a: BufferList, b: BufferList): BufferList {
    if l == a then b else if l == b then a else l
  }

  ghost function Raws(ps: seq<Ptr>): set<Raw> {
    set p <- ps :: p.raw
  }

  lemma MergedRaws(ps: seq<Ptr>, q: Ptr)
    ensures Raws(Merged(ps, q)) <= Raws(ps) + {q.raw}
  {
  }

  // ---------- Cursors and growth ----------

  lemma CoherentMerged(ps: seq<Ptr>, q: Ptr, c: Cursor)
    requires Coherent(ps, c)
    ensures Coherent(Merged(ps, q), c)
  {
    hide Sum;
    var n, r := |ps|, Merged(ps, q);
    if n > 0 && ps[n - 1].raw == q.raw && ps[n - 1].End() == q.off {
      PrefixStep(ps, n - 1);
      PrefixStep(r, n - 1);
      assert r[..n - 1] == ps[..n - 1];
      PrefixAll(ps);
      PrefixAll(r);
      if c.pos.At? {
        assert r[..c.pos.i] == ps[..c.pos.i];
      }
    } else if q.len > 0 {
      CoherentConcat(ps, [q], c);
    }
  }

  lemma CoherentConcat(ps: seq<Ptr>, qs: seq<Ptr>, c: Cursor)
    requires Coherent(ps, c)
    ensures Coherent(ps + qs, c)
  {
    hide Sum;
    SumConcat(ps, qs);
    if c.pos.At? {
      assert (ps + qs)[..c.pos.i] == ps[..c.pos.i];
    }
  }

  /** A cursor on a segment stays on that segment when segments are put before it. */
  function Shifted(c: Cursor, n: nat): Cursor {
    if c.pos.At? then c.(pos := At(c.pos.i + n)) else c
  }

  lemma WhereInFront(ps: seq<Ptr>, qs: seq<Ptr>, c: Cursor)
    requires Standing(ps, c) && c.pos.At?
    ensures Standing(qs + ps, Shifted(c, |qs|)) && Where(qs + ps, Shifted(c, |qs|)) == Where(ps, c) + Sum(qs)
  {
    hide Sum;
    var r, d := qs + ps, Shifted(c, |qs|);
    assert d == Cursor(c.off, At(c.pos.i + |qs|), c.pOff);
    PrefixInFront(ps, qs, c.pos.i, r, d.pos.i);
    assert Where(r, d) == Sum(r[..d.pos.i]) + c.pOff;
  }

  /** It stays usable, but what it reads moves on with its segment. */
  lemma UsableInFront(ps: seq<Ptr>, qs: seq<Ptr>, c: Cursor)
    requires Usable(ps, c)
    ensures Usable(qs + ps, Shifted(c, |qs|))
    ensures Start(qs + ps, Shifted(c, |qs|)) == Start(ps, c) + if c.pos.At? then Sum(qs) else 0
  {
    hide Sum, Where, Standing;
    if c.pos.At? {
      WhereInFront(ps, qs, c);
    } else {
      SumConcat(qs, ps);
    }
  }

  /** So its offset is then wrong; only a cursor at the end survives. */
  lemma CoherentInFront(ps: seq<Ptr>, qs: seq<Ptr>, c: Cursor)
    requires Coherent(ps, c) && Sum(qs) > 0
    ensures Coherent(qs + ps, Shifted(c, |qs|)) <==> c.pos.End?
  {
    hide Sum, Usable, Start, Coherent;
    CoherentIff(ps, c);
    UsableInFront(ps, qs, c);
    CoherentIff(qs + ps, Shifted(c, |qs|));
  }

  lemma PrefixInFront(ps: seq<Ptr>, qs: seq<Ptr>, i: nat, r: seq<Ptr>, k: nat)
    requires i < |ps| && r == qs + ps && k == i + |qs|
    ensures k < |r| && r[k] == ps[i] && Sum(r[..k]) == Sum(ps[..i]) + Sum(qs)
  {
    hide Sum;
    assert r[..k] == qs + ps[..i];
    SumConcat(qs, ps[..i]);
  }

  lemma CoherentSame(ps: seq<Ptr>, qs: seq<Ptr>, c: Cursor)
    requires |ps| == |qs| && forall i :: 0 <= i < |ps| ==> ps[i].len == qs[i].len
    ensures Coherent(ps, c) <==> Coherent(qs, c)
  {
    hide Sum;
    SameSum(ps, qs);
    if c.pos.At? && c.pos.i < |ps| {
      SameSum(ps[..c.pos.i], qs[..c.pos.i]);
    }
  }

  lemma RespectsReplaced(w: set<BufferList>, ps: seq<Ptr>, i: nat, q: Ptr)
    requires Respects(w, ps) && Respects(w, [q]) && i < |ps|
    ensures Respects(w, ps[i := q])
  {
    assert q in [q];
  }

  class BufferList {
    var buffers: seq<Ptr>
    var len: nat
    var appendBuffer: Option<Ptr>
    var lastP: Cursor

    /** `len` is the sum of the segment lengths and no segment is empty. */
    ghost predicate Ok()
      reads this
    {
      && AllFit(buffers) && NoneEmpty(buffers) && len == Sum(buffers)
      && (appendBuffer.Some? ==> appendBuffer.value.Fits() && appendBuffer.value.off == 0)
    }

    ghost function Content(): (s: seq<byte>)
      reads this`buffers, set p <- buffers :: p.raw.data
    {
      if AllFit(buffers) then Flat(buffers) else []
    }

    /** The block this list may still write into, if it has one. */
    ghost function Mine(): set<Raw>
      reads this`appendBuffer
    {
      if appendBuffer.Some? then {appendBuffer.value.raw} else {}
    }

    ghost predicate CursorOk()
      reads this`buffers, this`lastP
    {
      Coherent(buffers, lastP)
    }

    /** A cursor reads can go through, whether it is where its offset says or behind. */
    ghost predicate CursorUsable()
      reads this`buffers, this`lastP
    {
      Usable(buffers, lastP)
    }

    /** Where such a read starts. */
    ghost function ReadsFrom(): nat
      requires CursorUsable()
      reads this`buffers, this`lastP
    {
      Start(buffers, lastP)
    }

    constructor ()
      ensures Ok() && CursorOk() && buffers == [] && Content() == [] && appendBuffer == None
    {
      buffers, len, appendBuffer, lastP := [], 0, None, Cursor(0, End, 0);
    }

    /** `list(prealloc)`. */
    constructor Prealloc(n: nat)
      ensures Ok() && CursorOk() && buffers == [] && Content() == []
      ensures appendBuffer.Some? && fresh(appendBuffer.value.raw.data) && Gap() == n
    {
      var raw := CreateAligned(n, 1);
      buffers, len, appendBuffer, lastP := [], 0, Some(Ptr(raw, 0, 0)), Cursor(0, End, 0);
    }

    // ---------- Appending ----------

    /** `append(bp, off, len)`: with the tail merge. */
    method AppendSlice(bp: Ptr, off: nat, n: nat)
      requires Ok() && bp.Fits() && off + n <= bp.len
      modifies this`buffers, this`len
      ensures Ok() && Content() == old(Content()) + View(bp)[off..off + n]
      ensures buffers == Merged(old(buffers), bp.Sub(off, n))
      ensures old(CursorOk()) ==> CursorOk()
    {
      hide Flat, Sum, Coherent;
      ghost var was, q := buffers, bp.Sub(off, n);
      ViewSub(bp, off, n);
      MergedValue(was, q);
      if CursorOk() {
        CoherentMerged(was, q, lastP);
      }
      if |buffers| > 0 {
        var l := buffers[|buffers| - 1];
        if l.raw == bp.raw && l.End() == bp.off + off {
          buffers := buffers[..|buffers| - 1] + [l.(len := l.len + n)];
          len := len + n;
          return;
        }
      }
      var temp := Ptr(bp.raw, bp.off + off, n);
      PushBack(temp);
    }

    /** `push_back`. */
    method PushBack(bp: Ptr)
      requires Ok() && bp.Fits()
      modifies this`buffers, this`len
      ensures Ok() && Content() == old(Content()) + View(bp)
      ensures buffers == if bp.len == 0 then old(buffers) else old(buffers) + [bp]
      ensures old(CursorOk()) ==> CursorOk()
    {
      hide Flat, Sum, Coherent;
      if bp.len == 0 {
        return;
      }
      FlatSnoc(buffers, bp);
      if CursorOk() {
        CoherentConcat(buffers, [bp], lastP);
      }
      buffers := buffers + [bp];
      len := len + bp.len;
    }

    /** `append_buffer.append(data, n)`, then publishing the bytes as a slice. */
    method FillTail(chunk: seq<byte>, ghost w: set<BufferList>)
      requires this in w && World(w)
      requires appendBuffer.Some? && appendBuffer.value.End() + |chunk| <= appendBuffer.value.raw.data.Length
      modifies this`buffers, this`len, this`appendBuffer, appendBuffer.value.raw.data
      ensures World(w) && Ok()
      ensures Content() == old(Content()) + chunk
      ensures forall l <- w :: l != this ==> l.Content() == old(l.Content())
      ensures appendBuffer == Some(Ptr(old(appendBuffer.value.raw), 0, old(appendBuffer.value.len) + |chunk|))
      ensures Raws(buffers) <= old(Raws(buffers)) + Mine()
      ensures old(CursorOk()) ==> CursorOk()
    {
      hide Flat, Sum, Coherent, Raws;
      var a := appendBuffer.value;
      WriteTail(a, chunk, w);
      Publish(|chunk|, w);
    }

    /** The append buffer takes in the next `n` bytes of its block and the list gets them as a slice. */
    method Publish(n: nat, ghost w: set<BufferList>)
      requires this in w && World(w)
      requires appendBuffer.Some? && appendBuffer.value.End() + n <= appendBuffer.value.raw.data.Length
      modifies this`buffers, this`len, this`appendBuffer
      ensures World(w) && Ok()
      ensures Content() == old(Content()) + old(View(appendBuffer.value.Sub(appendBuffer.value.len, n)))
      ensures forall l <- w :: l != this ==> l.Content() == old(l.Content())
      ensures appendBuffer == Some(Ptr(old(appendBuffer.value.raw), 0, old(appendBuffer.value.len) + n))
      ensures Raws(buffers) <= old(Raws(buffers)) + Mine()
      ensures old(CursorOk()) ==> CursorOk()
    {
      hide Flat, Sum, Coherent, Merged, Raws, Respects, Below, Apart, NoneEmpty;
      var a := appendBuffer.value;
      var b := Ptr(a.raw, a.off, a.len + n);
      appendBuffer := Some(b);
      GrowTail(this, a, b, w);
      ghost var q := b.Sub(a.len, n);
      RespectsMerged(w, buffers, q);
      MergedRaws(buffers, q);
      ViewSub(b, a.len, n);
      AppendSlice(b, b.End() - n, n);
    }

    /** Nobody sees bytes written into the unused tail of an append buffer. */
    method WriteTail(a: Ptr, chunk: seq<byte>, ghost w: set<BufferList>)
      requires this in w && World(w) && appendBuffer == Some(a)
      requires a.End() + |chunk| <= a.raw.data.Length
      modifies a.raw.data
      ensures View(a.Sub(a.len, |chunk|)) == chunk
      ensures World(w) && forall l <- w :: l.Content() == old(l.Content())
    {
      hide Flat, Sum;
      WriteAt(a.raw.data, a.End(), chunk);
      forall l <- w, p <- l.buffers ensures View(p) == old(View(p)) {
        assert Below(Some(a), l.buffers);
      }
      SameViews(w);
    }

    /** The room left in the append buffer. */
    function Gap(): int
      reads this`appendBuffer
    {
      if appendBuffer.None? then 0 else appendBuffer.value.raw.data.Length - appendBuffer.value.End()
    }

    /** The append buffer's block is whole pages. */
    ghost predicate Paged()
      reads this`appendBuffer
    {
      appendBuffer.Some? && appendBuffer.value.raw.addr % PAGE == 0 && appendBuffer.value.raw.data.Length % PAGE == 0
    }

    /** A new, empty append buffer. */
    method Renew(n: nat, ghost w: set<BufferList>)
      requires this in w && World(w)
      modifies this`appendBuffer
      ensures World(w) && Ok() && forall l <- w :: l.Content() == old(l.Content())
      ensures appendBuffer.Some? && fresh(appendBuffer.value.raw) && fresh(appendBuffer.value.raw.data)
      ensures appendBuffer.value.len == 0 && Gap() == n && appendBuffer.value.raw.addr % PAGE == 0
      ensures n % PAGE == 0 ==> Paged()
    {
      hide Sum, NoneEmpty;
      var raw := CreateAligned(n, PAGE);
      var b := Some(Ptr(raw, 0, 0));
      appendBuffer := b;
      forall l <- w, m <- w ensures Below(m.appendBuffer, l.buffers) {
        assert old(Respects(w, l.buffers));
        assert Below(old(m.appendBuffer), l.buffers);
      }
    }

    /** `append(char)`. */
    method AppendChar(c: byte, ghost w: set<BufferList>)
      requires this in w && World(w)
      modifies this`buffers, this`len, this`appendBuffer
      modifies if appendBuffer.Some? then {appendBuffer.value.raw.data} else {}
      ensures World(w) && Ok()
      ensures Content() == old(Content()) + [c]
      ensures forall l <- w :: l != this ==> l.Content() == old(l.Content())
      ensures Raws(buffers) <= old(Raws(buffers) + Mine()) + Mine()
      ensures Mine() == old(Mine()) || (appendBuffer.Some? && fresh(appendBuffer.value.raw.data))
      ensures old(Gap()) > 0 ==> Mine() == old(Mine()) && Gap() == old(Gap()) - 1
      ensures old(Gap()) == 0 ==> Paged() && Gap() == PAGE - 1
      ensures old(CursorOk()) ==> CursorOk()
    {
      hide Flat, Sum, Coherent, Raws, Below, Apart;
      if Gap() == 0 {
        Renew(PAGE, w);
      }
      FillTail([c], w);
    }

    /**
     `append(data, len)`: the list grows by exactly `data` and every other list keeps its value. What
     fits goes into the room there is; for the rest one block is allocated, of as few pages as it needs.
     */
    method Append(data: seq<byte>, ghost w: set<BufferList>)
      requires this in w && World(w)
      modifies this`buffers, this`len, this`appendBuffer
      modifies if appendBuffer.Some? then {appendBuffer.value.raw.data} else {}
      ensures World(w) && Ok()
      ensures Content() == old(Content()) + data
      ensures forall l <- w :: l != this ==> l.Content() == old(l.Content())
      ensures Raws(buffers) <= old(Raws(buffers) + Mine()) + Mine()
      ensures Mine() == old(Mine()) || (appendBuffer.Some? && fresh(appendBuffer.value.raw.data))
      ensures |data| <= old(Gap()) ==> Mine() == old(Mine()) && Gap() == old(Gap()) - |data|
      ensures |data| > old(Gap()) && data != [] ==>
                && appendBuffer.Some? && fresh(appendBuffer.value.raw.data) && Paged()
                && 0 <= Gap() < PAGE && appendBuffer.value.len == |data| - old(Gap())
      ensures old(CursorOk()) ==> CursorOk()
    {
      hide Flat, Sum, World, Raws, Content, CursorOk, AllFit, NoneEmpty, Paged;
      OkIn(w, this);
      ghost var room, renewed := Gap(), false;
      var at := 0;
      while at < |data|
        invariant 0 <= at <= |data| && World(w) && Ok()
        invariant Content() == old(Content()) + data[..at]
        invariant forall l <- w :: l != this ==> l.Content() == old(l.Content())
        invariant Raws(buffers) <= old(Raws(buffers) + Mine()) + Mine()
        invariant !renewed ==> Mine() == old(Mine()) && Gap() == room - at && (at == 0 || at == |data|)
        invariant renewed ==>
                    && at >= room && |data| > room
                    && appendBuffer.Some? && fresh(appendBuffer.value.raw.data) && Paged()
                    && appendBuffer.value.len == at - room && |data| - at <= Gap() < |data| - at + PAGE
        invariant old(CursorOk()) ==> CursorOk()
        decreases |data| - at, if Gap() > 0 then 0 else 1
      {
        var next := FillRoom(data, at, w);
        assert data[..at] + data[at..next] == data[..next];
        at := next;
        if at == |data| {
          break;
        }
        Renew(PAGE * ((|data| - at - 1) / PAGE + 1), w);
        renewed := true;
      }
      assert data[..|data|] == data;
    }

    /** Puts what it can of the rest of `data` into the append buffer there is. */
    method FillRoom(data: seq<byte>, at: nat, ghost w: set<BufferList>) returns (next: nat)
      requires this in w && World(w) && at <= |data|
      modifies this`buffers, this`len, this`appendBuffer
      modifies if appendBuffer.Some? then {appendBuffer.value.raw.data} else {}
      ensures World(w) && Ok() && 0 <= old(Gap())
      ensures next == at + if old(Gap()) <= |data| - at then old(Gap()) else |data| - at
      ensures Content() == old(Content()) + data[at..next]
      ensures forall l <- w :: l != this ==> l.Content() == old(l.Content())
      ensures Raws(buffers) <= old(Raws(buffers)) + Mine() && Mine() == old(Mine())
      ensures Gap() == old(Gap()) - (next - at)
      ensures appendBuffer.None? == old(appendBuffer.None?)
      ensures appendBuffer.Some? ==>
                && appendBuffer.value.raw == old(appendBuffer.value.raw)
                && appendBuffer.value.len == old(appendBuffer.value.len) + next - at
      ensures old(Paged()) ==> Paged()
      ensures old(CursorOk()) ==> CursorOk()
    {
      hide Flat, Sum, World, Raws, CursorOk, NoneEmpty;
      OkIn(w, this);
      next := at;
      var gap := Gap();
      if gap > 0 {
        if gap > |data| - at {
          gap := |data| - at;
        }
        FillTail(data[at..at + gap], w);
        next := at + gap;
      }
    }

    // ---------- Whole lists ----------

    /** `append(list)`. */
    method AppendList(other: BufferList, ghost w: set<BufferList>)
      requires this in w && other in w && other != this && World(w)
      modifies this`buffers, this`len
      ensures World(w)
      ensures Content() == old(Content()) + other.Content() && buffers == old(buffers) + other.buffers
      ensures old(CursorOk()) ==> CursorOk()
    {
      hide Flat, Sum, Coherent, Below, Apart, Respects;
      OkIn(w, this);
      OkIn(w, other);
      len := len + other.len;
      for i := 0 to |other.buffers|
        invariant buffers == old(buffers) + other.buffers[..i] && len == old(len) + other.len
      {
        buffers := buffers + [other.buffers[i]];
      }
      assert buffers == old(buffers) + other.buffers;
      FlatConcat(old(buffers), other.buffers);
      SumConcat(old(buffers), other.buffers);
      RespectsConcat(w, old(buffers), other.buffers);
      if old(CursorOk()) {
        CoherentConcat(old(buffers), other.buffers, lastP);
      }
    }

    method Clear(ghost w: set<BufferList>)
      requires this in w && World(w)
      modifies this`buffers, this`len, this`lastP
      ensures World(w)
      ensures buffers == [] && Content() == []
      ensures CursorOk()
    {
      hide Apart, Below, Respects;
      RespectsNone(w);
      buffers, len := [], 0;
      lastP := Begin(buffers);
    }

    method Swap(other: BufferList, ghost w: set<BufferList>)
      requires this in w && other in w && World(w)
      modifies this, other
      ensures World(w)
      ensures Content() == old(other.Content()) && other.Content() == old(Content())
      ensures appendBuffer == old(other.appendBuffer) && other.appendBuffer == old(appendBuffer)
      ensures CursorOk() && other.CursorOk()
    {
      hide Flat, Sum, World, Placed, Begin;
      len, other.len := other.len, len;
      buffers, other.buffers := other.buffers, buffers;
      appendBuffer, other.appendBuffer := other.appendBuffer, appendBuffer;
      lastP := Begin(buffers);
      other.lastP := Begin(other.buffers);
      Exchanged(this, other, w);
      OkIn(w, this);
      OkIn(w, other);
      BeginPlaced(buffers);
      BeginPlaced(other.buffers);
    }

    // ---------- Sharing ----------

    /** `make_shareable`: slices of scarce memory move to copies; nothing else changes. */
    method MakeShareable(ghost w: set<BufferList>)
      requires this in w && World(w)
      modifies this`buffers
      ensures World(w)
      ensures Content() == old(Content()) && |buffers| == |old(buffers)|
      ensures forall p <- buffers :: p.raw.shareable
      ensures forall i :: 0 <= i < |buffers| && old(buffers)[i].raw.shareable ==> buffers[i] == old(buffers)[i]
      ensures old(CursorOk()) ==> CursorOk()
    {
      hide Flat, Sum, Coherent, Apart, Respects, Below;
      for i := 0 to |buffers|
        invariant |buffers| == |old(buffers)| && World(w)
        invariant Content() == old(Content())
        invariant forall k :: 0 <= k < |buffers| ==> buffers[k].len == old(buffers)[k].len
        invariant forall k :: 0 <= k < i ==> buffers[k].raw.shareable
        invariant forall k :: 0 <= k < |buffers| && (k >= i || old(buffers)[k].raw.shareable) ==>
                    buffers[k] == old(buffers)[k]
      {
        if !buffers[i].raw.shareable {
          Unshare(i, w);
        }
      }
      CoherentSame(old(buffers), buffers, lastP);
    }

    /** `ptr::make_shareable` on segment `i`. */
    method Unshare(i: nat, ghost w: set<BufferList>)
      requires this in w && World(w) && i < |buffers|
      modifies this`buffers
      ensures World(w) && Content() == old(Content())
      ensures exists q :: buffers == old(buffers)[i := q] && q.len == old(buffers)[i].len && q.raw.shareable
    {
      hide Flat, Sum, Apart, Respects, Below;
      var p := buffers[i];
      var raw := Clone(p.raw);
      var q := Ptr(raw, p.off, p.len);
      assert p in buffers;
      assert View(q) == raw.data[..][p.off..p.off + p.len] == View(p);
      Replaced(buffers, i, q);
      SameSum(buffers, buffers[i := q]);
      FreshRespects(w, q);
      RespectsReplaced(w, buffers, i, q);
      buffers := buffers[i := q];
    }

    /** The copy constructor. */
    constructor Copy(other: BufferList, ghost w: set<BufferList>)
      requires other in w && World(w)
      ensures World(w + {this})
      ensures Content() == other.Content() && CursorOk() && appendBuffer == None
      ensures |buffers| == |other.buffers| && forall p <- buffers :: p.raw.shareable
      ensures forall i :: 0 <= i < |buffers| && other.buffers[i].raw.shareable ==> buffers[i] == other.buffers[i]
    {
      buffers := other.buffers;
      len := other.len;
      appendBuffer := None;
      lastP := Begin(other.buffers);
      new;
      hide Flat, Sum, Placed, Begin, AllFit, NoneEmpty;
      OkIn(w, other);
      NewList(this, other, w);
      BeginPlaced(buffers);
      MakeShareable(w + {this});
    }

    /** `operator=`. The remembered cursor is left as it was, so nothing is promised about it. */
    method Assign(other: BufferList, ghost w: set<BufferList>)
      requires this in w && other in w && World(w)
      modifies this`buffers, this`len
      ensures World(w)
      ensures Content() == old(other.Content())
      ensures this != other ==> forall p <- buffers :: p.raw.shareable
    {
      hide Flat, Sum, Apart, Below, Respects;
      if this != other {
        OkIn(w, other);
        buffers := other.buffers;
        len := other.len;
        MakeShareable(w);
      }
    }

    /** `claim_append`. */
    method ClaimAppend(other: BufferList, allowNonshareable: bool, ghost w: set<BufferList>)
      requires this in w && other in w && other != this && World(w)
      modifies this`buffers, this`len, other`buffers, other`len, other`lastP
      ensures World(w)
      ensures Content() == old(Content() + other.Content()) && other.Content() == []
      ensures var n := |old(buffers)|;
              && |buffers| == n + |old(other.buffers)| && buffers[..n] == old(buffers)
              && if allowNonshareable then buffers[n..] == old(other.buffers)
                 else forall p <- buffers[n..] :: p.raw.shareable
      ensures old(CursorOk()) ==> CursorOk()
      ensures other.CursorOk()
    {
      hide Flat, Sum, Coherent, World;
      if !allowNonshareable {
        other.MakeShareable(w);
      }
      OkIn(w, other);
      OkIn(w, this);
      RespectsIn(w, other);
      TakeOver(other.buffers, other.len, w);
      other.Clear(w);
    }

    /** The slices of a donor join the end of this list. */
    method TakeOver(theirs: seq<Ptr>, n: nat, ghost w: set<BufferList>)
      requires this in w && World(w)
      requires AllFit(theirs) && NoneEmpty(theirs) && n == Sum(theirs) && Respects(w, theirs)
      modifies this`buffers, this`len
      ensures World(w)
      ensures Content() == old(Content()) + Flat(theirs) && buffers == old(buffers) + theirs
      ensures old(CursorOk()) ==> CursorOk()
    {
      hide Flat, Sum, Coherent, Below, Apart, Respects;
      FlatConcat(buffers, theirs);
      SumConcat(buffers, theirs);
      RespectsConcat(w, buffers, theirs);
      if CursorOk() {
        CoherentConcat(buffers, theirs, lastP);
      }
      len := len + n;
      buffers := buffers + theirs;
    }

    // ---------- Cutting ----------

    /** Appends part of a segment of another list as a slice of its own. */
    method TakePart(other: BufferList, k: nat, o: nat, h: nat, ghost w: set<BufferList>)
      requires this in w && other in w && other != this && World(w)
      requires k < |other.buffers| && 0 < h && o + h <= other.buffers[k].len
      modifies this`buffers, this`len
      ensures World(w)
      ensures Sum(other.buffers[..k]) + o + h <= |other.Content()|
      ensures var at := Sum(other.buffers[..k]) + o;
              Content() == old(Content()) + other.Content()[at..at + h]
      ensures Raws(buffers) <= old(Raws(buffers)) + Raws(other.buffers)
      ensures old(CursorOk()) ==> CursorOk()
    {
      hide Flat, Sum, Coherent, Below, Apart, Respects;
      OkIn(w, other);
      var p := other.buffers[k];
      assert p in other.buffers;
      SegmentBytes(other.buffers, k, o, h);
      ViewSub(p, o, h);
      RespectsSub(w, other.buffers, p, o, h);
      RespectsConcat(w, buffers, [p.Sub(o, h)]);
      PushBack(p.Sub(o, h));
    }

    /** `substr_of`: exactly the bytes asked for, in the memory of the other list, or no change at all. */
    method SubstrOf(other: BufferList, off: nat, n: nat, ghost w: set<BufferList>) returns (ok: bool)
      requires this in w && other in w && other != this && World(w)
      modifies this`buffers, this`len, this`lastP
      ensures World(w)
      ensures ok <==> off + n <= |other.Content()|
      ensures ok ==> Content() == other.Content()[off..off + n] && CursorOk()
      ensures ok ==> Raws(buffers) <= Raws(other.buffers)
      ensures !ok ==> buffers == old(buffers) && len == old(len) && lastP == old(lastP)
    {
      hide Flat, Sum, Coherent, World, CursorOk;
      OkIn(w, other);
      FlatLength(other.buffers);
      if off + n > other.len {
        return false;
      }
      Clear(w);
      var k, o := Skip(other.buffers, off);
      TakeParts(other, k, o, n, w);
      return true;
    }

    method TakeParts(other: BufferList, first: nat, off: nat, n: nat, ghost w: set<BufferList>)
      requires this in w && other in w && other != this && World(w)
      requires CursorOk() && buffers == [] && Content() == []
      requires first <= |other.buffers| && (first < |other.buffers| ==> off < other.buffers[first].len)
      requires Sum(other.buffers[..first]) + off + n <= Sum(other.buffers) == |other.Content()|
      modifies this`buffers, this`len
      ensures World(w) && CursorOk() && Raws(buffers) <= Raws(other.buffers)
      ensures Content() == other.Content()[Sum(other.buffers[..first]) + off..Sum(other.buffers[..first]) + off + n]
    {
      hide Flat, Sum, Coherent, World, CursorOk, Content, AllFit;
      OkIn(w, other);
      PrefixAll(other.buffers);
      ghost var from := Sum(other.buffers[..first]) + off;
      var k: nat, o: nat, left: nat := first, off, n;
      while left > 0
        invariant World(w) && CursorOk() && Raws(buffers) <= Raws(other.buffers)
        invariant k <= |other.buffers| && Sum(other.buffers[..k]) + o == from + n - left
        invariant k < |other.buffers| ==> o < other.buffers[k].len
        invariant Content() == other.Content()[from..from + n - left]
      {
        ghost var at := from + n - left;
        assert k < |other.buffers|;
        var h: nat := other.buffers[k].len - o;
        if o + left < other.buffers[k].len {
          SliceJoin(other.Content(), from, at, at + left);
          TakePart(other, k, o, left, w);
          break;
        }
        PrefixStep(other.buffers, k);
        SliceJoin(other.Content(), from, at, at + h);
        TakePart(other, k, o, h, w);
        left := left - h;
        o := 0;
        k := k + 1;
      }
    }

    /** The segment a byte offset falls in. */
    static method Skip(ps: seq<Ptr>, off: nat) returns (k: nat, o: nat)
      requires NoneEmpty(ps) && off <= Sum(ps)
      ensures k <= |ps| && Sum(ps[..k]) + o == off
      ensures if k < |ps| then o < ps[k].len else o == 0
    {
      hide Sum;
      PrefixAll(ps);
      k, o := 0, off;
      while o > 0 && o >= ps[k].len
        invariant k <= |ps| && Sum(ps[..k]) + o == off
        invariant k == |ps| ==> o == 0
      {
        PrefixStep(ps, k);
        o := o - ps[k].len;
        k := k + 1;
      }
    }

    /** `append(bp, off, len)` for a slice that any list may publish. */
    method AppendPart(bp: Ptr, off: nat, n: nat, ghost w: set<BufferList>)
      requires this in w && World(w) && bp.Fits() && off + n <= bp.len && Respects(w, [bp])
      modifies this`buffers, this`len
      ensures World(w)
      ensures Content() == old(Content()) + View(bp)[off..off + n]
      ensures old(CursorOk()) ==> CursorOk()
    {
      hide Flat, Sum, Coherent, Below, Apart, Respects, Merged;
      RespectsSub(w, [bp], bp, off, n);
      RespectsMerged(w, buffers, bp.Sub(off, n));
      AppendSlice(bp, off, n);
    }

    /** The bytes from segment `f` on. */
    ghost function Rest(f: nat): (s: seq<byte>)
      reads this`buffers, set p <- buffers :: p.raw.data
    {
      if f <= |buffers| && AllFit(buffers) then Flat(buffers[f..]) else []
    }

    /** Erases segment `f`. */
    method Erase(f: nat, ghost w: set<BufferList>)
      requires this in w && World(w) && f < |buffers|
      modifies this`buffers, this`len
      ensures World(w)
      ensures f <= |buffers| && buffers[..f] == old(buffers[..f]) && |buffers| == |old(buffers)| - 1
      ensures old(Rest(f)) == old(View(buffers[f])) + Rest(f)
    {
      hide Flat, Sum, Below, Apart, Respects;
      OkIn(w, this);
      Erased(buffers, f);
      RespectsSlices(w, buffers, f);
      RespectsConcat(w, buffers[..f], buffers[f + 1..]);
      len := len - buffers[f].len;
      ghost var rest := Flat((buffers[..f] + buffers[f + 1..])[f..]);
      buffers := buffers[..f] + buffers[f + 1..];
      assert AllFit(buffers);
      assert Flat(buffers[f..]) == rest;
    }

    /** Segment `f` loses its first `a` bytes, but not all of them. */
    method Trim(f: nat, a: nat, ghost w: set<BufferList>)
      requires this in w && World(w) && f < |buffers| && a < buffers[f].len
      modifies this`buffers, this`len
      ensures World(w)
      ensures f <= |buffers| && buffers[..f] == old(buffers[..f])
      ensures a <= |old(Rest(f))| && Rest(f) == old(Rest(f))[a..]
    {
      hide Flat, Sum, Below, Apart, Respects;
      OkIn(w, this);
      var p := buffers[f];
      assert p in buffers;
      Trimmed(buffers, f, a);
      RespectsSub(w, buffers, p, a, p.len - a);
      RespectsReplaced(w, buffers, f, p.Sub(a, p.len - a));
      ghost var rest := Flat(buffers[f := p.Sub(a, p.len - a)][f..]);
      buffers := buffers[f := p.Sub(a, p.len - a)];
      len := len - a;
      assert AllFit(buffers);
      assert Flat(buffers[f..]) == rest;
    }

    /** An own slice for the first `o` bytes of segment `k`, put before that segment. */
    method KeepFront(k: nat, o: nat, ghost w: set<BufferList>)
      requires this in w && World(w) && k < |buffers| && 0 < o < buffers[k].len
      modifies this`buffers, this`len
      ensures World(w)
      ensures buffers == old(buffers[..k] + [buffers[k].Sub(0, o)] + buffers[k..])
    {
      hide Flat, Sum, Below, Apart, Respects;
      var p := buffers[k];
      assert p in buffers;
      FrontBit(buffers, k, o);
      RespectsSlices(w, buffers, k);
      RespectsSub(w, buffers, p, 0, o);
      RespectsConcat(w, buffers[..k], [p.Sub(0, o)]);
      RespectsConcat(w, buffers[..k] + [p.Sub(0, o)], buffers[k..]);
      buffers := buffers[..k] + [p.Sub(0, o)] + buffers[k..];
      len := len + o;
    }

    /** Part of segment `f` goes to the claiming list, if there is one. */
    method HandOver(claimBy: BufferList?, f: nat, o: nat, n: nat, ghost w: set<BufferList>)
      requires this in w && World(w) && (claimBy != null ==> claimBy in w && claimBy != this)
      requires f < |buffers| && o + n <= buffers[f].len
      modifies (if claimBy != null then {claimBy} else {})`buffers, (if claimBy != null then {claimBy} else {})`len
      ensures World(w)
      ensures o + n <= |Rest(f)|
      ensures claimBy != null ==> claimBy.Content() == old(claimBy.Content()) + Rest(f)[o..o + n]
      ensures claimBy != null && old(claimBy.CursorOk()) ==> claimBy.CursorOk()
    {
      hide Flat, Sum, Coherent, Below, Apart, Respects;
      var p := buffers[f];
      assert p in buffers;
      HeadTail(buffers[f..]);
      assert View(p)[o..o + n] == Rest(f)[o..o + n];
      RespectsSub(w, buffers, p, 0, p.len);
      if claimBy != null {
        claimBy.AppendPart(p, o, n, w);
      }
    }

    /** One turn of the cutting loop: up to the end of the segment, or up to the last byte to go. */
    method CutStep(f: nat, o: nat, n: nat, claimBy: BufferList?, ghost w: set<BufferList>) returns (h: nat)
      requires this in w && World(w) && (claimBy != null ==> claimBy in w && claimBy != this)
      requires f < |buffers| && o < buffers[f].len && n > 0
      modifies this`buffers, this`len
      modifies (if claimBy != null then {claimBy} else {})`buffers, (if claimBy != null then {claimBy} else {})`len
      ensures World(w) && f <= |buffers| && buffers[..f] == old(buffers[..f])
      ensures 0 < h <= n && (h < n ==> o + h == old(buffers[f].len))
      ensures o + h <= |old(Rest(f))| && Rest(f) == old(Rest(f))[o + h..]
      ensures h < n ==> |buffers| < |old(buffers)|
      ensures claimBy != null ==> claimBy.Content() == old(claimBy.Content()) + old(Rest(f))[o..o + h]
      ensures claimBy != null && old(claimBy.CursorOk()) ==> claimBy.CursorOk()
    {
      hide Flat, Sum, World, Respects, Coherent;
      var size := buffers[f].len;
      OkIn(w, this);
      RestBound(f);
      h := if o + n < size then n else size - o;
      HandOver(claimBy, f, o, h, w);
      if o + n < size {
        Trim(f, o + n, w);
      } else {
        Erase(f, w);
      }
    }

    /**
     Removes up to `n` bytes starting `o` bytes into segment `f`, and the bytes of that segment
     before them, which the caller has kept elsewhere.
     */
    method CutMiddle(f: nat, o: nat, n: nat, claimBy: BufferList?, ghost w: set<BufferList>)
      requires this in w && World(w) && (claimBy != null ==> claimBy in w && claimBy != this)
      requires f < |buffers| && o < buffers[f].len && o <= |Rest(f)| && n > 0
      modifies this`buffers, this`len
      modifies (if claimBy != null then {claimBy} else {})`buffers, (if claimBy != null then {claimBy} else {})`len
      ensures World(w) && f <= |buffers| && buffers[..f] == old(buffers[..f])
      ensures Rest(f) == old(Rest(f))[Least(o + n, |old(Rest(f))|)..]
      ensures claimBy != null ==>
                claimBy.Content() == old(claimBy.Content()) + old(Rest(f))[o..Least(o + n, |old(Rest(f))|)]
      ensures claimBy != null && old(claimBy.CursorOk()) ==> claimBy.CursorOk()
    {
      hide Flat, Sum, World, Respects, CursorOk, Content, Rest, Ok, Least;
      ghost var middle, p := Rest(f), o;
      ghost var before := if claimBy == null then [] else claimBy.Content();
      ghost var front := buffers[..f];
      var oo: nat, left: nat := o, n;
      while left > 0 && f < |buffers|
        invariant World(w) && f <= |buffers| && buffers[..f] == front
        invariant p == o + n - left <= |middle| && oo <= p && Rest(f) == middle[p - oo..]
        invariant oo == if left == n then o else 0
        invariant f < |buffers| ==> oo < buffers[f].len
        invariant claimBy != null ==> claimBy.Content() == before + middle[o..p]
        invariant claimBy != null && old(claimBy.CursorOk()) ==> claimBy.CursorOk()
        decreases left
      {
        var h := CutTurn(f, oo, left, middle, p, claimBy, w);
        Extended(before, middle, o, p, p + h);
        p := p + h;
        left := left - h;
        oo := 0;
      }
      SegmentThere(f, w);
      CutDone(middle, Rest(f), f == |buffers|, o, n, p, oo, left);
    }

    /** The loop has removed all it was asked to, or all there was. */
    lemma CutDone(middle: seq<byte>, rest: seq<byte>, out: bool, o: nat, n: nat, p: nat, oo: nat, left: nat)
      requires p == o + n - left <= |middle| && oo <= p && rest == middle[p - oo..]
      requires oo == if left == n then o else 0
      requires n > 0 && (left == 0 || (out && rest == []))
      ensures p == Least(o + n, |middle|) && rest == middle[p..]
    {
    }

    lemma Extended(before: seq<byte>, s: seq<byte>, a: nat, b: nat, c: nat)
      requires a <= b <= c <= |s|
      ensures (before + s[a..b]) + s[b..c] == before + s[a..c]
    {
      SliceJoin(s, a, b, c);
    }

    /** The same turn, in terms of the bytes that were there when the cutting began. */
    method CutTurn(f: nat, o: nat, n: nat, ghost middle: seq<byte>, ghost at: nat, claimBy: BufferList?,
                   ghost w: set<BufferList>) returns (h: nat)
      requires this in w && World(w) && (claimBy != null ==> claimBy in w && claimBy != this)
      requires f < |buffers| && o < buffers[f].len && n > 0
      requires o <= at <= |middle| && Rest(f) == middle[at - o..]
      modifies this`buffers, this`len
      modifies (if claimBy != null then {claimBy} else {})`buffers, (if claimBy != null then {claimBy} else {})`len
      ensures World(w) && f <= |buffers| && buffers[..f] == old(buffers[..f])
      ensures 0 < h <= n && at + h <= |middle| && Rest(f) == middle[at + h..]
      ensures f < |buffers| ==> buffers[f].len > 0
      ensures claimBy != null ==> claimBy.Content() == old(claimBy.Content()) + middle[at..at + h]
      ensures claimBy != null && old(claimBy.CursorOk()) ==> claimBy.CursorOk()
    {
      hide Flat, Sum, World, Respects, CursorOk, Content, Rest, Ok;
      h := CutStep(f, o, n, claimBy, w);
      Suffix(middle, at - o, o, h);
      SegmentThere(f, w);
    }

    lemma SegmentThere(f: nat, w: set<BufferList>)
      requires this in w && World(w) && f <= |buffers|
      ensures if f < |buffers| then buffers[f].len > 0 else Rest(f) == []
    {
      hide Rest;
      OkIn(w, this);
      RestBound(f);
    }

    lemma RestBound(f: nat)
      requires AllFit(buffers) && NoneEmpty(buffers) && f <= |buffers|
      ensures if f < |buffers| then |Rest(f)| >= buffers[f].len else Rest(f) == []
    {
      hide Flat;
      if f < |buffers| {
        HeadTail(buffers[f..]);
      } else {
        FlatLength(buffers[f..]);
      }
    }

    lemma Suffix(s: seq<byte>, p: nat, a: nat, n: nat)
      requires p + a + n <= |s|
      ensures s[p..][a..a + n] == s[p + a..p + a + n] && s[p..][a + n..] == s[p + a + n..]
    {
    }

    /** Finds the segment `off` falls in and keeps the bytes of it that come before. */
    method Divide(off: nat, ghost w: set<BufferList>) returns (f: nat, o: nat)
      requires this in w && World(w) && off < |Content()|
      modifies this`buffers, this`len
      ensures World(w) && AllFit(buffers) && f < |buffers| && o < buffers[f].len && o <= off
      ensures off <= |old(Content())| && Flat(buffers[..f]) == old(Content())[..off]
      ensures Rest(f) == old(Content())[off - o..]
    {
      hide Flat, Sum, World, Respects;
      OkIn(w, this);
      FlatLength(buffers);
      PrefixAll(buffers);
      f, o := Skip(buffers, off);
      CutAt(buffers, f);
      if o > 0 {
        FrontBit(buffers, f, o);
        ghost var rest := buffers[f..];
        ghost var front := (buffers[..f] + [buffers[f].Sub(0, o)] + rest)[..f + 1];
        ghost var kept, after := Flat(front), Flat(rest);
        KeepFront(f, o, w);
        f := f + 1;
        OkIn(w, this);
        assert buffers[f..] == rest && buffers[..f] == front;
        assert Flat(rest) == after && Flat(front) == kept;
      }
    }

    method SpliceInside(off: nat, n: nat, claimBy: BufferList?, ghost w: set<BufferList>)
      requires this in w && World(w) && (claimBy != null ==> claimBy in w && claimBy != this)
      requires off < |Content()| && n > 0
      modifies this`buffers, this`len
      modifies (if claimBy != null then {claimBy} else {})`buffers, (if claimBy != null then {claimBy} else {})`len
      ensures World(w)
      ensures var c, hi := old(Content()), Least(off + n, |old(Content())|);
              && Content() == c[..off] + c[hi..]
              && (claimBy != null ==> claimBy.Content() == old(claimBy.Content()) + c[off..hi])
      ensures claimBy != null && old(claimBy.CursorOk()) ==> claimBy.CursorOk()
    {
      hide Flat, Sum, World, Coherent, Respects;
      ghost var c := Content();
      var f, o := Divide(off, w);
      ghost var rest, front := Rest(f), Flat(buffers[..f]);
      CutMiddle(f, o, n, claimBy, w);
      OkIn(w, this);
      assert Flat(buffers[..f]) == front;
      assert buffers == buffers[..f] + buffers[f..];
      FlatConcat(buffers[..f], buffers[f..]);
      ghost var hi := Least(o + n, |rest|);
      assert rest == c[off - o..];
      Suffix(c, off - o, o, hi - o);
    }

    /** `last_p = begin()`. */
    method Rewind(ghost w: set<BufferList>)
      requires this in w && World(w)
      modifies this`lastP
      ensures World(w) && CursorOk() && lastP == Begin(buffers)
    {
      hide Flat, Sum, Placed, Begin, Respects;
      BeginPlaced(buffers);
      lastP := Begin(buffers);
    }

    /**
     `splice`: the old content falls into a kept prefix, the removed middle, which is cut short at
     the end of the list, and a kept suffix; a claiming list gets exactly the middle.
     */
    method Splice(off: nat, n: nat, claimBy: BufferList?, ghost w: set<BufferList>) returns (ok: bool)
      requires this in w && World(w) && (claimBy != null ==> claimBy in w && claimBy != this)
      modifies this`buffers, this`len, this`lastP
      modifies (if claimBy != null then {claimBy} else {})`buffers, (if claimBy != null then {claimBy} else {})`len
      ensures World(w)
      ensures ok <==> n == 0 || off < |old(Content())|
      ensures !ok || n == 0 ==> buffers == old(buffers) && len == old(len) && lastP == old(lastP)
      ensures (!ok || n == 0) && claimBy != null ==> claimBy.buffers == old(claimBy.buffers)
      ensures ok && n > 0 ==> CursorOk()
      ensures ok && n > 0 ==>
                var c, hi := old(Content()), Least(off + n, |old(Content())|);
                && Content() == c[..off] + c[hi..]
                && (claimBy != null ==> claimBy.Content() == old(claimBy.Content()) + c[off..hi])
      ensures claimBy != null && old(claimBy.CursorOk()) ==> claimBy.CursorOk()
    {
      hide Flat, Sum, World, Coherent, Begin;
      OkIn(w, this);
      FlatLength(buffers);
      if n == 0 {
        return true;
      }
      if off >= len {
        return false;
      }
      SpliceInside(off, n, claimBy, w);
      Rewind(w);
      return true;
    }

    // ---------- Reading through the remembered cursor ----------

    /**
     `copy(off, len, char*)`, whatever has become of the remembered cursor. If the offset asked for
     is the one it carries, the bytes come from where it stands, right or wrong.
     */
    method ReadThrough(off: nat, n: nat, ghost w: set<BufferList>) returns (ok: bool, bytes: seq<byte>)
      requires this in w && World(w) && CursorUsable()
      modifies this`lastP
      ensures World(w) && CursorUsable()
      ensures var start := if old(lastP).off == off then old(ReadsFrom()) else off;
              && (ok <==> off + n <= |Content()| && start + n <= |Content()|)
              && (ok ==> bytes == Content()[start..start + n] && lastP.off == off + n)
      ensures off + n > |Content()| ==> lastP == old(lastP)
      ensures old(CursorOk()) ==> CursorOk() && (ok ==> Placed(buffers, lastP))
    {
      hide Flat, Sum, Placed, World, Usable, Start;
      OkIn(w, this);
      FlatLength(buffers);
      if off + n > len {
        return false, [];
      }
      var c := lastP;
      if c.off != off {
        var _, d := Seek(buffers, off);
        c := d;
        CoherentIff(buffers, c);
      }
      ok, c, bytes := CopyOut(buffers, c, n);
      ReplaceCursor(c, w);
    }

    /** Through a cursor that can be trusted, the bytes are those asked for. */
    method Read(off: nat, n: nat, ghost w: set<BufferList>) returns (ok: bool, bytes: seq<byte>)
      requires this in w && World(w) && CursorOk()
      modifies this`lastP
      ensures World(w) && CursorOk()
      ensures ok <==> off + n <= |Content()|
      ensures ok ==> bytes == Content()[off..off + n]
      ensures !ok ==> lastP == old(lastP)
    {
      hide Flat, Sum, Coherent, World, Usable, Start;
      CoherentIff(buffers, lastP);
      ok, bytes := ReadThrough(off, n, w);
    }

    /** `copy(off, len, string&)`: checks nothing first and delivers what there is before failing. */
    method ReadString(off: nat, n: nat, ghost w: set<BufferList>) returns (ok: bool, bytes: seq<byte>)
      requires this in w && World(w) && CursorOk()
      modifies this`lastP
      ensures World(w) && CursorOk()
      ensures ok <==> off + n <= |Content()|
      ensures bytes == if off <= |Content()| then Content()[off..Least(off + n, |Content()|)] else []
    {
      hide Flat, Sum, Placed, World, Usable, Start;
      OkIn(w, this);
      FlatLength(buffers);
      CoherentIff(buffers, lastP);
      var c := lastP;
      if c.off != off {
        var found, d := Seek(buffers, off);
        c := d;
        if !found {
          ReplaceCursor(c, w);
          return false, [];
        }
        CoherentIff(buffers, c);
      }
      ok, c, bytes := CopyOut(buffers, c, n);
      ReplaceCursor(c, w);
    }

    /** `copy(off, len, list&)`: the destination gets the bytes as slices of the same memory. */
    method CopyTo(off: nat, n: nat, dest: BufferList, ghost w: set<BufferList>) returns (ok: bool)
      requires this in w && dest in w && dest != this && World(w) && CursorOk()
      modifies this`lastP, dest`buffers, dest`len
      ensures World(w) && CursorOk()
      ensures ok <==> off + n <= |Content()|
      ensures dest.Content() == old(dest.Content()) + if ok then Content()[off..off + n] else []
      ensures old(dest.CursorOk()) ==> dest.CursorOk()
    {
      hide Flat, Sum, Placed, World;
      OkIn(w, this);
      FlatLength(buffers);
      if off + n > len {
        return false;
      }
      var c := lastP;
      if c.off != off || c.pos.End? {
        var _, d := Seek(buffers, off);
        c := d;
      }
      c := CopySlices(c, n, dest, w);
      ReplaceCursor(c, w);
      return true;
    }

    method ReplaceCursor(c: Cursor, ghost w: set<BufferList>)
      requires this in w && World(w)
      modifies this`lastP
      ensures World(w) && lastP == c
    {
      hide Flat, Sum, Placed, Respects;
      lastP := c;
    }

    /** `iterator::copy(len, list&)`. */
    method CopySlices(from: Cursor, n: nat, dest: BufferList, ghost w: set<BufferList>) returns (c: Cursor)
      requires this in w && dest in w && dest != this && World(w)
      requires Placed(buffers, from) && from.off + n <= |Content()| == Sum(buffers)
      modifies dest`buffers, dest`len
      ensures World(w)
      ensures Placed(buffers, c) && c.off == from.off + n
      ensures dest.Content() == old(dest.Content()) + Content()[from.off..from.off + n]
      ensures old(dest.CursorOk()) ==> dest.CursorOk()
    {
      hide Flat, Sum, World, Respects, CursorOk, Placed, Content, AllFit, NoneEmpty;
      ghost var all := Content();
      c := from;
      var left: nat := n;
      while left > 0
        invariant World(w) && Placed(buffers, c) && c.off == from.off + n - left
        invariant Content() == all && dest.Content() == old(dest.Content()) + all[from.off..c.off]
        invariant old(dest.CursorOk()) ==> dest.CursorOk()
      {
        PlacedEnd(buffers, c);
        ghost var at := c.off;
        var h, d := CopySlice(c, left, dest, w);
        SliceJoin(all, from.off, at, at + h);
        c := d;
        left := left - h;
      }
    }

    method CopySlice(c: Cursor, left: nat, dest: BufferList, ghost w: set<BufferList>) returns (h: nat, d: Cursor)
      requires this in w && dest in w && dest != this && World(w)
      requires Placed(buffers, c) && c.pos.At? && left > 0
      modifies dest`buffers, dest`len
      ensures World(w)
      ensures Content() == old(Content())
      ensures 0 < h <= left && c.off + h <= |Content()| && Placed(buffers, d) && d.off == c.off + h
      ensures dest.Content() == old(dest.Content()) + Content()[c.off..c.off + h]
      ensures old(dest.CursorOk()) ==> dest.CursorOk()
    {
      hide Flat, Sum, World, Respects, Coherent;
      OkIn(w, this);
      FlatLength(buffers);
      var p := buffers[c.pos.i];
      assert p in buffers;
      h := p.len - c.pOff;
      if left < h {
        h := left;
      }
      SegmentBytes(buffers, c.pos.i, c.pOff, h);
      RespectsIn(w, this);
      RespectsSub(w, buffers, p, 0, p.len);
      dest.AppendPart(p, c.pOff, h, w);
      d := Onward(buffers, c, h);
    }

    // ---------- Putting in front ----------

    /** `push_front`: the remembered cursor can be trusted afterwards only if it was at the end. */
    method PushFront(bp: Ptr, ghost w: set<BufferList>)
      requires this in w && World(w) && bp.Fits() && Respects(w, [bp])
      modifies this`buffers, this`len, this`lastP
      ensures World(w)
      ensures Content() == old(View(bp)) + old(Content())
      ensures old(CursorOk()) ==> (CursorOk() <==> bp.len == 0 || old(lastP.pos.End?))
      ensures old(CursorUsable()) ==>
                && CursorUsable() && lastP.off == old(lastP.off)
                && ReadsFrom() == old(ReadsFrom()) + if old(lastP.pos.At?) then bp.len else 0
    {
      hide Flat, Sum, Coherent, Below, Apart, Respects, Usable, Start;
      OkIn(w, this);
      FlatOne(bp);
      if bp.len == 0 {
        return;
      }
      FlatConcat([bp], buffers);
      SumConcat([bp], buffers);
      RespectsConcat(w, [bp], buffers);
      if CursorOk() {
        CoherentInFront(buffers, [bp], lastP);
      }
      if CursorUsable() {
        UsableInFront(buffers, [bp], lastP);
      }
      buffers := [bp] + buffers;
      len := len + bp.len;
      lastP := Shifted(lastP, 1);
    }

    /** `claim_prepend`. */
    method ClaimPrepend(other: BufferList, allowNonshareable: bool, ghost w: set<BufferList>)
      requires this in w && other in w && other != this && World(w)
      modifies this`buffers, this`len, this`lastP, other`buffers, other`len, other`lastP
      ensures World(w)
      ensures Content() == old(other.Content() + Content()) && other.Content() == []
      ensures var n := |old(other.buffers)|;
              && |buffers| == n + |old(buffers)| && buffers[n..] == old(buffers)
              && if allowNonshareable then buffers[..n] == old(other.buffers)
                 else forall p <- buffers[..n] :: p.raw.shareable
      ensures old(CursorOk()) && old(other.Content()) != [] ==> (CursorOk() <==> old(lastP.pos.End?))
      ensures old(CursorUsable()) ==>
                && CursorUsable() && lastP.off == old(lastP.off)
                && ReadsFrom() == old(ReadsFrom()) + if old(lastP.pos.At?) then |old(other.Content())| else 0
      ensures other.CursorOk()
    {
      hide Flat, Sum, Coherent, World, Usable, Start;
      if !allowNonshareable {
        other.MakeShareable(w);
      }
      OkIn(w, other);
      OkIn(w, this);
      RespectsIn(w, other);
      FlatLength(other.buffers);
      TakeOverFront(other.buffers, other.len, w);
      other.Clear(w);
    }

    method TakeOverFront(theirs: seq<Ptr>, n: nat, ghost w: set<BufferList>)
      requires this in w && World(w)
      requires AllFit(theirs) && NoneEmpty(theirs) && n == Sum(theirs) && Respects(w, theirs)
      modifies this`buffers, this`len, this`lastP
      ensures World(w)
      ensures Content() == Flat(theirs) + old(Content()) && buffers == theirs + old(buffers)
      ensures old(CursorOk()) && n > 0 ==> (CursorOk() <==> old(lastP.pos.End?))
      ensures old(CursorUsable()) ==>
                && CursorUsable() && lastP.off == old(lastP.off)
                && ReadsFrom() == old(ReadsFrom()) + if old(lastP.pos.At?) then n else 0
    {
      hide Flat, Sum, Coherent, Below, Apart, Respects, Usable, Start;
      OkIn(w, this);
      FlatConcat(theirs, buffers);
      SumConcat(theirs, buffers);
      RespectsConcat(w, theirs, buffers);
      if CursorOk() && n > 0 {
        CoherentInFront(buffers, theirs, lastP);
      }
      if CursorUsable() {
        UsableInFront(buffers, theirs, lastP);
      }
      len := len + n;
      buffers := theirs + buffers;
      lastP := Shifted(lastP, |theirs|);
    }

    /** `push_back(raw)`: a block of its own with the given bytes, in shareable memory or not. */
    method PushRaw(data: seq<byte>, shareable: bool, ghost w: set<BufferList>)
      requires this in w && World(w)
      modifies this`buffers, this`len
      ensures World(w)
      ensures Content() == old(Content()) + data
      ensures data != [] ==>
                && |buffers| == |old(buffers)| + 1 && buffers[..|old(buffers)|] == old(buffers)
                && buffers[|old(buffers)|].raw.shareable == shareable
      ensures old(CursorOk()) ==> CursorOk()
    {
      hide Flat, Sum, Coherent, Below, Apart, Respects;
      var bp := PtrOf(data, shareable);
      FreshRespects(w, bp);
      RespectsConcat(w, buffers, [bp]);
      PushBack(bp);
    }

    /** `push_front(raw)`. */
    method PushFrontRaw(data: seq<byte>, ghost w: set<BufferList>)
      requires this in w && World(w)
      modifies this`buffers, this`len, this`lastP
      ensures World(w)
      ensures Content() == data + old(Content())
      ensures old(CursorOk()) && data == [] ==> CursorOk()
    {
      hide Flat, Sum, Coherent, Usable, Start, Below, Apart, Respects;
      var bp := PtrOf(data, true);
      FreshRespects(w, bp);
      PushFront(bp, w);
    }

    static method PtrOf(data: seq<byte>, shareable: bool) returns (bp: Ptr)
      ensures fresh(bp.raw.data) && bp.Fits() && View(bp) == data && bp.raw.shareable == shareable
    {
      var raw := new Raw(|data|, 0, shareable);
      WriteAt(raw.data, 0, data);
      bp := Ptr(raw, 0, |data|);
    }
  }
}

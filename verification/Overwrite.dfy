/**
 Writing into a list in place: `iterator::copy_in` and `list::zero`. The bytes go straight into
 memory the segments share, so what happens to the value depends on the segments not overlapping.
 */
module Overwrite {
  import opened Bytes
  import opened Rope
  import opened Cursors
  import opened BufferLists

  /** `s` with `bytes` written over it from `at` on. */
  function Patch(s: seq<byte>, at: nat, bytes: seq<byte>): (r: seq<byte>)
    requires at + |bytes| <= |s|
    ensures |r| == |s|
  {
    s[..at] + bytes + s[at + |bytes|..]
  }

  lemma PatchTwice(s: seq<byte>, at: nat, a: seq<byte>, b: seq<byte>)
    requires at + |a| + |b| <= |s|
    ensures Patch(Patch(s, at, a), at + |a|, b) == Patch(s, at, a + b)
  {
  }

  lemma PatchShows(s: seq<byte>, at: nat, bytes: seq<byte>)
    requires at + |bytes| <= |s|
    ensures Patch(s, at, bytes)[at..at + |bytes|] == bytes
  {
  }

  lemma PatchInside(x: seq<byte>, y: seq<byte>, z: seq<byte>, o: nat, bytes: seq<byte>)
    requires o + |bytes| <= |y|
    ensures Patch(x + y + z, |x| + o, bytes) == x + Patch(y, o, bytes) + z
  {
  }

  /** No byte of memory is shown by both. */
  predicate Disjoint(p: Ptr, q: Ptr) {
    p.raw.data != q.raw.data || p.End() <= q.off || q.End() <= p.off
  }

  predicate AllDisjoint(ps: seq<Ptr>) {
    forall i, j :: 0 <= i < j < |ps| ==> Disjoint(ps[i], ps[j])
  }

  /** `q` shows no byte that `ps` shows. */
  predicate Outside(ps: seq<Ptr>, q: Ptr) {
    forall p <- ps :: Disjoint(p, q)
  }

  ghost function Memory(ps: seq<Ptr>): set<array<byte>> {
    set p <- ps :: p.raw.data
  }

  lemma ThreeParts(ps: seq<Ptr>, k: nat)
    requires AllFit(ps) && k < |ps|
    ensures Flat(ps) == Flat(ps[..k]) + View(ps[k]) + Flat(ps[k + 1..])
    ensures |Flat(ps[..k])| == Sum(ps[..k])
  {
    hide Flat, Sum;
    FlatLength(ps[..k]);
    FlatSnoc(ps[..k], ps[k]);
    FlatConcat(ps[..k] + [ps[k]], ps[k + 1..]);
    assert ps == ps[..k] + [ps[k]] + ps[k + 1..];
  }

  /** `ptr::copy_in` on one segment; nothing but that part of the block changes. */
  method WritePart(ps: seq<Ptr>, k: nat, o: nat, bytes: seq<byte>)
    requires AllFit(ps) && k < |ps| && o + |bytes| <= ps[k].len
    modifies ps[k].raw.data
    ensures forall i :: 0 <= i < ps[k].raw.data.Length && !(ps[k].off + o <= i < ps[k].off + o + |bytes|) ==>
              ps[k].raw.data[i] == old(ps[k].raw.data[i])
    ensures View(ps[k]) == Patch(old(View(ps[k])), o, bytes)
  {
    var p := ps[k];
    assert p in ps;
    WriteAt(p.raw.data, p.off + o, bytes);
  }

  /** The same write, seen in the value of the list. */
  method WriteSegment(ps: seq<Ptr>, k: nat, o: nat, bytes: seq<byte>)
    requires AllFit(ps) && k < |ps| && o + |bytes| <= ps[k].len
    modifies ps[k].raw.data
    ensures forall i :: 0 <= i < ps[k].raw.data.Length && !(ps[k].off + o <= i < ps[k].off + o + |bytes|) ==>
              ps[k].raw.data[i] == old(ps[k].raw.data[i])
    ensures View(ps[k]) == Patch(old(View(ps[k])), o, bytes)
    ensures Sum(ps[..k]) + o + |bytes| <= |old(Flat(ps))|
    ensures AllDisjoint(ps) ==> Flat(ps) == Patch(old(Flat(ps)), Sum(ps[..k]) + o, bytes)
  {
    hide Flat, Sum, Patch;
    ThreeParts(ps, k);
    ghost var x, y, z := Flat(ps[..k]), View(ps[k]), Flat(ps[k + 1..]);
    WritePart(ps, k, o, bytes);
    PatchInside(x, y, z, o, bytes);
    if AllDisjoint(ps) {
      forall i | 0 <= i < |ps| && i != k ensures View(ps[i]) == old(View(ps[i])) {
        assert ps[i] in ps && ps[k] in ps;
        assert Disjoint(ps[i], ps[k]) || Disjoint(ps[k], ps[i]);
      }
      FlatFrame(ps[..k]);
      FlatFrame(ps[k + 1..]);
      ThreeParts(ps, k);
    }
  }

  /** The same, seen from any slice that shows none of the bytes written. */
  method WriteBeside(ps: seq<Ptr>, k: nat, o: nat, bytes: seq<byte>, ghost other: Ptr)
    requires AllFit(ps) && k < |ps| && o + |bytes| <= ps[k].len && other.Fits()
    modifies ps[k].raw.data
    ensures Sum(ps[..k]) + o + |bytes| <= |old(Flat(ps))|
    ensures AllDisjoint(ps) ==> Flat(ps) == Patch(old(Flat(ps)), Sum(ps[..k]) + o, bytes)
    ensures View(ps[k])[o..o + |bytes|] == bytes
    ensures Outside(ps, other) ==> View(other) == old(View(other))
  {
    hide Flat, Sum, Patch, AllDisjoint;
    assert ps[k] in ps;
    ghost var was := View(ps[k]);
    WriteSegment(ps, k, o, bytes);
    PatchShows(was, o, bytes);
  }

  /** One turn of the loop: up to the end of the segment, or all that is left. */
  method CopyInSome(ps: seq<Ptr>, c: Cursor, rest: seq<byte>, ghost other: Ptr) returns (h: nat, c': Cursor)
    requires AllFit(ps) && NoneEmpty(ps) && Placed(ps, c) && c.pos.At? && rest != [] && other.Fits()
    modifies Memory(ps)
    ensures 0 < h <= |rest| && c.off + h <= |old(Flat(ps))| && Placed(ps, c') && c'.off == c.off + h
    ensures AllDisjoint(ps) ==> Flat(ps) == Patch(old(Flat(ps)), c.off, rest[..h])
    ensures c.pos.i < |ps| && ps[c.pos.i].Fits() && c.pOff + h <= ps[c.pos.i].len
    ensures View(ps[c.pos.i])[c.pOff..c.pOff + h] == rest[..h]
    ensures Outside(ps, other) ==> View(other) == old(View(other))
  {
    hide Flat, Sum, Patch, AllDisjoint, Outside, Placed, View;
    var k := c.pos.i;
    PlacedInside(ps, c, k);
    h := ps[k].len - c.pOff;
    if |rest| < h {
      h := |rest|;
    }
    assert ps[k] in ps;
    FlatLength(ps);
    WriteBeside(ps, k, c.pOff, rest[..h], other);
    c' := Onward(ps, c, h);
  }

  /**
   `iterator::copy_in`: writes as many bytes as there is room for and fails exactly when that is
   too few. In a list whose segments do not overlap the value changes there and nowhere else, and
   no slice that shares no byte with the list sees anything.
   */
  method CopyIn(ps: seq<Ptr>, c: Cursor, src: seq<byte>, ghost other: Ptr) returns (ok: bool, c': Cursor)
    requires AllFit(ps) && NoneEmpty(ps) && Coherent(ps, c) && other.Fits()
    modifies Memory(ps)
    ensures ok <==> c.off + |src| <= Sum(ps)
    ensures Placed(ps, c') && c.off <= c'.off <= |old(Flat(ps))| && c'.off == if ok then c.off + |src| else Sum(ps)
    ensures AllDisjoint(ps) ==> Flat(ps) == Patch(old(Flat(ps)), c.off, src[..c'.off - c.off])
    ensures |src| == 1 && c.pos.At? ==>
              && c.pos.i < |ps| && ps[c.pos.i].Fits() && c.pOff < ps[c.pos.i].len
              && View(ps[c.pos.i])[c.pOff..c.pOff + 1] == src
    ensures Outside(ps, other) ==> View(other) == old(View(other))
  {
    hide Flat, Sum, Patch, AllDisjoint, Outside, Placed, View;
    FlatLength(ps);
    CoherentBound(ps, c);
    c' := c;
    if c.pos.End? {
      var _, d := Seek(ps, c.off);
      c' := d;
    }
    ghost var was := Flat(ps);
    PatchNothing(was, c.off);
    if c.pos.At? {
      PlacedInside(ps, c, c.pos.i);
      assert ps[c.pos.i] in ps;
    }
    var done: nat := 0;
    while done < |src|
      invariant Placed(ps, c') && done <= |src| && c'.off == c.off + done <= |was|
      invariant AllDisjoint(ps) ==> Flat(ps) == Patch(was, c.off, src[..done])
      invariant Outside(ps, other) ==> View(other) == old(View(other))
      invariant done == 0 && c.pos.At? ==> c' == c
      invariant done == |src| == 1 && c.pos.At? ==> View(ps[c.pos.i])[c.pOff..c.pOff + 1] == src
    {
      if c'.pos.End? {
        PlacedAtEnd(ps, c');
        return false, c';
      }
      FlatLength(ps);
      var h, d := CopyInSome(ps, c', src[done..], other);
      assert src[done..][..h] == src[done..done + h];
      PatchTwice(was, c.off, src[..done], src[done..done + h]);
      assert src[..done] + src[done..done + h] == src[..done + h];
      c' := d;
      done := done + h;
    }
    assert src[..done] == src;
    return true, c';
  }

  lemma CoherentBound(ps: seq<Ptr>, c: Cursor)
    requires Coherent(ps, c)
    ensures c.off <= Sum(ps) && (c.pos.At? ==> Placed(ps, c))
  {
    hide Sum;
    if Placed(ps, c) {
      PlacedBound(ps, c);
    }
  }

  lemma PatchNothing(s: seq<byte>, at: nat)
    requires at <= |s|
    ensures Patch(s, at, []) == s
  {
  }

  lemma PlacedAtEnd(ps: seq<Ptr>, c: Cursor)
    requires Placed(ps, c) && c.pos.End?
    ensures c.off == Sum(ps)
  {
  }

  lemma PlacedInside(ps: seq<Ptr>, c: Cursor, k: nat)
    requires Placed(ps, c) && c.pos == At(k)
    ensures k < |ps| && c.pOff < ps[k].len && c.off == Sum(ps[..k]) + c.pOff
  {
  }

  // ---------- Zeroing ----------

  lemma {:induction false} AllZero(ps: seq<Ptr>)
    requires AllFit(ps) && forall k :: 0 <= k < |ps| ==> View(ps[k]) == Zeros(ps[k].len)
    ensures Flat(ps) == Zeros(Sum(ps))
    decreases |ps|
  {
    if ps != [] {
      AllZero(ps[..|ps| - 1]);
    }
  }

  method ZeroSegment(ps: seq<Ptr>, i: nat)
    requires AllFit(ps) && i < |ps| && forall k :: 0 <= k < i ==> View(ps[k]) == Zeros(ps[k].len)
    modifies ps[i].raw.data
    ensures forall k :: 0 <= k <= i ==> View(ps[k]) == Zeros(ps[k].len)
  {
    hide Flat, Sum, AllDisjoint;
    assert ps[i] in ps;
    var p, n := ps[i], ps[i].len;
    WriteAt(p.raw.data, p.off, Zeros(n));
    forall k | 0 <= k <= i ensures View(ps[k]) == Zeros(ps[k].len) {
      assert ps[k] in ps;
      forall j | 0 <= j < ps[k].len ensures View(ps[k])[j] == 0 {
        assert k < i ==> old(View(ps[k]))[j] == Zeros(ps[k].len)[j];
      }
    }
  }

  /** `zero()`: overlapping segments do not matter when all of them are cleared. */
  method ZeroAll(ps: seq<Ptr>)
    requires AllFit(ps)
    modifies Memory(ps)
    ensures Flat(ps) == Zeros(Sum(ps))
  {
    hide Flat, Sum, View, Zeros;
    for i := 0 to |ps|
      invariant forall k :: 0 <= k < i ==> View(ps[k]) == Zeros(ps[k].len)
    {
      assert ps[i] in ps;
      ZeroSegment(ps, i);
    }
    AllZero(ps);
  }

  /** `zero(o, l)`: four ways a segment can meet the range. */
  method Zero(ps: seq<Ptr>, len: nat, o: nat, l: nat, ghost other: Ptr)
    requires AllFit(ps) && len == Sum(ps) && o + l <= len && other.Fits()
    modifies Memory(ps)
    ensures o + l <= |old(Flat(ps))|
    ensures AllDisjoint(ps) ==> Flat(ps) == Patch(old(Flat(ps)), o, Zeros(l))
    ensures Outside(ps, other) ==> View(other) == old(View(other))
  {
    hide Flat, Sum, Patch, AllDisjoint, Outside;
    FlatLength(ps);
    PrefixAll(ps);
    ghost var was := Flat(ps);
    PatchNothing(was, o);
    var p: nat := 0;
    ghost var done: nat := 0;
    for i := 0 to |ps|
      invariant p == Sum(ps[..i]) && done == (if p <= o then 0 else p - o) <= l
      invariant AllDisjoint(ps) ==> Flat(ps) == Patch(was, o, Zeros(done))
      invariant Outside(ps, other) ==> View(other) == old(View(other))
    {
      var size := ps[i].len;
      PrefixStep(ps, i);
      assert ps[i] in ps;
      if p + size > o {
        var a: nat, n: nat := 0, size;
        if p >= o && p + size <= o + l {
        } else if p >= o {
          n := o + l - p;
        } else if p + size <= o + l {
          a, n := o - p, size - (o - p);
        } else {
          a, n := o - p, l;
        }
        WriteBeside(ps, i, a, Zeros(n), other);
        PatchTwice(was, o, Zeros(done), Zeros(n));
        assert Zeros(done) + Zeros(n) == Zeros(done + n);
        done := done + n;
      }
      p := p + size;
      if o + l <= p {
        break;
      }
    }
  }

  // ---------- The condition is exact ----------

  /** A byte of the value is a byte of a segment. */
  lemma ByteOf(ps: seq<Ptr>, k: nat, a: nat)
    requires AllFit(ps) && k < |ps| && a < ps[k].len
    ensures Sum(ps[..k]) + a < |Flat(ps)| && Flat(ps)[Sum(ps[..k]) + a] == View(ps[k])[a]
  {
    hide Flat, Sum;
    SegmentBytes(ps, k, a, 1);
    assert View(ps[k])[a..a + 1][0] == View(ps[k])[a];
    assert Flat(ps)[Sum(ps[..k]) + a..Sum(ps[..k]) + a + 1][0] == Flat(ps)[Sum(ps[..k]) + a];
  }

  /**
   When two segments overlap, `copy_in` of some single byte at some offset of the first changes the
   value elsewhere too.
   */
  method OverlapShows(ps: seq<Ptr>, i: nat, j: nat) returns (at: nat, v: byte, ok: bool)
    requires AllFit(ps) && NoneEmpty(ps) && i < j < |ps| && !Disjoint(ps[i], ps[j])
    modifies Memory(ps)
    ensures ok && at < |old(Flat(ps))| && Flat(ps) != Patch(old(Flat(ps)), at, [v])
  {
    hide Flat, Sum, Patch, Placed, AllDisjoint, View, Coherent;
    assert ps[i] in ps && ps[j] in ps;
    var p, q := ps[i], ps[j];
    var x: nat := if p.off < q.off then q.off else p.off;
    v := if p.raw.data[x] == 0xff then 0 else p.raw.data[x] + 1;
    var o: nat, r: nat := x - p.off, x - q.off;
    at := Sum(ps[..i]) + o;
    ghost var was, elsewhere := Flat(ps), Sum(ps[..j]) + r;
    ByteOf(ps, j, r);
    ByteOf(ps, i, o);
    CellShown(q, r);
    PlacedOrder(ps, i, j, o, r);
    FlatLength(ps);
    var _, c := Seek(ps, at);
    SegmentCursor(ps, i, o, c);
    var d;
    ok, d := CopyIn(ps, c, [v], p);
    OneByte(View(p), o, v);
    CellShown(p, o);
    CellShown(q, r);
    ByteOf(ps, j, r);
    FlatLength(ps);
    ChangedElsewhere(was, Flat(ps), at, elsewhere, v);
  }

  lemma CellShown(p: Ptr, o: nat)
    requires p.Fits() && o < p.len
    ensures View(p)[o] == p.raw.data[p.off + o]
  {
  }

  lemma OneByte(s: seq<byte>, o: nat, v: byte)
    requires o < |s| && s[o..o + 1] == [v]
    ensures s[o] == v
  {
    assert s[o..o + 1][0] == s[o];
  }

  lemma ChangedElsewhere(was: seq<byte>, now: seq<byte>, at: nat, elsewhere: nat, v: byte)
    requires at < |was| && elsewhere < |was| == |now| && at != elsewhere
    requires now[elsewhere] == v != was[elsewhere]
    ensures now != Patch(was, at, [v])
  {
    assert Patch(was, at, [v])[elsewhere] == was[elsewhere];
  }

  lemma SegmentCursor(ps: seq<Ptr>, i: nat, o: nat, c: Cursor)
    requires i < |ps| && o < ps[i].len && Placed(ps, c) && c.off == Sum(ps[..i]) + o
    ensures c == Cursor(c.off, At(i), o) && Coherent(ps, c)
  {
    hide Sum;
    PlacedUnique(ps, c, Cursor(c.off, At(i), o));
  }

  /** Such lists arise from the ordinary operations: a copy of a list to which the list is appended. */
  method OverlappingList(data: seq<byte>) returns (list: BufferList)
    requires data != []
    ensures World({list}) && list.Content() == data + data
    ensures |list.buffers| == 2 && !Disjoint(list.buffers[0], list.buffers[1])
  {
    hide Flat, Sum, World, Coherent;
    var source := new BufferList();
    ghost var w := {source};
    Alone(source);
    source.PushRaw(data, true, w);
    list := new BufferList.Copy(source, w);
    ghost var both := w + {list};
    list.AppendList(source, both);
    OkIn(both, list);
    assert list.buffers[0] in list.buffers;
    Fewer({list}, both);
  }

  lemma Fewer(w: set<BufferList>, more: set<BufferList>)
    requires World(more) && w <= more
    ensures World(w)
  {
  }
}

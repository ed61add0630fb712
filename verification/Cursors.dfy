/**
 The byte iterator of a list: an offset into the list together with the segment it falls in and
 the offset inside that segment.
 */
module Cursors {
  import opened Bytes
  import opened Rope

  datatype Pos = At(i: nat) | End

  datatype Cursor = Cursor(off: nat, pos: Pos, pOff: nat)

  /** The list position of segment number `k`; one past the last is the end. */
  function PosOf(ps: seq<Ptr>, k: nat): Pos {
    if k < |ps| then At(k) else End
  }

  function Begin(ps: seq<Ptr>): Cursor {
    Cursor(0, PosOf(ps, 0), 0)
  }

  /** `off` is the bytes before the segment plus the bytes into it, and falls inside it or at the end. */
  predicate Placed(ps: seq<Ptr>, c: Cursor) {
    match c.pos
    case At(i) => i < |ps| && c.pOff < ps[i].len && c.off == Sum(ps[..i]) + c.pOff
    case End => c.pOff == 0 && c.off == Sum(ps)
  }

  /**
   What a remembered cursor may look like: placed, or at the end of a list that has grown since.
   The copying operations look the position up again in that case.
   */
  predicate Coherent(ps: seq<Ptr>, c: Cursor) {
    Placed(ps, c) || (c.pos.End? && c.off <= Sum(ps))
  }

  lemma PrefixStep(ps: seq<Ptr>, i: nat)
    requires i < |ps|
    ensures Sum(ps[..i + 1]) == Sum(ps[..i]) + ps[i].len
  {
    assert ps[..i + 1][..i] == ps[..i];
  }

  lemma {:induction false} PrefixMonotone(ps: seq<Ptr>, i: nat, j: nat)
    requires i <= j <= |ps|
    ensures Sum(ps[..i]) <= Sum(ps[..j])
    decreases j
  {
    if i < j {
      PrefixMonotone(ps, i, j - 1);
      PrefixStep(ps, j - 1);
    }
  }

  lemma PrefixAll(ps: seq<Ptr>)
    ensures Sum(ps[..|ps|]) == Sum(ps) && Sum(ps[..0]) == 0
  {
    assert ps[..|ps|] == ps;
  }

  lemma PlacedBound(ps: seq<Ptr>, c: Cursor)
    requires Placed(ps, c)
    ensures c.off <= Sum(ps)
  {
    hide Sum;
    if c.pos.At? {
      PrefixStep(ps, c.pos.i);
      PrefixMonotone(ps, c.pos.i + 1, |ps|);
      PrefixAll(ps);
    }
  }

  lemma PlacedEnd(ps: seq<Ptr>, c: Cursor)
    requires Placed(ps, c) && c.off < Sum(ps)
    ensures c.pos.At?
  {
  }

  lemma PlacedOrder(ps: seq<Ptr>, i: nat, j: nat, x: nat, y: nat)
    requires i < j <= |ps| && x < ps[i].len
    ensures Sum(ps[..i]) + x < Sum(ps[..j]) + y
  {
    hide Sum;
    PrefixStep(ps, i);
    PrefixMonotone(ps, i + 1, j);
  }

  /** There is one placed cursor for each offset: a remembered one is the one a fresh search finds. */
  lemma PlacedUnique(ps: seq<Ptr>, c: Cursor, d: Cursor)
    requires Placed(ps, c) && Placed(ps, d) && c.off == d.off
    ensures c == d
  {
    hide Sum;
    PrefixAll(ps);
    var i := if c.pos.At? then c.pos.i else |ps|;
    var j := if d.pos.At? then d.pos.i else |ps|;
    if i < j {
      PlacedOrder(ps, i, j, c.pOff, d.pOff);
    } else if j < i {
      PlacedOrder(ps, j, i, d.pOff, c.pOff);
    }
  }

  lemma BeginPlaced(ps: seq<Ptr>)
    requires NoneEmpty(ps)
    ensures Placed(ps, Begin(ps))
  {
    hide Sum;
    PrefixAll(ps);
  }

  // ---------- Moving ----------

  /**
   Where an iterator may stand, whatever its offset says. At the end, `pOff` is what is left of a
   move that went too far.
   */
  predicate Standing(ps: seq<Ptr>, c: Cursor) {
    c.pos.At? ==> c.pos.i < |ps| && c.pOff < ps[c.pos.i].len
  }

  /** The bytes before the segment plus the bytes into it. A placed cursor is one whose offset is this. */
  function Where(ps: seq<Ptr>, c: Cursor): (n: nat)
    requires Standing(ps, c)
  {
    (if c.pos.At? then Sum(ps[..c.pos.i]) else Sum(ps)) + c.pOff
  }

  lemma PlacedIsWhere(ps: seq<Ptr>, c: Cursor)
    ensures Placed(ps, c) <==> Standing(ps, c) && c.off == Where(ps, c) && (c.pos.End? ==> c.pOff == 0)
  {
  }

  /** How far the offset lags behind: bytes put in front, bytes added at the end, or an overshoot. */
  function Lag(ps: seq<Ptr>, c: Cursor): (n: int)
    requires Standing(ps, c)
  {
    Where(ps, c) - c.off
  }

  /** Some segment starts, or the list ends, `n` bytes in. */
  ghost predicate Boundary(ps: seq<Ptr>, n: int) {
    exists k :: 0 <= k <= |ps| && Sum(ps[..k]) == n
  }

  lemma NotBoundary(ps: seq<Ptr>, k: nat, n: int)
    requires k <= |ps| && Sum(ps[..k]) < n && (k < |ps| ==> n < Sum(ps[..k]) + ps[k].len)
    ensures !Boundary(ps, n)
  {
    hide Sum;
    forall j | 0 <= j <= |ps| ensures Sum(ps[..j]) != n {
      if j <= k {
        PrefixMonotone(ps, j, k);
      } else {
        PrefixStep(ps, k);
        PrefixMonotone(ps, k + 1, j);
      }
    }
  }

  /** The offset is an unsigned word. */
  function Wrapped(off: int): (r: nat) {
    if off < 0 then off % 0x1_0000_0000 else off
  }

  datatype Move = Moved | Thrown | Aborted

  /**
   `iterator::advance` from any standing. Forwards it is thrown exactly when the target lies beyond
   the list, even when bytes have been added behind an iterator at the end. Backwards it is thrown
   when it meets offset zero at the start of a segment before the target; if its offset is never
   zero there it can go on to the first byte, and beyond that the source's assertion fails.
   */
  method Advance(ps: seq<Ptr>, c: Cursor, o: int) returns (r: Move, c': Cursor)
    requires NoneEmpty(ps) && Standing(ps, c)
    ensures o == 0 ==> r.Moved? && c' == c
    ensures o > 0 ==> (r.Moved? <==> Where(ps, c) + o <= Sum(ps)) && !r.Aborted?
    ensures o > 0 && r.Thrown? ==> c' == Cursor(c.off, End, Where(ps, c) + o - Sum(ps))
    ensures o < 0 ==>
              r == if Boundary(ps, Lag(ps, c)) && c.off + o < 0 then Thrown
                   else if Where(ps, c) + o < 0 then Aborted else Moved
    ensures o < 0 && r.Thrown? ==> Standing(ps, c') && c'.off == 0 && Where(ps, c') == Lag(ps, c) && c'.pOff == 0
    ensures r.Moved? ==> Standing(ps, c') && Where(ps, c') == Where(ps, c) + o && c'.off == Wrapped(c.off + o)
    ensures Placed(ps, c) ==> !r.Aborted? && (r.Moved? <==> 0 <= c.off + o <= Sum(ps))
    ensures Placed(ps, c) && r.Moved? ==> Placed(ps, c') && c'.off == c.off + o
    ensures Placed(ps, c) && o < 0 && r.Thrown? ==> c' == Begin(ps)
  {
    hide Sum;
    PrefixAll(ps);
    PlacedIsWhere(ps, c);
    if Placed(ps, c) {
      PlacedBound(ps, c);
    }
    if o > 0 {
      r, c' := Forward(ps, c, o);
    } else {
      r, c' := Backward(ps, c, o);
    }
    if r.Moved? {
      PlacedIsWhere(ps, c');
      if c'.pos.At? {
        PlacedOrder(ps, c'.pos.i, |ps|, c'.pOff, 0);
      }
    } else if Placed(ps, c) && o < 0 {
      assert Sum(ps[..0]) == 0;
      BeginPlaced(ps);
      PlacedUnique(ps, c', Begin(ps));
    }
  }

  method Forward(ps: seq<Ptr>, c: Cursor, o: nat) returns (r: Move, c': Cursor)
    requires NoneEmpty(ps) && Standing(ps, c) && o > 0
    ensures r == if Where(ps, c) + o <= Sum(ps) then Moved else Thrown
    ensures r.Moved? ==>
              && Standing(ps, c') && (c'.pos.End? ==> c'.pOff == 0)
              && Where(ps, c') == Where(ps, c) + o && c'.off == c.off + o
    ensures r.Thrown? ==> c' == Cursor(c.off, End, Where(ps, c) + o - Sum(ps))
  {
    hide Sum;
    PrefixAll(ps);
    ghost var target := Where(ps, c) + o;
    var k: nat := if c.pos.At? then c.pos.i else |ps|;
    var pOff: nat := c.pOff + o;
    while pOff > 0
      invariant k <= |ps| && Sum(ps[..k]) + pOff == target
      decreases |ps| - k
    {
      if k == |ps| {
        return Thrown, Cursor(c.off, End, pOff);
      }
      PrefixStep(ps, k);
      if pOff >= ps[k].len {
        pOff := pOff - ps[k].len;
        k := k + 1;
      } else {
        break;
      }
    }
    r, c' := Moved, Cursor(c.off + o, PosOf(ps, k), pOff);
    if k < |ps| {
      PlacedOrder(ps, k, |ps|, pOff, 0);
    }
  }

  method Backward(ps: seq<Ptr>, c: Cursor, o: int) returns (r: Move, c': Cursor)
    requires NoneEmpty(ps) && Standing(ps, c) && o <= 0
    ensures o == 0 ==> r.Moved? && c' == c
    ensures o < 0 ==>
              r == if Boundary(ps, Lag(ps, c)) && c.off + o < 0 then Thrown
                   else if Where(ps, c) + o < 0 then Aborted else Moved
    ensures r.Moved? ==> Standing(ps, c') && Where(ps, c') == Where(ps, c) + o && c'.off == Wrapped(c.off + o)
    ensures r.Thrown? ==> Standing(ps, c') && c'.off == 0 && Where(ps, c') == Lag(ps, c) && c'.pOff == 0
  {
    hide Sum;
    PrefixAll(ps);
    ghost var lag := Lag(ps, c);
    var k: nat := if c.pos.At? then c.pos.i else |ps|;
    var off: int, pOff: nat, left := c.off, c.pOff, o;
    while left < 0
      invariant k <= |ps| && off == Sum(ps[..k]) + pOff - lag
      invariant off + left == c.off + o && left <= 0
      invariant k < |ps| ==> pOff < ps[k].len || (left < 0 && pOff == ps[k].len && off != 0)
      invariant off < 0 ==> !Boundary(ps, lag)
      invariant o == 0 ==> PosOf(ps, k) == c.pos && pOff == c.pOff
      decreases -left, if pOff == 0 then 1 else 0
    {
      if pOff > 0 {
        var d := -left;
        if d > pOff {
          d := pOff;
        }
        if off >= 0 && off - d < 0 {
          NotBoundary(ps, k, lag);
        }
        pOff, off, left := pOff - d, off - d, left + d;
      } else if off != 0 {
        if k == 0 {
          assert off > 0 ==> lag < 0;
          return Aborted, Cursor(Wrapped(off), PosOf(ps, k), pOff);
        }
        k := k - 1;
        PrefixStep(ps, k);
        pOff := ps[k].len;
      } else {
        assert Boundary(ps, lag);
        return Thrown, Cursor(off, PosOf(ps, k), pOff);
      }
    }
    r, c' := Moved, Cursor(Wrapped(off), PosOf(ps, k), pOff);
  }

  /** `iterator::seek`. */
  method Seek(ps: seq<Ptr>, o: nat) returns (ok: bool, c: Cursor)
    requires NoneEmpty(ps)
    ensures ok <==> o <= Sum(ps)
    ensures ok ==> Placed(ps, c) && c.off == o
    ensures !ok ==> c == Cursor(0, End, o - Sum(ps))
  {
    BeginPlaced(ps);
    PlacedIsWhere(ps, Begin(ps));
    var r;
    r, c := Advance(ps, Begin(ps), o);
    ok := r.Moved?;
  }

  /** A move forward within the list. */
  method Onward(ps: seq<Ptr>, c: Cursor, h: nat) returns (c': Cursor)
    requires NoneEmpty(ps) && Placed(ps, c) && c.off + h <= Sum(ps)
    ensures Placed(ps, c') && c'.off == c.off + h
  {
    hide Sum;
    PlacedIsWhere(ps, c);
    var r;
    r, c' := Advance(ps, c, h);
  }

  // ---------- Copying out ----------

  /** Where the bytes of a segment stand in the value of the list. */
  lemma SegmentBytes(ps: seq<Ptr>, i: nat, a: nat, n: nat)
    requires AllFit(ps) && i < |ps| && a + n <= ps[i].len
    ensures Sum(ps[..i]) + a + n <= |Flat(ps)|
    ensures Flat(ps)[Sum(ps[..i]) + a..Sum(ps[..i]) + a + n] == View(ps[i])[a..a + n]
  {
    hide Sum, Flat;
    var before, after := ps[..i], ps[i + 1..];
    FlatLength(before);
    FlatSnoc(before, ps[i]);
    FlatConcat(before + [ps[i]], after);
    assert ps == before + [ps[i]] + after;
    Infix(Flat(before), View(ps[i]), Flat(after), a, n);
  }

  lemma Infix(x: seq<byte>, y: seq<byte>, z: seq<byte>, a: nat, n: nat)
    requires a + n <= |y|
    ensures (x + y + z)[|x| + a..|x| + a + n] == y[a..a + n]
  {
  }

  lemma SliceJoin(s: seq<byte>, a: nat, b: nat, c: nat)
    requires a <= b <= c <= |s|
    ensures s[a..b] + s[b..c] == s[a..c]
  {
  }

  /** `ptr::copy_out`. */
  method PtrCopyOut(p: Ptr, o: nat, l: nat) returns (dest: seq<byte>)
    requires p.Fits() && o + l <= p.len
    ensures dest == View(p)[o..o + l]
  {
    ViewSub(p, o, l);
    dest := p.raw.data[p.off + o..p.off + o + l];
  }

  /** One turn of a copying loop: what is left of the current segment, or less. */
  method CopySome(ps: seq<Ptr>, c: Cursor, left: nat) returns (bytes: seq<byte>, c': Cursor)
    requires AllFit(ps) && NoneEmpty(ps) && Standing(ps, c) && c.pos.At? && left > 0
    ensures 0 < |bytes| <= left && Where(ps, c) + |bytes| <= |Flat(ps)| == Sum(ps)
    ensures bytes == Flat(ps)[Where(ps, c)..Where(ps, c) + |bytes|]
    ensures Standing(ps, c') && (c'.pos.End? ==> c'.pOff == 0)
    ensures Where(ps, c') == Where(ps, c) + |bytes| && c'.off == c.off + |bytes|
  {
    hide Sum, Flat;
    FlatLength(ps);
    var p := ps[c.pos.i];
    assert p in ps;
    var howmuch: nat := p.len - c.pOff;
    if left < howmuch {
      howmuch := left;
    }
    SegmentBytes(ps, c.pos.i, c.pOff, howmuch);
    bytes := PtrCopyOut(p, c.pOff, howmuch);
    var r;
    r, c' := Forward(ps, c, howmuch);
  }

  /** A cursor a copying operation may start from: it looks the position up again at the end of the list. */
  predicate Usable(ps: seq<Ptr>, c: Cursor) {
    if c.pos.End? then c.off <= Sum(ps) else Standing(ps, c) && c.off <= Where(ps, c)
  }

  /** Where copying starts. */
  function Start(ps: seq<Ptr>, c: Cursor): (n: nat)
    requires Usable(ps, c)
  {
    if c.pos.End? then c.off else Where(ps, c)
  }

  /** A cursor that copies from its own offset is one that can be trusted. */
  lemma CoherentIff(ps: seq<Ptr>, c: Cursor)
    ensures Coherent(ps, c) <==> Usable(ps, c) && Start(ps, c) == c.off
  {
    hide Sum;
    PlacedIsWhere(ps, c);
  }

  lemma StartBound(ps: seq<Ptr>, c: Cursor)
    requires Usable(ps, c)
    ensures c.off <= Start(ps, c) <= Sum(ps)
  {
    hide Sum;
    if c.pos.At? {
      PlacedOrder(ps, c.pos.i, |ps|, c.pOff, 0);
      PrefixAll(ps);
    }
  }

  /**
   `iterator::copy`: the bytes from where the cursor stands, as many as there are; it fails exactly
   when that is fewer than asked for. The cursor moves behind what was copied, and its offset by
   as much.
   */
  method CopyOut(ps: seq<Ptr>, c: Cursor, len: nat) returns (ok: bool, c': Cursor, dest: seq<byte>)
    requires AllFit(ps) && NoneEmpty(ps) && Usable(ps, c)
    ensures Start(ps, c) <= |Flat(ps)|
    ensures ok <==> Start(ps, c) + len <= |Flat(ps)|
    ensures dest == Flat(ps)[Start(ps, c)..if ok then Start(ps, c) + len else |Flat(ps)|]
    ensures Usable(ps, c') && c'.off == c.off + |dest|
    ensures Coherent(ps, c) ==> Placed(ps, c')
  {
    hide Sum, Flat;
    FlatLength(ps);
    StartBound(ps, c);
    CoherentIff(ps, c);
    ghost var start := Start(ps, c);
    c' := c;
    if c.pos.End? {
      var _, d := Seek(ps, c.off);
      c' := d;
      PlacedIsWhere(ps, c');
    }
    dest := [];
    var left: nat := len;
    while left > 0
      invariant Standing(ps, c') && (c'.pos.End? ==> c'.pOff == 0) && left <= len
      invariant Where(ps, c') == start + len - left <= Sum(ps) && c'.off == c.off + len - left
      invariant dest == Flat(ps)[start..start + len - left]
    {
      if c'.pos.End? {
        PlacedIsWhere(ps, c');
        return false, c', dest;
      }
      ghost var at := Where(ps, c');
      var bytes, d := CopySome(ps, c', left);
      SliceJoin(Flat(ps), start, at, at + |bytes|);
      dest := dest + bytes;
      left := left - |bytes|;
      c' := d;
    }
    PlacedIsWhere(ps, c');
    ok := true;
  }
}

/**
 Raw memory and slices of it. Slices held by different lists may cover the same bytes; the value
 of a sequence of slices is the concatenation of what they show.
 */
module Rope {
  import opened Bytes
  import opened Arith

  datatype Option<T> = None | Some(value: T)

  /** A block of memory. `addr` is where it starts; `shareable` is false for scarce memory. */
  class Raw {
    const data: array<byte>
    const addr: nat
    const shareable: bool

    constructor (len: nat, addr: nat, shareable: bool)
      ensures fresh(data) && data.Length == len && this.addr == addr && this.shareable == shareable
    {
      data := new byte[len];
      this.addr := addr;
      this.shareable := shareable;
    }
  }

  /** `create_aligned`: fresh memory wherever the allocator puts it, but at a multiple of `align`. */
  method CreateAligned(len: nat, align: nat) returns (r: Raw)
    requires align > 0
    ensures fresh(r) && fresh(r.data) && r.data.Length == len && r.shareable
    ensures r.addr % align == 0
  {
    var slot: nat := *;
    ModOfProduct(slot, align);
    NatProduct(slot, align);
    r := new Raw(len, slot * align, true);
  }

  /** `buffer::ptr`, when it points somewhere. */
  datatype Ptr = Ptr(raw: Raw, off: nat, len: nat) {
    function End(): nat { off + len }
    predicate Fits() { off + len <= raw.data.Length }
    function Sub(o: nat, l: nat): Ptr { Ptr(raw, off + o, l) }
  }

  // ---------- Lengths ----------

  function Sum(ps: seq<Ptr>): (n: nat) {
    if ps == [] then 0 else Sum(ps[..|ps| - 1]) + ps[|ps| - 1].len
  }

  lemma {:induction false} SumConcat(a: seq<Ptr>, b: seq<Ptr>)
    ensures Sum(a + b) == Sum(a) + Sum(b)
    decreases |b|
  {
    if b == [] {
      assert a + b == a;
    } else {
      assert (a + b)[..|a + b| - 1] == a + b[..|b| - 1];
      SumConcat(a, b[..|b| - 1]);
    }
  }

  predicate AllFit(ps: seq<Ptr>) {
    forall p <- ps :: p.Fits()
  }

  predicate NoneEmpty(ps: seq<Ptr>) {
    forall p <- ps :: p.len > 0
  }

  // ---------- Bytes ----------

  ghost function View(p: Ptr): (s: seq<byte>)
    requires p.Fits()
    reads p.raw.data
    ensures |s| == p.len
  {
    p.raw.data[p.off..p.off + p.len]
  }

  /** The byte string a sequence of slices stands for. */
  ghost function Flat(ps: seq<Ptr>): (s: seq<byte>)
    requires AllFit(ps)
    reads set p <- ps :: p.raw.data
  {
    if ps == [] then [] else Flat(ps[..|ps| - 1]) + View(ps[|ps| - 1])
  }

  lemma {:induction false} FlatConcat(a: seq<Ptr>, b: seq<Ptr>)
    requires AllFit(a) && AllFit(b)
    ensures Flat(a + b) == Flat(a) + Flat(b)
    decreases |b|
  {
    if b == [] {
      assert a + b == a;
    } else {
      assert (a + b)[..|a + b| - 1] == a + b[..|b| - 1];
      FlatConcat(a, b[..|b| - 1]);
    }
  }

  lemma FlatOne(p: Ptr)
    requires p.Fits()
    ensures Flat([p]) == View(p) && Sum([p]) == p.len
  {
    assert [p][..0] == [];
  }

  lemma FlatNone()
    ensures Flat([]) == [] && Sum([]) == 0
  {
  }

  lemma FlatSnoc(ps: seq<Ptr>, p: Ptr)
    requires AllFit(ps) && p.Fits()
    ensures AllFit(ps + [p]) && Flat(ps + [p]) == Flat(ps) + View(p) && Sum(ps + [p]) == Sum(ps) + p.len
  {
    assert (ps + [p])[..|ps|] == ps;
  }

  lemma {:induction false} FlatLength(ps: seq<Ptr>)
    requires AllFit(ps)
    ensures |Flat(ps)| == Sum(ps)
    decreases |ps|
  {
    if ps != [] {
      FlatLength(ps[..|ps| - 1]);
    }
  }

  /** A value changes only if some slice shows different bytes. */
  twostate lemma {:induction false} FlatFrame(ps: seq<Ptr>)
    requires AllFit(ps)
    requires forall p <- ps :: View(p) == old(View(p))
    ensures Flat(ps) == old(Flat(ps))
    decreases |ps|
  {
    if ps != [] {
      FlatFrame(ps[..|ps| - 1]);
    }
  }

  lemma ViewSub(p: Ptr, o: nat, l: nat)
    requires p.Fits() && o + l <= p.len
    ensures p.Sub(o, l).Fits() && View(p.Sub(o, l)) == View(p)[o..o + l]
  {
    SliceOfSlice(p.raw.data[..], p.off, p.off + p.len, o, o + l);
  }

  /** `memcpy` into a block. */
  method WriteAt(data: array<byte>, at: nat, bytes: seq<byte>)
    requires at + |bytes| <= data.Length
    modifies data
    ensures data[..] == old(data[..at]) + bytes + old(data[at + |bytes|..])
    ensures forall k :: 0 <= k < data.Length ==>
              data[k] == if at <= k < at + |bytes| then bytes[k - at] else old(data[k])
  {
    for i := 0 to |bytes|
      invariant forall k :: 0 <= k < data.Length ==>
                  data[k] == if at <= k < at + i then bytes[k - at] else old(data[k])
    {
      data[at + i] := bytes[i];
    }
  }

  // ---------- Appending a slice ----------

  /** A slice that continues the last one extends it; an empty slice is dropped. */
  function Merged(ps: seq<Ptr>, q: Ptr): (r: seq<Ptr>) {
    var n := |ps|;
    if n > 0 && ps[n - 1].raw == q.raw && ps[n - 1].End() == q.off then
      ps[..n - 1] + [ps[n - 1].(len := ps[n - 1].len + q.len)]
    else if q.len == 0 then ps
    else ps + [q]
  }

  lemma JoinViews(a: Ptr, b: Ptr, c: Ptr)
    requires a.raw == b.raw && a.End() == b.off && b.Fits()
    requires c == a.(len := a.len + b.len)
    ensures c.Fits() && View(c) == View(a) + View(b)
  {
  }

  lemma MergedValue(ps: seq<Ptr>, q: Ptr)
    requires AllFit(ps) && NoneEmpty(ps) && q.Fits()
    ensures AllFit(Merged(ps, q)) && NoneEmpty(Merged(ps, q))
    ensures Sum(Merged(ps, q)) == Sum(ps) + q.len
    ensures Flat(Merged(ps, q)) == Flat(ps) + View(q)
    ensures |Merged(ps, q)| == |ps| +
            if q.len == 0 || (ps != [] && ps[|ps| - 1].raw == q.raw && ps[|ps| - 1].End() == q.off) then 0 else 1
  {
    hide Flat, Sum;
    var n := |ps|;
    if n > 0 && ps[n - 1].raw == q.raw && ps[n - 1].End() == q.off {
      var last := ps[n - 1];
      var longer := last.(len := last.len + q.len);
      JoinViews(last, q, longer);
      FlatSnoc(ps[..n - 1], last);
      FlatSnoc(ps[..n - 1], longer);
      assert ps == ps[..n - 1] + [last];
    } else if q.len > 0 {
      FlatSnoc(ps, q);
    } else {
      assert View(q) == [];
    }
  }

  // ---------- Ownership of unused tails ----------

  /** No slice of the block that `a` grows into reaches beyond the end of `a`. */
  predicate Below(a: Option<Ptr>, ps: seq<Ptr>) {
    a.Some? ==> forall p <- ps :: p.raw.data == a.value.raw.data ==> p.End() <= a.value.End()
  }

  predicate Apart(a: Option<Ptr>, b: Option<Ptr>) {
    a.Some? && b.Some? ==> a.value.raw.data != b.value.raw.data
  }

  lemma MergedBelow(a: Option<Ptr>, ps: seq<Ptr>, q: Ptr)
    requires Below(a, ps) && Below(a, [q])
    ensures Below(a, Merged(ps, q))
  {
    assert q in [q];
  }

  // ---------- Replacing a slice ----------

  /** A slice that shows the same bytes may stand in for another. */
  lemma {:induction false} Replaced(ps: seq<Ptr>, i: nat, q: Ptr)
    requires AllFit(ps) && i < |ps| && q.Fits() && View(q) == View(ps[i])
    ensures AllFit(ps[i := q]) && Flat(ps[i := q]) == Flat(ps)
    decreases |ps|
  {
    var n := |ps| - 1;
    assert AllFit(ps[i := q]);
    if i < n {
      assert ps[i := q][..n] == ps[..n][i := q];
      Replaced(ps[..n], i, q);
    } else {
      assert ps[i := q][..n] == ps[..n];
    }
  }

  /** Total lengths depend on the slice lengths alone. */
  lemma {:induction false} SameSum(ps: seq<Ptr>, qs: seq<Ptr>)
    requires |ps| == |qs| && forall i :: 0 <= i < |ps| ==> ps[i].len == qs[i].len
    ensures Sum(ps) == Sum(qs)
  {
    if ps != [] {
      SameSum(ps[..|ps| - 1], qs[..|qs| - 1]);
    }
  }

  /** `raw::clone`: a copy of the whole block, in memory that may be shared. */
  method Clone(r: Raw) returns (c: Raw)
    ensures fresh(c) && fresh(c.data) && c.shareable && c.data[..] == r.data[..]
  {
    c := CreateAligned(r.data.Length, 1);
    for i := 0 to r.data.Length
      invariant forall k :: 0 <= k < i ==> c.data[k] == r.data[k]
    {
      c.data[i] := r.data[i];
    }
  }

  // ---------- Losing bytes at a segment ----------

  lemma HeadTail(ps: seq<Ptr>)
    requires AllFit(ps) && ps != []
    ensures Flat(ps) == View(ps[0]) + Flat(ps[1..]) && Sum(ps) == ps[0].len + Sum(ps[1..])
  {
    hide Flat, Sum;
    assert ps == [ps[0]] + ps[1..];
    FlatConcat([ps[0]], ps[1..]);
    SumConcat([ps[0]], ps[1..]);
    FlatOne(ps[0]);
  }

  lemma SumSplit(ps: seq<Ptr>, f: nat)
    requires f <= |ps|
    ensures Sum(ps) == Sum(ps[..f]) + Sum(ps[f..])
  {
    assert ps == ps[..f] + ps[f..];
    SumConcat(ps[..f], ps[f..]);
  }

  lemma Erased(ps: seq<Ptr>, f: nat)
    requires AllFit(ps) && f < |ps|
    ensures var r := ps[..f] + ps[f + 1..];
            && r[..f] == ps[..f] && Sum(r) == Sum(ps) - ps[f].len
            && AllFit(r) && Flat(ps[f..]) == View(ps[f]) + Flat(r[f..])
  {
    hide Flat, Sum;
    var r := ps[..f] + ps[f + 1..];
    assert r[f..] == ps[f + 1..] == ps[f..][1..];
    HeadTail(ps[f..]);
    SumSplit(ps, f);
    SumConcat(ps[..f], ps[f + 1..]);
  }

  lemma Trimmed(ps: seq<Ptr>, f: nat, a: nat)
    requires AllFit(ps) && f < |ps| && a < ps[f].len
    ensures var r := ps[f := ps[f].Sub(a, ps[f].len - a)];
            && r[..f] == ps[..f] && Sum(r) == Sum(ps) - a && a <= |Flat(ps[f..])|
            && AllFit(r) && Flat(r[f..]) == Flat(ps[f..])[a..]
  {
    hide Flat, Sum;
    var r := ps[f := ps[f].Sub(a, ps[f].len - a)];
    ViewSub(ps[f], a, ps[f].len - a);
    assert AllFit(r) by {
      assert ps[f] in ps;
    }
    assert r[f..][1..] == ps[f..][1..];
    HeadTail(ps[f..]);
    HeadTail(r[f..]);
    SumSplit(ps, f);
    SumSplit(r, f);
  }

  lemma CutAt(ps: seq<Ptr>, k: nat)
    requires AllFit(ps) && k <= |ps|
    ensures var n := Sum(ps[..k]);
            n <= |Flat(ps)| && Flat(ps[..k]) == Flat(ps)[..n] && Flat(ps[k..]) == Flat(ps)[n..]
  {
    hide Flat, Sum;
    assert ps == ps[..k] + ps[k..];
    FlatConcat(ps[..k], ps[k..]);
    FlatLength(ps[..k]);
  }

  /** Putting a slice for the first `o` bytes of a segment before that segment. */
  lemma FrontBit(ps: seq<Ptr>, k: nat, o: nat)
    requires AllFit(ps) && k < |ps| && o <= ps[k].len
    ensures var r, n := ps[..k] + [ps[k].Sub(0, o)] + ps[k..], Sum(ps[..k]);
            && AllFit(r) && r[k + 1..] == ps[k..] && Sum(r) == Sum(ps) + o
            && n + o <= |Flat(ps)| && Flat(r[..k + 1]) == Flat(ps)[..n + o]
  {
    hide Flat, Sum;
    assert ps[k] in ps;
    var q := ps[k].Sub(0, o);
    var r := ps[..k] + [q] + ps[k..];
    assert r[..k + 1] == ps[..k] + [q];
    CutAt(ps, k);
    FlatSnoc(ps[..k], q);
    ViewSub(ps[k], 0, o);
    HeadTail(ps[k..]);
    TakeOn(Flat(ps), Sum(ps[..k]), View(ps[k]), Flat(ps[k..][1..]), o);
    SumSplit(ps, k);
    SumConcat(ps[..k] + [q], ps[k..]);
  }

  lemma TakeOn(s: seq<byte>, n: nat, v: seq<byte>, rest: seq<byte>, o: nat)
    requires n <= |s| && s[n..] == v + rest && o <= |v|
    ensures n + o <= |s| && s[..n] + v[0..o] == s[..n + o]
  {
    assert s[n..][0..o] == v[0..o];
    assert s == s[..n] + s[n..];
  }
}

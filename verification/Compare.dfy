/** `list::contents_equal`: two ropes compared without flattening either. */
module Compare {
  import opened Bytes
  import opened Rope
  import opened Cursors

  method Memcmp(p: Ptr, o: nat, q: Ptr, r: nat, n: nat) returns (same: bool)
    requires p.Fits() && q.Fits() && o + n <= p.len && r + n <= q.len
    ensures same <==> View(p)[o..o + n] == View(q)[r..r + n]
  {
    ViewSub(p, o, n);
    ViewSub(q, r, n);
    same := p.raw.data[p.off + o..p.off + o + n] == q.raw.data[q.off + r..q.off + r + n];
  }

  /** As many bytes as both segments have left. */
  method CompareSome(a: seq<Ptr>, i: nat, aoff: nat, b: seq<Ptr>, j: nat, boff: nat) returns (n: nat, same: bool)
    requires AllFit(a) && AllFit(b) && i < |a| && j < |b| && aoff < a[i].len && boff < b[j].len
    ensures n == if a[i].len - aoff <= b[j].len - boff then a[i].len - aoff else b[j].len - boff
    ensures Sum(a[..i]) + aoff + n <= |Flat(a)| && Sum(b[..j]) + boff + n <= |Flat(b)|
    ensures same <==> Flat(a)[Sum(a[..i]) + aoff..Sum(a[..i]) + aoff + n] ==
                      Flat(b)[Sum(b[..j]) + boff..Sum(b[..j]) + boff + n]
  {
    hide Flat, Sum;
    n := a[i].len - aoff;
    if n > b[j].len - boff {
      n := b[j].len - boff;
    }
    SegmentBytes(a, i, aoff, n);
    SegmentBytes(b, j, boff, n);
    assert a[i] in a && b[j] in b;
    same := Memcmp(a[i], aoff, b[j], boff, n);
  }

  lemma Agreement(s: seq<byte>, t: seq<byte>, at: nat, n: nat)
    requires at + n <= |s| && at + n <= |t| && s[..at] == t[..at] && s[at..at + n] == t[at..at + n]
    ensures s[..at + n] == t[..at + n]
  {
    SliceJoin(s, 0, at, at + n);
    SliceJoin(t, 0, at, at + n);
  }

  /** Equal exactly when the byte strings are, however each list is cut. */
  method ContentsEqual(a: seq<Ptr>, lenA: nat, b: seq<Ptr>, lenB: nat) returns (equal: bool)
    requires AllFit(a) && NoneEmpty(a) && lenA == Sum(a)
    requires AllFit(b) && NoneEmpty(b) && lenB == Sum(b)
    ensures equal <==> Flat(a) == Flat(b)
  {
    hide Flat, Sum, AllFit;
    FlatLength(a);
    FlatLength(b);
    if lenA != lenB {
      return false;
    }
    PrefixAll(a);
    PrefixAll(b);
    var i: nat, j: nat, aoff: nat, boff: nat := 0, 0, 0, 0;
    while i < |a|
      invariant i <= |a| && j <= |b| && Sum(a[..i]) + aoff == Sum(b[..j]) + boff
      invariant if i < |a| then aoff < a[i].len else aoff == 0
      invariant if j < |b| then boff < b[j].len else boff == 0
      invariant Sum(a[..i]) + aoff <= lenA
      invariant Flat(a)[..Sum(a[..i]) + aoff] == Flat(b)[..Sum(a[..i]) + aoff]
      decreases lenA - (Sum(a[..i]) + aoff)
    {
      ghost var at := Sum(a[..i]) + aoff;
      PrefixStep(a, i);
      PrefixMonotone(a, i + 1, |a|);
      assert j < |b|;
      PrefixStep(b, j);
      var n, same := CompareSome(a, i, aoff, b, j, boff);
      if !same {
        return false;
      }
      Agreement(Flat(a), Flat(b), at, n);
      aoff := aoff + n;
      if aoff == a[i].len {
        aoff := 0;
        i := i + 1;
      }
      boff := boff + n;
      if boff == b[j].len {
        boff := 0;
        j := j + 1;
      }
    }
    assert Flat(a)[..lenA] == Flat(a) && Flat(b)[..lenA] == Flat(b);
    return true;
  }
}

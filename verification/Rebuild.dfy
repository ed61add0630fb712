/**
 Rearranging a list in memory: making it contiguous, and making its segments aligned. The value of
 the list never changes.
 */
module Rebuild {
  import opened Bytes
  import opened Arith
  import opened Rope
  import opened Cursors
  import opened BufferLists

  // ---------- Alignment ----------

  function BitAnd(a: nat, b: nat): (r: nat)
    decreases a
  {
    if a == 0 then 0 else (if a % 2 == 1 && b % 2 == 1 then 1 else 0) + 2 * BitAnd(a / 2, b / 2)
  }

  predicate PowerOfTwo(n: nat) {
    n == 1 || (n > 0 && n % 2 == 0 && PowerOfTwo(n / 2))
  }

  /** Masking with one less than a power of two is the remainder. */
  lemma {:induction false} MaskIsRemainder(a: nat, n: nat)
    requires PowerOfTwo(n)
    ensures BitAnd(a, n - 1) == a % n
    decreases n
  {
    hide BitAnd;
    if n == 1 {
      MaskZero(a);
    } else {
      var h := n / 2;
      MaskStep(a, n, h);
      MaskIsRemainder(a / 2, h);
      HalfRemainder(a, n, h);
    }
  }

  lemma MaskStep(a: nat, n: nat, h: nat)
    requires h > 0 && n == h + h
    ensures BitAnd(a, n - 1) == a % 2 + 2 * BitAnd(a / 2, h - 1)
  {
    assert (n - 1) / 2 == h - 1 && (n - 1) % 2 == 1;
  }

  lemma {:induction false} MaskZero(a: nat)
    ensures BitAnd(a, 0) == 0 == a % 1
  {
    if a > 0 {
      MaskZero(a / 2);
    }
  }

  lemma HalfRemainder(a: nat, n: nat, h: nat)
    requires h > 0 && n == h + h
    ensures a % n == 2 * (a / 2 % h) + a % 2
  {
    var q, r := a / 2 / h, a / 2 % h;
    assert n * q == 2 * (h * q);
    ModUnique(a, n, q, 2 * r + a % 2);
  }

  function Address(p: Ptr): nat {
    p.raw.addr + p.off
  }

  /** `ptr::is_aligned`. */
  predicate IsAligned(p: Ptr, align: nat)
    requires align > 0
  {
    BitAnd(Address(p), align - 1) == 0
  }

  predicate IsSized(p: Ptr, size: nat)
    requires size > 0
  {
    p.len % size == 0
  }

  // ---------- Copying into one block ----------

  /** What `list::rebuild(ptr&)` does to the new block. */
  method CopyAll(ps: seq<Ptr>, raw: Raw)
    requires AllFit(ps) && raw.data.Length == Sum(ps) && forall p <- ps :: p.raw.data != raw.data
    modifies raw.data
    ensures raw.data[..] == Flat(ps)
  {
    hide Flat, Sum;
    var pos: nat := 0;
    PrefixAll(ps);
    FlatNone();
    for i := 0 to |ps|
      invariant pos == Sum(ps[..i]) <= raw.data.Length
      invariant AllFit(ps[..i]) && raw.data[..pos] == Flat(ps[..i])
    {
      PrefixStep(ps, i);
      PrefixMonotone(ps, i + 1, |ps|);
      var p := ps[i];
      assert p in ps;
      WriteAt(raw.data, pos, p.raw.data[p.off..p.off + p.len]);
      FlatSnoc(ps[..i], p);
      assert ps[..i + 1] == ps[..i] + [ps[i]];
      pos := pos + ps[i].len;
    }
    assert ps[..|ps|] == ps;
    assert raw.data[..] == raw.data[..pos];
  }

  /** A new block with the bytes of `ps`, as one slice. */
  method Consolidate(ps: seq<Ptr>, align: nat) returns (q: Ptr)
    requires AllFit(ps) && align > 0
    ensures fresh(q.raw) && fresh(q.raw.data) && q.Fits() && q.len == Sum(ps)
    ensures View(q) == Flat(ps) && Address(q) % align == 0
  {
    hide Flat, Sum;
    var raw := CreateAligned(Sum(ps), align);
    ghost var was := Flat(ps);
    CopyAll(ps, raw);
    q := Ptr(raw, 0, raw.data.Length);
    assert View(q) == raw.data[..];
  }

  // ---------- list::rebuild and what relies on it ----------

  /** A whole list in one new block. */
  method RebuildAll(list: BufferList, ghost w: set<BufferList>)
    requires list in w && World(w)
    modifies list`buffers
    ensures World(w) && list.Content() == old(list.Content())
    ensures |list.buffers| == if list.len == 0 then 0 else 1
    ensures list.len > 0 && list.len % PAGE == 0 ==> Address(list.buffers[0]) % PAGE == 0
    ensures old(list.CursorOk()) && list.lastP.pos.End? ==> list.CursorOk()
  {
    hide Flat, Sum, Respects, Below, Apart;
    FlatLength(list.buffers);
    if list.len == 0 {
      list.buffers := [];
      RespectsNone(w);
      FlatNone();
      return;
    }
    var q := Consolidate(list.buffers, if list.len % PAGE == 0 then PAGE else 1);
    FreshRespects(w, q);
    FlatOne(q);
    list.buffers := [q];
  }

  /**
   `get_contiguous`: one slice that shows the bytes asked for; the list keeps its value, and is rebuilt
   only if it must be.
   */
  method GetContiguous(list: BufferList, off: nat, n: nat, ghost w: set<BufferList>) returns (ok: bool, q: Option<Ptr>)
    requires list in w && World(w)
    modifies list`buffers
    ensures World(w) && list.Content() == old(list.Content())
    ensures ok <==> off + n <= |list.Content()|
    ensures !ok || n == 0 ==> q == None && list.buffers == old(list.buffers)
    ensures forall k :: 0 <= k < |old(list.buffers)| && Sum(old(list.buffers)[..k]) <= off
                        && off + n <= Sum(old(list.buffers)[..k]) + old(list.buffers)[k].len ==>
              list.buffers == old(list.buffers)
    ensures ok && n > 0 ==>
              && q.Some? && q.value.Fits() && View(q.value) == list.Content()[off..off + n]
              && exists p <- list.buffers :: p.raw == q.value.raw
  {
    hide Flat, Sum, World;
    OkIn(w, list);
    FlatLength(list.buffers);
    if off + n > list.len {
      return false, None;
    }
    if n == 0 {
      return true, None;
    }
    PrefixAll(list.buffers);
    var k, o := BufferList.Skip(list.buffers, off);
    if o + n > list.buffers[k].len {
      ghost var was := list.buffers;
      forall j | 0 <= j < |was| ensures !(Sum(was[..j]) <= off && off + n <= Sum(was[..j]) + was[j].len) {
        OneSegment(was, off, n, k, o, j);
      }
      RebuildAll(list, w);
      OkIn(w, list);
      SingleSegment(list.buffers);
      k, o := 0, off;
    }
    q := Some(list.buffers[k].Sub(o, n));
    PartShown(list.buffers, k, o, n);
    return true, q;
  }

  /** A range that leaves the segment it starts in lies in no segment. */
  lemma OneSegment(ps: seq<Ptr>, off: nat, n: nat, k: nat, o: nat, j: nat)
    requires k < |ps| && j < |ps| && n > 0 && Sum(ps[..k]) + o == off && o < ps[k].len && o + n > ps[k].len
    ensures !(Sum(ps[..j]) <= off && off + n <= Sum(ps[..j]) + ps[j].len)
  {
    hide Sum;
    if k < j {
      PlacedOrder(ps, k, j, o, 0);
    } else if j < k && Sum(ps[..j]) <= off && off + n <= Sum(ps[..j]) + ps[j].len {
      PlacedOrder(ps, j, k, off - Sum(ps[..j]), o);
      assert false;
    }
  }

  lemma SingleSegment(ps: seq<Ptr>)
    requires |ps| == 1
    ensures Sum(ps) == ps[0].len && Sum(ps[..0]) == 0
  {
    assert ps[..0] == [];
  }

  lemma PartShown(ps: seq<Ptr>, k: nat, o: nat, n: nat)
    requires AllFit(ps) && k < |ps| && o + n <= ps[k].len
    ensures var q, at := ps[k].Sub(o, n), Sum(ps[..k]) + o;
            q.Fits() && at + n <= |Flat(ps)| && View(q) == Flat(ps)[at..at + n] && exists p <- ps :: p.raw == q.raw
  {
    hide Flat, Sum;
    assert ps[k] in ps;
    SegmentBytes(ps, k, o, n);
    ViewSub(ps[k], o, n);
  }

  // ---------- list::rebuild_aligned_size_and_memory ----------

  /** Segments that start at a multiple of `mem`; all but the last of the list have a multiple of `size` bytes. */
  predicate Arranged(ps: seq<Ptr>, n: nat, size: nat, mem: nat)
    requires n <= |ps| && size > 0 && mem > 0
  {
    forall k :: 0 <= k < n ==> Address(ps[k]) % mem == 0 && (ps[k].len % size == 0 || k == |ps| - 1)
  }

  /** A run from `i` may stop before `k`: it has a multiple of `size` bytes and `k` needs no work. */
  predicate Stops(ps: seq<Ptr>, i: nat, k: nat, size: nat, mem: nat)
    requires i <= k < |ps| && size > 0 && mem > 0
  {
    IsAligned(ps[k], mem) && IsSized(ps[k], size) && Sum(ps[i..k]) % size == 0
  }

  /** The do-while loop: the shortest run of segments to be put together, from `i` up to the result. */
  method RunEnd(ps: seq<Ptr>, i: nat, size: nat, mem: nat) returns (j: nat)
    requires i < |ps| && size > 0 && mem > 0
    ensures i < j <= |ps| && (j < |ps| ==> Stops(ps, i, j, size, mem))
    ensures forall k :: i < k < j ==> !Stops(ps, i, k, size, mem)
  {
    hide Sum, BitAnd;
    var offset := ps[i].len;
    j := i + 1;
    FlatNone();
    assert ps[i..i] == [];
    RunStep(ps, i, i);
    while j < |ps| && (!IsAligned(ps[j], mem) || !IsSized(ps[j], size) || offset % size != 0)
      invariant i < j <= |ps| && offset == Sum(ps[i..j])
      invariant forall k :: i < k < j ==> !Stops(ps, i, k, size, mem)
    {
      RunStep(ps, i, j);
      offset := offset + ps[j].len;
      j := j + 1;
    }
  }

  lemma RunStep(ps: seq<Ptr>, i: nat, j: nat)
    requires i <= j < |ps|
    ensures Sum(ps[i..j + 1]) == Sum(ps[i..j]) + ps[j].len
  {
    assert ps[i..j + 1][..j - i] == ps[i..j];
  }

  lemma RunReplaced(ps: seq<Ptr>, i: nat, j: nat, q: Ptr)
    requires AllFit(ps) && i < j <= |ps| && q.Fits() && q.len == Sum(ps[i..j]) && View(q) == Flat(ps[i..j])
    ensures var r := ps[..i] + [q] + ps[j..];
            AllFit(r) && Flat(r) == Flat(ps) && Sum(r) == Sum(ps)
  {
    hide Flat, Sum;
    assert ps == ps[..i] + ps[i..j] + ps[j..];
    FlatConcat(ps[..i], ps[i..j]);
    SumConcat(ps[..i], ps[i..j]);
    FlatConcat(ps[..i] + ps[i..j], ps[j..]);
    SumConcat(ps[..i] + ps[i..j], ps[j..]);
    FlatSnoc(ps[..i], q);
    FlatConcat(ps[..i] + [q], ps[j..]);
    SumConcat(ps[..i] + [q], ps[j..]);
  }

  /** Erasing a run of segments and inserting one with the same bytes. */
  method ReplaceRun(list: BufferList, i: nat, j: nat, q: Ptr, ghost w: set<BufferList>)
    requires list in w && World(w) && i < j <= |list.buffers|
    requires AllFit(list.buffers) && q.Fits() && q.len == Sum(list.buffers[i..j]) && View(q) == Flat(list.buffers[i..j])
    requires Respects(w, [q])
    modifies list`buffers
    ensures World(w) && list.Content() == old(list.Content())
    ensures list.buffers == old(list.buffers[..i] + [q] + list.buffers[j..])
  {
    hide Flat, Sum, Respects, Below, Apart;
    RunReplaced(list.buffers, i, j, q);
    RespectsSlices(w, list.buffers, i);
    if j < |list.buffers| {
      RespectsSlices(w, list.buffers, j);
    } else {
      RespectsNone(w);
    }
    RunStepUp(list.buffers, i, j);
    RespectsConcat(w, list.buffers[..i], [q]);
    RespectsConcat(w, list.buffers[..i] + [q], list.buffers[j..]);
    list.buffers := list.buffers[..i] + [q] + list.buffers[j..];
  }

  method ConsolidateRun(list: BufferList, i: nat, j: nat, mem: nat, ghost w: set<BufferList>) returns (q: Ptr)
    requires list in w && World(w) && i < j <= |list.buffers| && mem > 0
    ensures World(w) && list.Content() == old(list.Content()) && Respects(w, [q])
    ensures AllFit(list.buffers) && q.Fits() && q.len == Sum(list.buffers[i..j])
    ensures View(q) == Flat(list.buffers[i..j]) && Address(q) % mem == 0
  {
    hide Flat, Sum, Below, Apart;
    q := Consolidate(list.buffers[i..j], mem);
    FreshRespects(w, q);
  }

  lemma RunStepUp(ps: seq<Ptr>, i: nat, j: nat)
    requires NoneEmpty(ps) && i < j <= |ps|
    ensures Sum(ps[i..j]) > 0
  {
    RunStep(ps, i, j - 1);
    assert ps[j - 1] in ps;
  }

  /** The run that starts at segment `i` becomes one segment; a run that is one aligned segment stays as it is. */
  method Fix(list: BufferList, i: nat, size: nat, mem: nat, ghost w: set<BufferList>)
    requires list in w && World(w) && i < |list.buffers| && size > 0 && PowerOfTwo(mem)
    requires Arranged(list.buffers, i, size, mem)
    modifies list`buffers
    ensures World(w) && list.Content() == old(list.Content())
    ensures i < |list.buffers| && |list.buffers| <= |old(list.buffers)| && list.buffers[..i] == old(list.buffers[..i])
    ensures IsAligned(old(list.buffers)[i], mem)
            && (i + 1 == |old(list.buffers)| || Stops(old(list.buffers), i, i + 1, size, mem)) ==>
              list.buffers == old(list.buffers)
    ensures Arranged(list.buffers, i + 1, size, mem)
  {
    hide Flat, Sum, World, BitAnd, Respects, NoneEmpty;
    var p := list.buffers[i];
    MaskIsRemainder(Address(p), mem);
    OkIn(w, list);
    var j := RunEnd(list.buffers, i, size, mem);
    var q := p;
    if j == i + 1 && IsAligned(p, mem) {
      KeptSegment(list, i, w);
    } else {
      q := ConsolidateRun(list, i, j, mem, w);
    }
    ReplaceRun(list, i, j, q, w);
  }

  lemma KeptSegment(list: BufferList, i: nat, w: set<BufferList>)
    requires list in w && World(w) && i < |list.buffers|
    ensures Respects(w, [list.buffers[i]])
    ensures AllFit(list.buffers) && list.buffers[i].Fits()
    ensures list.buffers[i].len == Sum(list.buffers[i..i + 1]) && View(list.buffers[i]) == Flat(list.buffers[i..i + 1])
  {
    hide Flat, Sum;
    var p := list.buffers[i];
    assert p in list.buffers;
    assert list.buffers[i..i + 1] == [p];
    FlatOne(p);
    RespectsSub(w, list.buffers, p, 0, p.len);
  }

  /** How many segments at the front need no work. */
  function GoodPrefix(ps: seq<Ptr>, size: nat, mem: nat): (n: nat)
    requires size > 0 && mem > 0
    ensures n <= |ps|
    ensures forall k :: 0 <= k < n ==> Address(ps[k]) % mem == 0 && ps[k].len % size == 0
    ensures n < |ps| ==> Address(ps[n]) % mem != 0 || ps[n].len % size != 0
  {
    if ps != [] && Address(ps[0]) % mem == 0 && ps[0].len % size == 0 then 1 + GoodPrefix(ps[1..], size, mem) else 0
  }

  /**
   Content and length stay, and afterwards the whole list is arranged. Segments at the front that
   need nothing are not touched, which may be all of them.
   */
  method RebuildAligned(list: BufferList, size: nat, mem: nat, ghost w: set<BufferList>)
    requires list in w && World(w) && size > 0 && PowerOfTwo(mem)
    modifies list`buffers
    ensures World(w) && list.Content() == old(list.Content())
    ensures Arranged(list.buffers, |list.buffers|, size, mem)
    ensures var n := GoodPrefix(old(list.buffers), size, mem);
            && n <= |list.buffers| && list.buffers[..n] == old(list.buffers)[..n]
            && (n == |old(list.buffers)| ==> list.buffers == old(list.buffers))
  {
    hide Flat, Sum, World, BitAnd, AllFit, NoneEmpty, GoodPrefix;
    var i := 0;
    ghost var n := GoodPrefix(list.buffers, size, mem);
    while i < |list.buffers|
      invariant i <= |list.buffers| && World(w) && list.Content() == old(list.Content())
      invariant Arranged(list.buffers, i, size, mem)
      invariant n <= |list.buffers| && list.buffers[..n] == old(list.buffers)[..n]
      invariant n == |old(list.buffers)| || i <= n ==> list.buffers == old(list.buffers)
      decreases |list.buffers| - i
    {
      var p := list.buffers[i];
      MaskIsRemainder(Address(p), mem);
      if !(IsAligned(p, mem) && IsSized(p, size)) {
        assert n <= i;
        Fix(list, i, size, mem, w);
        assert list.buffers[..n] == list.buffers[..i][..n];
      }
      i := i + 1;
    }
  }
}

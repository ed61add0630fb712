/**
 The strict-priority stable queue. Its whole meaning is one sequence, in dequeue order:
 strict entries by descending priority and in arrival order within a priority, then the
 normal entries in arrival order.
 */
module FifoQueue {

  /** `rank` is 0 for a normal entry and priority + 1 for a strict one. */
  datatype Entry<T> = Entry(rank: nat, cls: nat, item: T)

  // ---------- The meaning ----------

  /** Stable insertion: behind everything of the same or a higher rank. */
  function Insert<T>(q: seq<Entry<T>>, e: Entry<T>): (r: seq<Entry<T>>)
  {
    if q == [] || q[0].rank < e.rank then [e] + q else [q[0]] + Insert(q[1..], e)
  }

  ghost predicate Sorted<T>(q: seq<Entry<T>>) {
    forall i, j :: 0 <= i < j < |q| ==> q[i].rank >= q[j].rank
  }

  function OfRank<T>(q: seq<Entry<T>>, rank: nat): (r: seq<Entry<T>>)
  {
    if q == [] then [] else (if q[0].rank == rank then [q[0]] else []) + OfRank(q[1..], rank)
  }

  /** The items of class `cls`, or of all other classes, in order. */
  function OfClass<T>(q: seq<Entry<T>>, cls: nat): (r: seq<Entry<T>>)
  {
    if q == [] then [] else (if q[0].cls == cls then [q[0]] else []) + OfClass(q[1..], cls)
  }

  function NotOfClass<T>(q: seq<Entry<T>>, cls: nat): (r: seq<Entry<T>>)
  {
    if q == [] then [] else (if q[0].cls == cls then [] else [q[0]]) + NotOfClass(q[1..], cls)
  }

  function Items<T>(q: seq<Entry<T>>): (r: seq<T>)
    ensures |r| == |q|
    ensures forall i :: 0 <= i < |q| ==> r[i] == q[i].item
  {
    seq(|q|, i requires 0 <= i < |q| => q[i].item)
  }

  /**
   What insertion promises, without saying how: the sequence stays sorted, nothing is lost,
   the new entry is last of its rank, and the order within every rank is untouched.
   */
  lemma InsertIsStable<T>(q: seq<Entry<T>>, e: Entry<T>)
    requires Sorted(q)
    ensures Sorted(Insert(q, e))
    ensures multiset(Insert(q, e)) == multiset(q) + multiset{e}
    ensures forall rank :: OfRank(Insert(q, e), rank) == OfRank(q, rank) + (if e.rank == rank then [e] else [])
  {
    hide Insert, OfRank;
    InsertSorted(q, e);
    InsertMultiset(q, e);
    forall rank ensures OfRank(Insert(q, e), rank) == OfRank(q, rank) + (if e.rank == rank then [e] else []) {
      InsertOfRank(q, e, rank);
    }
  }

  lemma {:induction false} InsertSorted<T>(q: seq<Entry<T>>, e: Entry<T>)
    requires Sorted(q)
    ensures Sorted(Insert(q, e))
    decreases |q|
  {
    if q != [] && q[0].rank >= e.rank {
      InsertSorted(q[1..], e);
      HeadHighest(q);
      var rest := Insert(q[1..], e);
      forall x | x in rest ensures q[0].rank >= x.rank {
        InsertMember(q[1..], e, x);
      }
      ConsSorted(q[0], rest);
    }
  }

  lemma HeadHighest<T>(q: seq<Entry<T>>)
    requires Sorted(q) && q != []
    ensures forall x :: x in q[1..] ==> q[0].rank >= x.rank
  {
    forall x | x in q[1..] ensures q[0].rank >= x.rank {
      var j :| 0 <= j < |q[1..]| && q[1..][j] == x;
      assert q[j + 1] == x;
    }
  }

  lemma ConsSorted<T>(h: Entry<T>, q: seq<Entry<T>>)
    requires Sorted(q) && forall x :: x in q ==> h.rank >= x.rank
    ensures Sorted([h] + q)
  {
    forall j | 0 < j < |q| + 1 ensures h.rank >= ([h] + q)[j].rank {
      assert ([h] + q)[j] in q;
    }
  }

  lemma {:induction false} InsertMultiset<T>(q: seq<Entry<T>>, e: Entry<T>)
    ensures multiset(Insert(q, e)) == multiset(q) + multiset{e}
    decreases |q|
  {
    if q != [] && q[0].rank >= e.rank {
      InsertMultiset(q[1..], e);
      assert q == [q[0]] + q[1..];
    }
  }

  lemma {:induction false} InsertOfRank<T>(q: seq<Entry<T>>, e: Entry<T>, rank: nat)
    requires Sorted(q)
    ensures OfRank(Insert(q, e), rank) == OfRank(q, rank) + (if e.rank == rank then [e] else [])
    decreases |q|
  {
    if q == [] || q[0].rank < e.rank {
      assert ([e] + q)[1..] == q;
      if e.rank == rank {
        OfRankAbsent(q, rank);
      }
    } else {
      var rest := Insert(q[1..], e);
      InsertOfRank(q[1..], e, rank);
      assert ([q[0]] + rest)[1..] == rest;
    }
  }

  lemma {:induction false} InsertMember<T>(q: seq<Entry<T>>, e: Entry<T>, x: Entry<T>)
    ensures x in Insert(q, e) <==> x == e || x in q
    decreases |q|
  {
    if q != [] && q[0].rank >= e.rank {
      InsertMember(q[1..], e, x);
      assert q == [q[0]] + q[1..];
    }
  }

  lemma {:induction false} OfRankAbsent<T>(q: seq<Entry<T>>, rank: nat)
    requires forall x :: x in q ==> x.rank != rank
    ensures OfRank(q, rank) == []
    decreases |q|
  {
    if q != [] {
      OfRankAbsent(q[1..], rank);
    }
  }

  lemma {:induction false} InsertBehind<T>(hi: seq<Entry<T>>, lo: seq<Entry<T>>, e: Entry<T>)
    requires forall x :: x in hi ==> x.rank >= e.rank
    ensures Insert(hi + lo, e) == hi + Insert(lo, e)
    decreases |hi|
  {
    if hi == [] {
      assert hi + lo == lo;
      assert hi + Insert(lo, e) == Insert(lo, e);
    } else {
      assert (hi + lo)[1..] == hi[1..] + lo;
      InsertBehind(hi[1..], lo, e);
      assert hi[0] in hi;
      assert hi + Insert(lo, e) == [hi[0]] + (hi[1..] + Insert(lo, e));
    }
  }

  lemma {:induction false} ClassAppend<T>(a: seq<Entry<T>>, b: seq<Entry<T>>, cls: nat)
    ensures OfClass(a + b, cls) == OfClass(a, cls) + OfClass(b, cls)
    ensures NotOfClass(a + b, cls) == NotOfClass(a, cls) + NotOfClass(b, cls)
    decreases |a|
  {
    if a == [] {
      assert a + b == b;
    } else {
      assert (a + b)[1..] == a[1..] + b;
      ClassAppend(a[1..], b, cls);
    }
  }

  /** Removing a class splits the queue: nothing is lost, and what stays keeps its order. */
  lemma {:induction false} ClassPartition<T>(q: seq<Entry<T>>, cls: nat)
    ensures multiset(q) == multiset(OfClass(q, cls)) + multiset(NotOfClass(q, cls))
    decreases |q|
  {
    if q != [] {
      ClassPartition(q[1..], cls);
      assert q == [q[0]] + q[1..];
    }
  }

  lemma {:induction false} ClassMember<T>(q: seq<Entry<T>>, cls: nat, x: Entry<T>)
    ensures x in NotOfClass(q, cls) <==> x in q && x.cls != cls
    ensures x in OfClass(q, cls) <==> x in q && x.cls == cls
    decreases |q|
  {
    if q != [] {
      ClassMember(q[1..], cls, x);
      assert q == [q[0]] + q[1..];
    }
  }

  lemma {:induction false} ClassSorted<T>(q: seq<Entry<T>>, cls: nat)
    requires Sorted(q)
    ensures Sorted(NotOfClass(q, cls))
    decreases |q|
  {
    if q != [] {
      ClassSorted(q[1..], cls);
      HeadHighest(q);
      var rest := NotOfClass(q[1..], cls);
      forall x | x in rest ensures q[0].rank >= x.rank {
        ClassMember(q[1..], cls, x);
      }
      ConsSorted(q[0], rest);
    }
  }

  // ---------- The data structure ----------

  /** One sub-queue of the priority map; entries are (class, item) pairs. */
  datatype Level<T> = Level(priority: nat, q: seq<(nat, T)>)

  function Tag<T>(rank: nat, q: seq<(nat, T)>): (r: seq<Entry<T>>)
    ensures |r| == |q|
    ensures forall i :: 0 <= i < |q| ==> r[i] == Entry(rank, q[i].0, q[i].1)
  {
    seq(|q|, i requires 0 <= i < |q| => Entry(rank, q[i].0, q[i].1))
  }

  /** The strict part in dequeue order: the last level of the ordered map first. */
  function Strict<T>(high: seq<Level<T>>): (r: seq<Entry<T>>)
  {
    if high == [] then []
    else Tag(high[|high| - 1].priority + 1, high[|high| - 1].q) + Strict(high[..|high| - 1])
  }

  /** An ordered map with no empty sub-queue. */
  ghost predicate Ordered<T>(high: seq<Level<T>>) {
    && (forall i, j :: 0 <= i < j < |high| ==> high[i].priority < high[j].priority)
    && (forall i :: 0 <= i < |high| ==> high[i].q != [])
  }

  lemma {:induction false} StrictRanks<T>(high: seq<Level<T>>, e: Entry<T>)
    requires e in Strict(high)
    ensures exists i :: 0 <= i < |high| && e.rank == high[i].priority + 1
    decreases |high|
  {
    var n := |high| - 1;
    if e in Strict(high[..n]) {
      StrictRanks(high[..n], e);
      var i :| 0 <= i < n && e.rank == high[..n][i].priority + 1;
      assert high[i] == high[..n][i];
    } else {
      assert e.rank == high[n].priority + 1;
    }
  }

  lemma SortedJoin<T>(a: seq<Entry<T>>, b: seq<Entry<T>>)
    requires Sorted(a) && Sorted(b)
    requires forall x, y :: x in a && y in b ==> x.rank >= y.rank
    ensures Sorted(a + b)
  {
    var c := a + b;
    forall i, j | 0 <= i < j < |c| ensures c[i].rank >= c[j].rank {
      if i < |a| <= j {
        assert c[i] in a && c[j] in b;
      }
    }
  }

  lemma StrictStep<T>(high: seq<Level<T>>, n: nat)
    requires |high| == n + 1
    ensures Strict(high) == Tag(high[n].priority + 1, high[n].q) + Strict(high[..n])
  {
    hide Tag;
  }

  lemma OrderedFront<T>(high: seq<Level<T>>, n: nat)
    requires Ordered(high) && n <= |high|
    ensures Ordered(high[..n])
  {
  }

  lemma BelowTop<T>(high: seq<Level<T>>, n: nat, y: Entry<T>)
    requires Ordered(high) && |high| == n + 1 && y in Strict(high[..n])
    ensures y.rank <= high[n].priority
  {
    hide Strict;
    StrictRanks(high[..n], y);
  }

  lemma TagSorted<T>(rank: nat, q: seq<(nat, T)>)
    ensures Sorted(Tag(rank, q)) && forall x :: x in Tag(rank, q) ==> x.rank == rank
  {
  }

  /** An ordered map is in priority order. */
  lemma {:induction false} StrictSorted<T>(high: seq<Level<T>>)
    requires Ordered(high)
    ensures Sorted(Strict(high))
    decreases |high|
  {
    hide Strict, Tag, Ordered;
    if high == [] {
      StrictNone(high);
    } else {
      var n := |high| - 1;
      var top := high[n];
      OrderedFront(high, n);
      StrictSorted(high[..n]);
      StrictStep(high, n);
      TagSorted(top.priority + 1, top.q);
      forall x, y | x in Tag(top.priority + 1, top.q) && y in Strict(high[..n]) ensures x.rank >= y.rank {
        BelowTop(high, n, y);
      }
      SortedJoin(Tag(top.priority + 1, top.q), Strict(high[..n]));
    }
  }

  lemma {:induction false} StrictAppend<T>(a: seq<Level<T>>, b: seq<Level<T>>)
    ensures Strict(a + b) == Strict(b) + Strict(a)
    decreases |b|
  {
    if b == [] {
      assert a + b == a;
    } else {
      var n := |b| - 1;
      var t := Tag(b[n].priority + 1, b[n].q);
      assert (a + b)[..|a + b| - 1] == a + b[..n];
      assert Strict(a + b) == t + Strict(a + b[..n]);
      assert Strict(b) == t + Strict(b[..n]);
      StrictAppend(a, b[..n]);
      assert t + (Strict(b[..n]) + Strict(a)) == (t + Strict(b[..n])) + Strict(a);
    }
  }

  lemma StrictOne<T>(level: Level<T>)
    ensures Strict([level]) == Tag(level.priority + 1, level.q)
  {
    assert [level][..0] == [];
  }

  /** A level in the middle of the map, in dequeue order. */
  lemma StrictMiddle<T>(lo: seq<Level<T>>, level: Level<T>, hi: seq<Level<T>>)
    ensures Strict(lo + [level] + hi) == Strict(hi) + Tag(level.priority + 1, level.q) + Strict(lo)
  {
    hide Strict;
    StrictAppend(lo + [level], hi);
    StrictAppend(lo, [level]);
    StrictOne(level);
    assert Strict(hi) + (Tag(level.priority + 1, level.q) + Strict(lo)) ==
           Strict(hi) + Tag(level.priority + 1, level.q) + Strict(lo);
  }

  /** Filtering one sub-queue, as the erase loop leaves it. */
  function Keep<T>(q: seq<(nat, T)>, cls: nat): (r: seq<(nat, T)>)
  {
    if q == [] then [] else (if q[0].0 == cls then [] else [q[0]]) + Keep(q[1..], cls)
  }

  lemma {:induction false} KeepSnoc<T>(q: seq<(nat, T)>, x: (nat, T), cls: nat)
    ensures Keep(q + [x], cls) == Keep(q, cls) + (if x.0 == cls then [] else [x])
    decreases |q|
  {
    if q == [] {
      assert q + [x] == [x];
    } else {
      assert (q + [x])[1..] == q[1..] + [x];
      KeepSnoc(q[1..], x, cls);
    }
  }

  lemma {:induction false} KeepIsFilter<T>(rank: nat, q: seq<(nat, T)>, cls: nat)
    ensures NotOfClass(Tag(rank, q), cls) == Tag(rank, Keep(q, cls))
    decreases |q|
  {
    if q != [] {
      assert Tag(rank, q)[1..] == Tag(rank, q[1..]);
      KeepIsFilter(rank, q[1..], cls);
      assert Tag(rank, Keep(q, cls)) ==
             (if q[0].0 == cls then [] else [Entry(rank, q[0].0, q[0].1)]) + Tag(rank, Keep(q[1..], cls));
    }
  }

  /** `SubQueue::remove_by_class`: a backward pass that collects, a forward pass that erases. */
  method RemoveFromSub<T>(rank: nat, q: seq<(nat, T)>, cls: nat, out: seq<T>)
    returns (kept: seq<(nat, T)>, out': seq<T>)
    ensures Tag(rank, kept) == NotOfClass(Tag(rank, q), cls)
    ensures out' == Items(OfClass(Tag(rank, q), cls)) + out
  {
    ghost var all := Tag(rank, q);
    out' := out;
    var j := |q|;
    while j > 0
      invariant 0 <= j <= |q|
      invariant out' == Items(OfClass(all[j..], cls)) + out
    {
      j := j - 1;
      assert all[j..][1..] == all[j + 1..];
      if q[j].0 == cls {
        assert OfClass(all[j..], cls) == [all[j]] + OfClass(all[j + 1..], cls);
        out' := [q[j].1] + out';
      }
    }
    assert all[0..] == all;
    kept := [];
    for i := 0 to |q|
      invariant kept == Keep(q[..i], cls)
    {
      assert q[..i + 1] == q[..i] + [q[i]];
      KeepSnoc(q[..i], q[i], cls);
      if q[i].0 != cls {
        kept := kept + [q[i]];
      }
    }
    assert q[..|q|] == q;
    KeepIsFilter(rank, q, cls);
  }

  class Queue<T> {
    var high: seq<Level<T>>    // the ordered map, ascending
    var normal: seq<(nat, T)>

    ghost predicate Valid()
      reads this
    {
      Ordered(high)
    }

    ghost function Contents(): seq<Entry<T>>
      reads this
    {
      Strict(high) + Tag(0, normal)
    }

    /** What is dequeued first has the highest priority: the promises about `Insert` apply to `Contents()`. */
    lemma ContentsSorted()
      requires Valid()
      ensures Sorted(Contents())
    {
      hide Ordered, Strict, Tag;
      StrictSorted(high);
      TagSorted(0, normal);
      SortedJoin(Strict(high), Tag(0, normal));
    }

    constructor ()
      ensures Valid() && Contents() == []
    {
      high, normal := [], [];
    }

    method Length() returns (n: nat)
      requires Valid()
      ensures n == |Contents()|
    {
      n := 0;
      for i := 0 to |high|
        invariant n == |Strict(high[..i])|
      {
        assert high[..i + 1][..i] == high[..i];
        assert |high[i].q| != 0;
        n := n + |high[i].q|;
      }
      assert high[..|high|] == high;
      n := n + |normal|;
    }

    method Empty() returns (r: bool)
      requires Valid()
      ensures r <==> Contents() == []
    {
      r := normal == [] && high == [];
      if high != [] {
        assert high[|high| - 1].q != [];
      }
    }

    /** `high_queue[priority]`: the position of the key, or the place to insert it. */
    method Find(priority: nat) returns (k: nat)
      requires Valid()
      ensures k <= |high|
      ensures forall i :: 0 <= i < k ==> high[i].priority < priority
      ensures forall i :: k <= i < |high| ==> high[i].priority >= priority
    {
      k := 0;
      while k < |high| && high[k].priority < priority
        invariant k <= |high|
        invariant forall i :: 0 <= i < k ==> high[i].priority < priority
      {
        k := k + 1;
      }
    }

    method EnqueueStrict(cls: nat, priority: nat, item: T)
      requires Valid()
      modifies this
      ensures Valid()
      ensures Contents() == Insert(old(Contents()), Entry(priority + 1, cls, item))
    {
      hide Strict, Insert, Ordered;
      var k := Find(priority);
      var found := k < |high| && high[k].priority == priority;
      var q := if found then high[k].q else [];
      var lo, hi := high[..k], high[if found then k + 1 else k..];
      FindSplits(high, k, priority, q, lo, hi);
      EnqueueAt(lo, Level(priority, q), hi, Tag(0, normal), cls, item);
      StrictBlank(lo, priority, hi);
      high := lo + [Level(priority, q + [(cls, item)])] + hi;
      OrderedMiddle(lo, Level(priority, q + [(cls, item)]), hi);
    }

    method Enqueue(cls: nat, priority: nat, cost: nat, item: T)
      requires Valid()
      modifies this
      ensures Valid()
      ensures Contents() == Insert(old(Contents()), Entry(0, cls, item))
    {
      ghost var e := Entry(0, cls, item);
      InsertBehind(Contents(), [], e);
      assert Contents() + [] == Contents();
      normal := normal + [(cls, item)];
      assert Tag(0, normal) == old(Tag(0, normal)) + [e];
    }

    method Dequeue() returns (item: T)
      requires Valid() && Contents() != []
      modifies this
      ensures Valid()
      ensures old(Contents()) == [old(Contents())[0]] + Contents() && item == old(Contents())[0].item
    {
      hide Strict, Tag, Ordered;
      ghost var tail := Tag(0, normal);
      if high != [] {
        var last := |high| - 1;
        var top := high[last];
        TopLevel(high);
        item := top.q[0].1;
        var rest := top.q[1..];
        if rest == [] {
          high := high[..last];
        } else {
          high := high[last := Level(top.priority, rest)];
        }
        ghost var head := Entry(top.priority + 1, top.q[0].0, item);
        assert old(Contents()) == [head] + Contents();
      } else {
        StrictNone(high);
        TagHead(0, normal);
        item := normal[0].1;
        normal := normal[1..];
        assert old(Contents()) == tail && Contents() == Tag(0, normal);
      }
    }

    method RemoveByClass(cls: nat, out: seq<T>) returns (out': seq<T>)
      requires Valid()
      modifies this
      ensures Valid()
      ensures Contents() == NotOfClass(old(Contents()), cls)
      ensures out' == Items(OfClass(old(Contents()), cls)) + out
    {
      hide Strict, OfClass, NotOfClass;
      ghost var was, tail := high, Tag(0, normal);
      normal, out' := RemoveFromSub(0, normal, cls, out);
      high, out' := RemoveFromLevels(high, cls, out');
      ClassAppend(Strict(was), tail, cls);
      ItemsAppend(OfClass(Strict(was), cls), OfClass(tail, cls));
      assert out' == Items(OfClass(Strict(was), cls)) + Items(OfClass(tail, cls)) + out;
    }
  }

  /** The loop over the priority map, which drops the sub-queues it empties. */
  method RemoveFromLevels<T>(high: seq<Level<T>>, cls: nat, out: seq<T>) returns (kept: seq<Level<T>>, out': seq<T>)
    requires Ordered(high)
    ensures Ordered(kept)
    ensures Strict(kept) == NotOfClass(Strict(high), cls)
    ensures out' == Items(OfClass(Strict(high), cls)) + out
  {
    hide OfClass, NotOfClass, Strict;
    kept, out' := [], out;
    LevelsNone(high, cls);
    for i := 0 to |high|
      invariant Ordered(kept)
      invariant forall l :: l in kept ==> exists j :: 0 <= j < i && l.priority == high[j].priority
      invariant Strict(kept) == NotOfClass(Strict(high[..i]), cls)
      invariant out' == Items(OfClass(Strict(high[..i]), cls)) + out
    {
      var q;
      q, out' := RemoveFromSub(high[i].priority + 1, high[i].q, cls, out');
      StrictSnoc(high, i, cls);
      ghost var t := Tag(high[i].priority + 1, high[i].q);
      ItemsAppend(OfClass(t, cls), OfClass(Strict(high[..i]), cls));
      assert Items(OfClass(t, cls)) + (Items(OfClass(Strict(high[..i]), cls)) + out) ==
             Items(OfClass(t, cls)) + Items(OfClass(Strict(high[..i]), cls)) + out;
      if q != [] {
        StrictPush(kept, Level(high[i].priority, q));
        OrderedMiddle(kept, Level(high[i].priority, q), []);
        kept := kept + [Level(high[i].priority, q)];
        assert kept + [] == kept;
      }
    }
    assert high[..|high|] == high;
  }

  lemma StrictNone<T>(high: seq<Level<T>>)
    requires high == []
    ensures Strict(high) == []
  {
  }

  lemma TagHead<T>(rank: nat, q: seq<(nat, T)>)
    requires |Tag(rank, q)| > 0
    ensures q != [] && Tag(rank, q) == [Entry(rank, q[0].0, q[0].1)] + Tag(rank, q[1..])
  {
  }

  /** The front of the last level is the front of the strict part; taking it leaves an ordered map. */
  lemma TopLevel<T>(high: seq<Level<T>>)
    requires Ordered(high) && high != []
    ensures var last, top := |high| - 1, high[|high| - 1];
            && top.q != []
            && var rest := if top.q[1..] == [] then high[..last] else high[last := Level(top.priority, top.q[1..])];
               Ordered(rest) && Strict(high) == [Entry(top.priority + 1, top.q[0].0, top.q[0].1)] + Strict(rest)
  {
    hide Tag, Strict, Ordered;
    var last, top := |high| - 1, high[|high| - 1];
    TopUsed(high);
    TagHead(top.priority + 1, top.q);
    StrictStep(high, last);
    if top.q[1..] == [] {
      TagNone(top.priority + 1, top.q[1..]);
      OrderedFront(high, last);
    } else {
      var rest := high[last := Level(top.priority, top.q[1..])];
      TopShortened(high, last, top.q[1..]);
      StrictStep(rest, last);
      assert rest[..last] == high[..last];
    }
  }

  lemma TopUsed<T>(high: seq<Level<T>>)
    requires Ordered(high) && high != []
    ensures var top := high[|high| - 1]; top.q != [] && |Tag(top.priority + 1, top.q)| > 0
  {
  }

  lemma TopShortened<T>(high: seq<Level<T>>, last: nat, q: seq<(nat, T)>)
    requires Ordered(high) && |high| == last + 1 && q != []
    ensures Ordered(high[last := Level(high[last].priority, q)])
  {
  }

  lemma TagNone<T>(rank: nat, q: seq<(nat, T)>)
    requires q == []
    ensures Tag(rank, q) == []
  {
  }

  lemma LevelsNone<T>(high: seq<Level<T>>, cls: nat)
    ensures OfClass(Strict(high[..0]), cls) == [] && NotOfClass(Strict(high[..0]), cls) == []
    ensures |Strict<T>([])| == 0
  {
  }

  lemma StrictPush<T>(high: seq<Level<T>>, level: Level<T>)
    ensures Strict(high + [level]) == Tag(level.priority + 1, level.q) + Strict(high)
  {
    assert (high + [level])[..|high|] == high;
  }

  lemma OrderedMiddle<T>(lo: seq<Level<T>>, level: Level<T>, hi: seq<Level<T>>)
    requires Ordered(lo) && Ordered(hi) && level.q != []
    requires forall l :: l in lo ==> l.priority < level.priority
    requires forall l :: l in hi ==> l.priority > level.priority
    ensures Ordered(lo + [level] + hi)
  {
    var s := lo + [level] + hi;
    forall i, j | 0 <= i < j < |s| ensures s[i].priority < s[j].priority {
      assert i < |lo| ==> s[i] in lo;
      assert i > |lo| ==> s[i] in hi;
      assert j < |lo| ==> s[j] in lo;
      assert j > |lo| ==> s[j] in hi;
    }
  }

  /** The map around the position `Find` returns, with an absent key read as an empty level. */
  lemma FindSplits<T>(high: seq<Level<T>>, k: nat, priority: nat, q: seq<(nat, T)>,
                      lo: seq<Level<T>>, hi: seq<Level<T>>)
    requires Ordered(high) && k <= |high| && lo == high[..k]
    requires forall i :: 0 <= i < k ==> high[i].priority < priority
    requires forall i :: k <= i < |high| ==> high[i].priority >= priority
    requires if k < |high| && high[k].priority == priority then q == high[k].q && hi == high[k + 1..]
             else q == [] && hi == high[k..]
    ensures Ordered(lo) && Ordered(hi)
    ensures forall l :: l in lo ==> l.priority < priority
    ensures forall l :: l in hi ==> l.priority > priority
    ensures if k < |high| && high[k].priority == priority then high == lo + [Level(priority, q)] + hi
            else high == lo + hi
  {
  }

  lemma ItemsAppend<T>(a: seq<Entry<T>>, b: seq<Entry<T>>)
    ensures Items(a + b) == Items(a) + Items(b)
  {
  }

  /** An absent level is an empty one. */
  lemma StrictBlank<T>(lo: seq<Level<T>>, priority: nat, hi: seq<Level<T>>)
    ensures Strict(lo + [Level(priority, [])] + hi) == Strict(lo + hi)
  {
    var blank: Level<T> := Level(priority, []);
    StrictMiddle(lo, blank, hi);
    StrictAppend(lo, hi);
    assert Strict(hi) + Tag(priority + 1, blank.q) == Strict(hi);
  }

  /** Filtering up to and including level i is filtering that level in front of the lower ones. */
  lemma StrictSnoc<T>(high: seq<Level<T>>, i: nat, cls: nat)
    requires i < |high|
    ensures var t := Tag(high[i].priority + 1, high[i].q);
            && OfClass(Strict(high[..i + 1]), cls) == OfClass(t, cls) + OfClass(Strict(high[..i]), cls)
            && NotOfClass(Strict(high[..i + 1]), cls) == NotOfClass(t, cls) + NotOfClass(Strict(high[..i]), cls)
  {
    assert high[..i + 1][..i] == high[..i];
    ClassAppend(Tag(high[i].priority + 1, high[i].q), Strict(high[..i]), cls);
  }

  /** Appending to one level is stable insertion into the whole. */
  lemma EnqueueAt<T>(lo: seq<Level<T>>, level: Level<T>, hi: seq<Level<T>>, tail: seq<Entry<T>>, cls: nat, item: T)
    requires forall l :: l in lo ==> l.priority < level.priority
    requires forall l :: l in hi ==> l.priority > level.priority
    requires forall x :: x in tail ==> x.rank == 0
    ensures Strict(lo + [Level(level.priority, level.q + [(cls, item)])] + hi) + tail ==
            Insert(Strict(lo + [level] + hi) + tail, Entry(level.priority + 1, cls, item))
  {
    hide Strict;
    var e := Entry(level.priority + 1, cls, item);
    var above, below := Strict(hi) + Tag(e.rank, level.q), Strict(lo) + tail;
    StrictMiddle(lo, level, hi);
    StrictMiddle(lo, Level(level.priority, level.q + [(cls, item)]), hi);
    assert Tag(e.rank, level.q + [(cls, item)]) == Tag(e.rank, level.q) + [e];
    assert Strict(lo + [level] + hi) + tail == above + below;
    assert Strict(hi) + (Tag(e.rank, level.q) + [e]) + Strict(lo) + tail == above + ([e] + below);
    forall x | x in above ensures x.rank >= e.rank {
      if x in Strict(hi) { StrictRanks(hi, x); }
    }
    forall x | x in below ensures x.rank < e.rank {
      if x in Strict(lo) { StrictRanks(lo, x); }
    }
    InsertBetween(above, below, e);
  }

  lemma InsertBetween<T>(above: seq<Entry<T>>, below: seq<Entry<T>>, e: Entry<T>)
    requires forall x :: x in above ==> x.rank >= e.rank
    requires forall x :: x in below ==> x.rank < e.rank
    ensures Insert(above + below, e) == above + ([e] + below)
  {
    InsertBehind(above, below, e);
    if below != [] {
      assert below[0] in below;
    }
  }
}

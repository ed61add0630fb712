/**
 `buffer::list::write_fd`: gathered writes against a kernel that may take any part of what it is
 offered, or fail. What the kernel will answer is a finite script; a call that is still retrying
 when the script ends is unfinished.
 */
module WriteFd {
  import opened Bytes
  import opened Arith
  import opened Rope
  import opened Cursors

  const IOV_MAX := 1024
  const EINTR := 4
  const EAGAIN := 11

  /** `Wrote(n)` accepts `n` bytes of the offer, or all of it if that is less. */
  datatype Reply = Wrote(n: nat) | Failed(err: nat)

  datatype Outcome = Returned(ret: int) | Unfinished

  /** An `errno` is positive. */
  predicate Sensible(replies: seq<Reply>) {
    forall r <- replies :: r.Failed? ==> r.err > 0
  }

  // ---------- After a partial write ----------

  /**
   Moves `start` past `wrote` bytes of the batch, shortening the segment they end in. Since fewer
   bytes were written than offered, the search stops inside the batch.
   */
  method Recover(iov: seq<Ptr>, start: nat, wrote: nat, bytes: nat)
      returns (iov': seq<Ptr>, start': nat, bytes': nat)
    requires AllFit(iov) && start <= |iov| && wrote < bytes == Sum(iov[start..])
    ensures AllFit(iov') && |iov'| == |iov| && start' < |iov'|
    ensures bytes' == bytes - wrote == Sum(iov'[start'..])
    ensures wrote <= |Flat(iov[start..])| && Flat(iov'[start'..]) == Flat(iov[start..])[wrote..]
  {
    hide Flat, Sum;
    iov', start', bytes' := iov, start, bytes;
    var left: nat := wrote;
    ghost var all := Flat(iov[start..]);
    FlatLength(iov[start..]);
    FlatNone();
    while left >= iov'[start'].len
      invariant start' < |iov| && iov' == iov
      invariant left < bytes' == Sum(iov[start'..]) && bytes' - left == bytes - wrote
      invariant left <= wrote && Flat(iov[start'..]) == all[wrote - left..]
      decreases |iov| - start'
    {
      assert iov[start'..][1..] == iov[start' + 1..];
      HeadTail(iov[start'..]);
      left := left - iov'[start'].len;
      bytes' := bytes' - iov'[start'].len;
      start' := start' + 1;
    }
    if left > 0 {
      Trimmed(iov, start', left);
      SumSplit(iov, start');
      iov' := iov'[start' := iov'[start'].Sub(left, iov'[start'].len - left)];
      SumSplit(iov', start');
      bytes' := bytes' - left;
    }
  }

  // ---------- What the script means ----------

  /** Answers after which the call goes on: some bytes accepted, or EINTR. */
  predicate GoesOn(r: Reply) {
    r.Wrote? || r == Failed(4)
  }

  predicate AllGoOn(replies: seq<Reply>) {
    forall r <- replies :: GoesOn(r)
  }

  /** The lengths of the segments that hold anything. */
  function Lengths(ps: seq<Ptr>): (lens: seq<nat>) {
    if ps == [] then []
    else Lengths(ps[..|ps| - 1]) + if ps[|ps| - 1].len > 0 then [ps[|ps| - 1].len] else []
  }

  function Total(lens: seq<nat>): (n: nat) {
    if lens == [] then 0 else Total(lens[..|lens| - 1]) + lens[|lens| - 1]
  }

  /**
   What the kernel is offered once `sent` bytes are out: the rest of the batch they end in. A batch
   is 1023 segments, or as many as are left.
   */
  function Offer(lens: seq<nat>, sent: nat): (n: nat)
    decreases |lens|
  {
    var first := Total(lens[..Least(1023, |lens|)]);
    if sent < first then first - sent
    else if |lens| <= 1023 then 0
    else Offer(lens[1023..], sent - first)
  }

  /** The bytes a script takes: each `Wrote(n)` takes `n`, or the whole offer if that is less. */
  function TakenBy(lens: seq<nat>, replies: seq<Reply>): (n: nat)
    decreases |replies|
  {
    if replies == [] then 0
    else
      var before, r := TakenBy(lens, replies[..|replies| - 1]), replies[|replies| - 1];
      before + if r.Wrote? then Least(r.n, Offer(lens, before)) else 0
  }

  lemma TakenStep(lens: seq<nat>, replies: seq<Reply>, k: nat)
    requires k < |replies|
    ensures var before := TakenBy(lens, replies[..k]);
            TakenBy(lens, replies[..k + 1]) ==
            before + if replies[k].Wrote? then Least(replies[k].n, Offer(lens, before)) else 0
  {
    assert replies[..k + 1][..k] == replies[..k];
  }

  lemma {:induction false} TotalConcat(a: seq<nat>, b: seq<nat>)
    ensures Total(a + b) == Total(a) + Total(b)
    decreases |b|
  {
    if b == [] {
      assert a + b == a;
    } else {
      assert (a + b)[..|a + b| - 1] == a + b[..|b| - 1];
      TotalConcat(a, b[..|b| - 1]);
    }
  }

  /** Inside a batch that follows whole batches, the offer is what is left of it. */
  lemma {:induction false} OfferInBatch(done: seq<nat>, batch: seq<nat>, later: seq<nat>, t: nat)
    requires |done| % 1023 == 0 && |batch| <= 1023 && (|batch| < 1023 ==> later == [])
    requires t < Total(batch) || (t == 0 && batch == [])
    ensures Offer(done + batch + later, Total(done) + t) == Total(batch) - t
    decreases |done|
  {
    var lens := done + batch + later;
    var cut := Least(1023, |lens|);
    if done == [] {
      assert lens[..cut] == batch;
    } else {
      assert lens[..cut] == done[..1023];
      assert done == done[..1023] + done[1023..];
      TotalConcat(done[..1023], done[1023..]);
      OfferInBatch(done[1023..], batch, later, t);
      assert lens[1023..] == done[1023..] + batch + later;
      if |lens| <= 1023 {
        assert batch == [] && done[1023..] == [];
      }
    }
  }

  lemma {:induction false} LengthsConcat(a: seq<Ptr>, b: seq<Ptr>)
    ensures Lengths(a + b) == Lengths(a) + Lengths(b)
    decreases |b|
  {
    if b == [] {
      assert a + b == a;
    } else {
      assert (a + b)[..|a + b| - 1] == a + b[..|b| - 1];
      LengthsConcat(a, b[..|b| - 1]);
    }
  }

  lemma LengthsSnoc(ps: seq<Ptr>, p: Ptr)
    ensures Lengths(ps + [p]) == Lengths(ps) + if p.len > 0 then [p.len] else []
    ensures Lengths([]) == [] && Total([]) == 0
  {
    assert (ps + [p])[..|ps|] == ps;
  }

  lemma TotalSnoc(lens: seq<nat>, n: nat)
    ensures Total(lens + [n]) == Total(lens) + n
  {
    assert (lens + [n])[..|lens|] == lens;
  }

  // ---------- One batch ----------

  /** How a batch ends: all of it accepted, or an error other than EINTR, or the end of the script. */
  datatype BatchEnd = AllSent | Error(err: nat) | OutOfReplies

  /** While `t` bytes of a batch of `size` are out, the offer is the rest of it. */
  ghost predicate Offers(lens: seq<nat>, base: nat, size: nat) {
    forall at: nat :: base <= at && (at < base + size || size == 0 == at - base) ==> Offer(lens, at) == base + size - at
  }

  /**
   The `retry` loop. `accepted` is what the kernel has taken of this batch: always a prefix of it,
   as long as the script says, and all of it exactly when the batch ends well. Every answer but
   the last one used lets the loop go on, and it stops at the first that does not.
   */
  method SendBatch(batch: seq<Ptr>, size: nat, replies: seq<Reply>, first: nat, ghost lens: seq<nat>, ghost base: nat)
      returns (end: BatchEnd, used: nat, ghost accepted: seq<byte>, wroteTotal: nat)
    requires AllFit(batch) && size == Sum(batch) && first <= |replies|
    requires Offers(lens, base, size) && TakenBy(lens, replies[..first]) == base
    ensures first <= used <= |replies| && wroteTotal == |accepted| <= |Flat(batch)|
    ensures accepted == Flat(batch)[..|accepted|]
    ensures TakenBy(lens, replies[..used]) == base + |accepted|
    ensures forall k :: first <= k < used && size > 0 ==> TakenBy(lens, replies[..k]) < base + size
    ensures forall k :: first <= k < used - 1 ==> GoesOn(replies[k])
    ensures end == AllSent ==> first < used && replies[used - 1].Wrote? && accepted == Flat(batch)
    ensures end.Error? ==> first < used && replies[used - 1] == Failed(end.err) && end.err != 4
    ensures !end.Error? && first < used ==> GoesOn(replies[used - 1])
    ensures end.OutOfReplies? ==> used == |replies|
  {
    hide Flat, Sum, Offer, TakenBy;
    var iov, start: nat, bytes: nat := batch, 0, size;
    FlatLength(batch);
    assert batch[0..] == batch;
    accepted, wroteTotal, used := [], 0, first;
    while used < |replies|
      invariant first <= used <= |replies| && start <= |iov| && AllFit(iov)
      invariant bytes == Sum(iov[start..]) == size - wroteTotal
      invariant bytes > 0 || size == 0
      invariant wroteTotal == |accepted| <= |Flat(batch)| && accepted == Flat(batch)[..|accepted|]
      invariant Flat(iov[start..]) == Flat(batch)[|accepted|..]
      invariant TakenBy(lens, replies[..used]) == base + |accepted|
      invariant forall k :: first <= k < used ==> GoesOn(replies[k])
      invariant forall k :: first <= k < used && size > 0 ==> TakenBy(lens, replies[..k]) < base + size
    {
      var reply := replies[used];
      TakenStep(lens, replies, used);
      assert Offer(lens, base + |accepted|) == bytes;
      used := used + 1;
      if reply.Failed? {
        if reply.err == EINTR {
          continue;
        }
        return Error(reply.err), used, accepted, wroteTotal;
      }
      FlatLength(iov[start..]);
      var wrote := Least(reply.n, bytes);
      ghost var offered := Flat(iov[start..]);
      Prefixes(Flat(batch), |accepted|, wrote);
      accepted := accepted + offered[..wrote];
      wroteTotal := wroteTotal + wrote;
      if wrote == bytes {
        assert accepted == Flat(batch);
        return AllSent, used, accepted, wroteTotal;
      }
      iov, start, bytes := Recover(iov, start, wrote, bytes);
    }
    end := OutOfReplies;
  }

  lemma Prefixes(s: seq<byte>, a: nat, n: nat)
    requires a + n <= |s|
    ensures s[..a] + s[a..][..n] == s[..a + n] && s[a..][n..] == s[a + n..]
  {
  }

  // ---------- The whole list ----------

  /**
   Whatever the kernel does, what it has accepted is a prefix of the content, of the length the script
   gives. Every answer but the last one used lets the call go on. If the last one is an error other
   than EINTR the call returns it, or for EAGAIN the bytes accepted if there are any; if the script
   ends first every answer was one to go on from; otherwise the whole content has been accepted. A
   list without empty segments is not written to again once all of it is out.
   */
  method WriteFd(ps: seq<Ptr>, replies: seq<Reply>) returns (outcome: Outcome, used: nat, ghost accepted: seq<byte>)
    requires AllFit(ps) && Sensible(replies)
    ensures used <= |replies| && |accepted| <= |Flat(ps)| && accepted == Flat(ps)[..|accepted|]
    ensures |accepted| == TakenBy(Lengths(ps), replies[..used])
    ensures forall k :: 0 <= k < used - 1 ==> GoesOn(replies[k])
    ensures 0 < used && !GoesOn(replies[used - 1]) ==>
              var err := replies[used - 1].err;
              outcome == if err == 11 && accepted != [] then Returned(|accepted|) else Returned(0 - err)
    ensures (used == 0 || GoesOn(replies[used - 1])) && outcome.Returned? ==>
              outcome.ret == |accepted| == |Flat(ps)|
    ensures outcome.Unfinished? ==> used == |replies| && AllGoOn(replies)
    ensures NoneEmpty(ps) ==> forall k :: 0 <= k < used ==> TakenBy(Lengths(ps), replies[..k]) < |Flat(ps)|
  {
    hide Flat, Sum, Offer, TakenBy, Lengths, Total;
    used, accepted := 0, [];
    var total: nat, k: nat, batch: seq<Ptr>, bytes: nat := 0, 0, [], 0;
    ghost var from := 0;
    ghost var lens := Lengths(ps);
    FlatNone();
    FlatLength(ps);
    PrefixAll(ps);
    NothingTaken(lens);
    assert ps[..0] == [] && replies[..0] == [];
    while k < |ps|
      invariant 0 <= from <= k <= |ps| && used <= |replies| && total == |accepted|
      invariant AllFit(ps[..from]) && accepted == Flat(ps[..from]) && total == Sum(ps[..from])
      invariant AllFit(batch) && AllFit(ps[from..k])
      invariant bytes == Sum(batch) && Flat(batch) == Flat(ps[from..k])
      invariant Lengths(ps[from..k]) == Lengths(batch) && |Lengths(batch)| == |batch|
      invariant |Lengths(ps[..from])| % 1023 == 0 || from == |ps|
      invariant |batch| < IOV_MAX - 1
      invariant k == |ps| ==> from == k
      invariant TakenBy(lens, replies[..used]) == total
      invariant forall j :: 0 <= j < used ==> GoesOn(replies[j])
      invariant NoneEmpty(ps) && from < k ==> batch != []
      invariant NoneEmpty(ps) ==> forall j :: 0 <= j < used ==> TakenBy(lens, replies[..j]) < Sum(ps)
    {
      batch, bytes := Collect(ps, from, k, batch, bytes);
      k := k + 1;
      if |batch| == IOV_MAX - 1 || k == |ps| {
        BatchOffers(ps, from, k, batch, bytes);
        ghost var sent;
        var end, n;
        end, used, sent, n := SendBatch(batch, bytes, replies, used, lens, total);
        BatchInside(ps, from, k, batch, bytes);
        FlatLength(batch);
        accepted := accepted + sent;
        InTheMiddle(ps, from, k, sent, accepted);
        total := total + n;
        match end {
          case OutOfReplies => return Unfinished, used, accepted;
          case Error(err) =>
            assert replies[used - 1] in replies;
            if err == EAGAIN && total > 0 {
              return Returned(total), used, accepted;
            }
            return Returned(0 - err), used, accepted;
          case AllSent =>
            from, batch, bytes := k, [], 0;
            assert ps[from..k] == [];
        }
      }
    }
    assert ps[..|ps|] == ps;
    outcome := Returned(total);
  }

  /** Segment `k` joins the batch, unless it is empty. */
  method Collect(ps: seq<Ptr>, ghost from: nat, k: nat, batch: seq<Ptr>, bytes: nat)
      returns (batch': seq<Ptr>, bytes': nat)
    requires AllFit(ps) && from <= k < |ps| && AllFit(batch) && bytes == Sum(batch)
    requires Flat(batch) == Flat(ps[from..k])
    requires Lengths(ps[from..k]) == Lengths(batch) && |Lengths(batch)| == |batch|
    ensures AllFit(batch') && AllFit(ps[from..k + 1])
    ensures bytes' == Sum(batch') && Flat(batch') == Flat(ps[from..k + 1])
    ensures Lengths(ps[from..k + 1]) == Lengths(batch') && |Lengths(batch')| == |batch'|
    ensures |batch'| == |batch| + if ps[k].len > 0 then 1 else 0
  {
    hide Flat, Sum, Lengths;
    batch', bytes' := batch, bytes;
    assert ps[from..k + 1] == ps[from..k] + [ps[k]];
    assert ps[k] in ps;
    FlatSnoc(ps[from..k], ps[k]);
    LengthsSnoc(ps[from..k], ps[k]);
    if ps[k].len > 0 {
      FlatSnoc(batch, ps[k]);
      LengthsSnoc(batch, ps[k]);
      batch' := batch + [ps[k]];
      bytes' := bytes + ps[k].len;
    } else {
      assert View(ps[k]) == [];
      assert Lengths(ps[from..k + 1]) == Lengths(ps[from..k]);
    }
  }

  lemma NothingTaken(lens: seq<nat>)
    ensures TakenBy(lens, []) == 0 && Lengths([]) == []
  {
  }

  lemma {:induction false} LengthsTotal(ps: seq<Ptr>)
    ensures Total(Lengths(ps)) == Sum(ps)
    decreases |ps|
  {
    if ps != [] {
      var front, last := ps[..|ps| - 1], ps[|ps| - 1];
      LengthsTotal(front);
      if last.len > 0 {
        TotalSnoc(Lengths(front), last.len);
      } else {
        assert Lengths(ps) == Lengths(front);
      }
    }
  }

  lemma BatchInside(ps: seq<Ptr>, from: nat, k: nat, batch: seq<Ptr>, bytes: nat)
    requires from <= k <= |ps| && Lengths(ps[from..k]) == Lengths(batch) && bytes == Sum(batch)
    ensures Sum(ps[..from]) + bytes == Sum(ps[..k]) <= Sum(ps)
    ensures Lengths(ps[..k]) == Lengths(ps[..from]) + Lengths(batch)
    ensures Lengths(ps) == Lengths(ps[..from]) + Lengths(batch) + Lengths(ps[k..])
    ensures Lengths(batch) != [] ==> bytes > 0
  {
    hide Sum, Lengths;
    assert ps[..k] == ps[..from] + ps[from..k];
    SumConcat(ps[..from], ps[from..k]);
    LengthsConcat(ps[..from], ps[from..k]);
    LengthsTotal(batch);
    LengthsTotal(ps[from..k]);
    SumSplit(ps, k);
    assert ps == ps[..k] + ps[k..];
    LengthsConcat(ps[..k], ps[k..]);
    PrefixAll(ps);
    PrefixMonotone(ps, k, |ps|);
    LengthsPositive(batch);
  }

  lemma {:induction false} LengthsPositive(ps: seq<Ptr>)
    ensures Lengths(ps) != [] ==> Sum(ps) > 0
    decreases |ps|
  {
    if ps != [] {
      LengthsPositive(ps[..|ps| - 1]);
    }
  }

  lemma BatchOffers(ps: seq<Ptr>, from: nat, k: nat, batch: seq<Ptr>, bytes: nat)
    requires from < k <= |ps| && Lengths(ps[from..k]) == Lengths(batch) && bytes == Sum(batch)
    requires |Lengths(ps[..from])| % 1023 == 0 && |Lengths(batch)| <= 1023
    requires |Lengths(batch)| == 1023 || k == |ps|
    ensures Offers(Lengths(ps), Sum(ps[..from]), bytes)
  {
    hide Sum, Lengths, Offer, Total;
    BatchInside(ps, from, k, batch, bytes);
    var done, mine, later := Lengths(ps[..from]), Lengths(batch), Lengths(ps[k..]);
    LengthsTotal(ps[..from]);
    LengthsTotal(batch);
    if k == |ps| {
      assert ps[k..] == [];
      NothingTaken([]);
    }
    var base := Sum(ps[..from]);
    forall at: nat | base <= at && (at < base + bytes || bytes == 0 == at - base)
      ensures Offer(Lengths(ps), at) == base + bytes - at
    {
      OfferInBatch(done, mine, later, at - base);
    }
  }

  /** Part of a batch after all the batches before it is a prefix of the content. */
  lemma InTheMiddle(ps: seq<Ptr>, from: nat, k: nat, sent: seq<byte>, accepted: seq<byte>)
    requires AllFit(ps) && from <= k <= |ps|
    requires |sent| <= |Flat(ps[from..k])| && sent == Flat(ps[from..k])[..|sent|]
    requires accepted == Flat(ps[..from]) + sent
    ensures |accepted| <= |Flat(ps)| && accepted == Flat(ps)[..|accepted|]
    ensures sent == Flat(ps[from..k]) ==> accepted == Flat(ps[..k])
  {
    hide Flat;
    FlatConcat(ps[..from], ps[from..k]);
    assert ps[..k] == ps[..from] + ps[from..k];
    FlatConcat(ps[..k], ps[k..]);
    assert ps == ps[..k] + ps[k..];
  }
}

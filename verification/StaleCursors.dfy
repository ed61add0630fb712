/**
 What a caller sees when bytes are put in front of a list that remembers a read position.
 */
module StaleCursors {
  import opened Bytes
  import opened Rope
  import opened Cursors
  import opened BufferLists

  /** The answer `copy(off, n)` owes its caller on a list with this content. */
  predicate Right(content: seq<byte>, off: nat, n: nat, ok: bool, bytes: seq<byte>) {
    && (ok <==> off + n <= |content|)
    && (ok ==> bytes == content[off..off + n])
  }

  /**
   The condition: the offset is not the remembered one, or nothing is asked for, or so much that any
   cursor refuses, or the bytes `shift` further on exist and happen to be the same.
   */
  predicate Excused(content: seq<byte>, shift: nat, remembered: nat, off: nat, n: nat) {
    || off != remembered
    || n == 0
    || off + n > |content|
    || (off + shift + n <= |content| && content[off + shift..off + shift + n] == content[off..off + n])
  }

  /** A cursor that lags `shift` behind gives the right answer exactly under that condition. */
  lemma RightExactly(content: seq<byte>, shift: nat, remembered: nat, off: nat, n: nat, ok: bool, bytes: seq<byte>)
    requires remembered + shift <= |content|
    requires var start := if off == remembered then off + shift else off;
             && (ok <==> off + n <= |content| && start + n <= |content|)
             && (ok ==> bytes == content[start..start + n])
    ensures Right(content, off, n, ok, bytes) <==> Excused(content, shift, remembered, off, n)
  {
    if n == 0 && ok {
      assert bytes == [] == content[off..off + n];
    }
  }

  /**
   After `push_front` with the remembered cursor inside the list, a read at the remembered offset
   delivers the bytes that stood there before, or fails because those run out: the answer is right if
   and only if it is excused.
   */
  method ReadAfterPushFront(list: BufferList, bp: Ptr, off: nat, n: nat, ghost w: set<BufferList>)
      returns (ok: bool, bytes: seq<byte>)
    requires list in w && World(w) && list.CursorOk() && list.lastP.pos.At?
    requires bp.Fits() && bp.len > 0 && Respects(w, [bp])
    modifies list
    ensures list.Content() == old(View(bp) + list.Content())
    ensures off == old(list.lastP.off) ==>
              && (ok <==> off + n <= |old(list.Content())|)
              && (ok ==> bytes == old(list.Content())[off..off + n])
    ensures Right(list.Content(), off, n, ok, bytes) <==>
            Excused(list.Content(), bp.len, old(list.lastP.off), off, n)
  {
    hide Flat, Sum, World, Coherent, Usable, Start, Respects, Right, Excused;
    ghost var was, remembered := list.Content(), list.lastP.off;
    CursorBound(list, w);
    list.PushFront(bp, w);
    ok, bytes := list.ReadThrough(off, n, w);
    MovedOn(old(View(bp)), was, remembered, n);
    RightExactly(list.Content(), bp.len, remembered, off, n, ok, bytes);
  }

  /** The same after `claim_prepend` from a donor that is not empty. */
  method ReadAfterClaimPrepend(list: BufferList, other: BufferList, allowNonshareable: bool, off: nat, n: nat,
                               ghost w: set<BufferList>) returns (ok: bool, bytes: seq<byte>)
    requires list in w && other in w && other != list && World(w) && list.CursorOk() && list.lastP.pos.At?
    requires other.Content() != []
    modifies list, other
    ensures list.Content() == old(other.Content() + list.Content())
    ensures off == old(list.lastP.off) ==>
              && (ok <==> off + n <= |old(list.Content())|)
              && (ok ==> bytes == old(list.Content())[off..off + n])
    ensures Right(list.Content(), off, n, ok, bytes) <==>
            Excused(list.Content(), |old(other.Content())|, old(list.lastP.off), off, n)
  {
    hide Flat, Sum, World, Coherent, Usable, Start, Respects, Right, Excused;
    ghost var front, was, remembered := other.Content(), list.Content(), list.lastP.off;
    CursorBound(list, w);
    list.ClaimPrepend(other, allowNonshareable, w);
    ok, bytes := list.ReadThrough(off, n, w);
    MovedOn(front, was, remembered, n);
    RightExactly(list.Content(), |front|, remembered, off, n, ok, bytes);
  }

  lemma CursorBound(list: BufferList, w: set<BufferList>)
    requires list in w && World(w) && list.CursorOk()
    ensures list.CursorUsable() && list.ReadsFrom() == list.lastP.off <= |list.Content()|
  {
    hide Flat, Sum;
    CoherentIff(list.buffers, list.lastP);
    StartBound(list.buffers, list.lastP);
    FlatLength(list.buffers);
  }

  lemma MovedOn(front: seq<byte>, was: seq<byte>, off: nat, n: nat)
    requires off <= |was|
    ensures off + n <= |was| ==> (front + was)[off + |front|..off + |front| + n] == was[off..off + n]
  {
  }

  /** "abc", one byte read, "X" put in front, one byte read at offset 1: 'b' comes where 'a' is. */
  method WrongByte() returns (list: BufferList, got: seq<byte>)
    ensures list.Content() == [88, 97, 98, 99] && got == [98]
  {
    hide Flat, Sum, World, Coherent, Usable, Start, Respects, Right, Excused, Placed;
    list := HalfRead();
    ghost var w := {list};
    var bp := BufferList.PtrOf([88], true);
    FreshRespects(w, bp);
    var ok;
    ok, got := ReadAfterPushFront(list, bp, 1, 1, w);
    assert [97, 98, 99][1..2] == [98];
  }

  method HalfRead() returns (list: BufferList)
    ensures fresh(list) && World({list}) && list.CursorOk() && list.Content() == [97, 98, 99]
    ensures list.lastP.pos.At? && list.lastP.off == 1
  {
    hide Flat, Sum, World, Coherent, Usable, Start, Respects, Placed;
    list := new BufferList();
    ghost var w := {list};
    Alone(list);
    list.PushRaw([97, 98, 99], true, w);
    CursorBound(list, w);
    var ok, first := list.ReadThrough(0, 1, w);
    assert list.Content() == [97, 98, 99] && ok && list.lastP.off == 1;
    InsideList(list, w);
  }

  /** A placed cursor short of the end stands on a segment. */
  lemma InsideList(list: BufferList, w: set<BufferList>)
    requires list in w && World(w) && Placed(list.buffers, list.lastP) && list.lastP.off < |list.Content()|
    ensures list.lastP.pos.At?
  {
    hide Flat, Sum;
    FlatLength(list.buffers);
  }
}

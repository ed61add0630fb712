/**
 Reference counts: `buffer::ptr` objects and the blocks they keep alive. The arena is the ghost
 record of which pointers are live and which blocks exist.
 */
module RefCounts {
  import opened Bytes
  import opened Rope

  class Block {
    const bytes: seq<byte>
    const shareable: bool
    var nref: nat
    var deleted: bool

    constructor (bytes: seq<byte>, shareable: bool)
      ensures this.bytes == bytes && this.shareable == shareable && nref == 0 && !deleted
    {
      this.bytes, this.shareable, nref, deleted := bytes, shareable, 0, false;
    }
  }

  class Arena {
    ghost var live: set<Handle>
    ghost var blocks: set<Block>

    ghost constructor ()
      ensures live == {} && blocks == {} && Valid()
    {
      live, blocks := {}, {};
    }

    ghost function Users(b: Block): (s: set<Handle>)
      reads this`live, live`raw
    {
      set p <- live | p.raw == b
    }

    /** Every live pointer stays within an existing block. */
    ghost predicate Bounded()
      reads this, live
    {
      forall p <- live :: p.raw != null ==> p.raw in blocks && p.off + p.len <= |p.raw.bytes|
    }

    /** Counts are exact, but for one reference to `held` that nobody's field accounts for. */
    ghost predicate Counted(held: Block?)
      reads this, live`raw, blocks
    {
      forall b <- blocks ::
        && b.nref == |Users(b)| + (if b == held then 1 else 0)
        && (b.deleted <==> b.nref == 0)
    }

    /** Each block's count is the number of live pointers to it, and it is deleted exactly at zero. */
    ghost predicate Valid()
      reads this, live, blocks
    {
      Bounded() && Counted(null)
    }
  }

  lemma SameSize<T>(now: set<T>, before: set<T>, p: T, q: T)
    requires p in before && q !in before && now == before - {p} + {q}
    ensures |now| == |before|
  {
  }

  /** Two pointers exchange their blocks: the users of a block may change, their number does not. */
  twostate lemma SwapUsers(new p: Handle, new q: Handle, new b: Block, a: Arena)
    requires p in old(a.live) && q in old(a.live) && b in old(a.blocks) && a.live == old(a.live)
    requires p.raw == old(q.raw) && q.raw == old(p.raw)
    requires forall r <- a.live :: r != p && r != q ==> r.raw == old(r.raw)
    ensures |a.Users(b)| == |old(a.Users(b))|
  {
    var now, before := a.Users(b), old(a.Users(b));
    if p.raw == q.raw || (p.raw != b && q.raw != b) {
      assert now == before;
    } else if q.raw == b {
      assert now == before - {p} + {q};
      SameSize(now, before, p, q);
    } else {
      assert now == before - {q} + {p};
      SameSize(now, before, q, p);
    }
  }

  twostate lemma SwapCounted(new p: Handle, new q: Handle, a: Arena)
    requires old(a.Counted(null)) && p in old(a.live) && q in old(a.live)
    requires a.live == old(a.live) && a.blocks == old(a.blocks)
    requires p.raw == old(q.raw) && q.raw == old(p.raw)
    requires forall r <- a.live :: r != p && r != q ==> r.raw == old(r.raw)
    requires forall b <- a.blocks :: b.nref == old(b.nref)
    requires forall b <- a.blocks :: b.deleted == old(b.deleted)
    ensures a.Counted(null)
  {
    forall b <- a.blocks ensures |a.Users(b)| == |old(a.Users(b))| {
      SwapUsers(p, q, b, a);
    }
  }

  /** `buffer::ptr`. */
  class Handle {
    var raw: Block?
    var off: nat
    var len: nat

    /** What the pointer shows, if it points anywhere. */
    ghost function Value(): (v: Option<seq<byte>>)
      reads this
    {
      if raw != null && off + len <= |raw.bytes| then Some(raw.bytes[off..off + len]) else None
    }

    /** `ptr()`. */
    constructor Null(ghost a: Arena)
      requires a.Valid()
      modifies a`live
      ensures a.Valid() && a.live == old(a.live) + {this} && Value() == None
    {
      raw, off, len := null, 0, 0;
      new;
      Enter(a, null);
    }

    /** Joins the live pointers without pointing anywhere yet. */
    ghost method Enter(a: Arena, held: Block?)
      requires a.Bounded() && a.Counted(held) && this !in a.live && raw == null
      modifies a`live
      ensures a.live == old(a.live) + {this}
      ensures a.Bounded() && a.Counted(held)
    {
      a.live := a.live + {this};
      assert forall b <- a.blocks :: a.Users(b) == old(a.Users(b));
    }

    ghost method Leave(a: Arena)
      requires a.Valid() && raw == null
      modifies a`live
      ensures a.Valid() && a.live == old(a.live) - {this}
    {
      a.live := a.live - {this};
      assert forall b <- a.blocks :: a.Users(b) == old(a.Users(b));
    }

    /** `_raw = b`, with a reference that has been taken already. */
    method Attach(b: Block, o: nat, l: nat, ghost a: Arena)
      requires a.Bounded() && a.Counted(b) && this in a.live && raw == null
      requires b in a.blocks && o + l <= |b.bytes|
      modifies this
      ensures a.Valid() && raw == b && off == o && len == l
    {
      ghost var users := a.Users(b);
      raw, off, len := b, o, l;
      assert a.Users(b) == users + {this};
      assert forall c <- a.blocks :: c != b ==> a.Users(c) == old(a.Users(c));
    }

    /** `nref.inc()`. */
    method Hold(b: Block, ghost a: Arena)
      requires a.Valid() && b in a.blocks && !b.deleted
      modifies b`nref
      ensures a.Bounded() && a.Counted(b)
    {
      b.nref := b.nref + 1;
      assert forall c <- a.blocks :: a.Users(c) == old(a.Users(c));
    }

    /** `release()`: the last pointer to a block deletes it. */
    method Release(ghost held: Block?, ghost a: Arena)
      requires a.Bounded() && a.Counted(held) && this in a.live
      modifies this`raw, if raw != null then {raw} else {}
      ensures a.Bounded() && a.Counted(held) && raw == null
    {
      if raw != null {
        ghost var r, users := raw, a.Users(raw);
        assert this in users;
        raw.nref := raw.nref - 1;
        if raw.nref == 0 {
          raw.deleted := true;
        }
        raw := null;
        assert a.Users(r) == users - {this};
        assert forall c <- a.blocks :: c != r ==> a.Users(c) == old(a.Users(c));
      }
    }

    /** A new block with one reference to it held. */
    static method Create(bytes: seq<byte>, shareable: bool, ghost a: Arena) returns (b: Block)
      requires a.Valid()
      modifies a`blocks
      ensures fresh(b) && b.bytes == bytes && b.shareable == shareable
      ensures a.blocks == old(a.blocks) + {b} && a.Bounded() && a.Counted(b)
    {
      b := new Block(bytes, shareable);
      b.nref := 1;
      a.blocks := a.blocks + {b};
      assert a.Users(b) == {};
      assert forall c <- a.blocks :: c != b ==> a.Users(c) == old(a.Users(c));
    }

    // ---------- The operations ----------

    /** `ptr(data, len)`. */
    constructor New(data: seq<byte>, shareable: bool, ghost a: Arena)
      requires a.Valid()
      modifies a
      ensures a.Valid() && a.live == old(a.live) + {this} && Value() == Some(data)
      ensures raw != null && a.blocks == old(a.blocks) + {raw} && fresh(raw)
    {
      raw, off, len := null, 0, 0;
      new;
      var b := Create(data, shareable, a);
      Enter(a, b);
      Attach(b, 0, |data|, a);
      assert b.bytes[0..0 + |data|] == data;
    }

    /** The copy constructor. */
    constructor Copy(p: Handle, ghost a: Arena)
      requires a.Valid() && p in a.live
      modifies a`live, if p.raw != null then {p.raw} else {}
      ensures a.Valid() && a.live == old(a.live) + {this} && Value() == p.Value() && raw == p.raw
    {
      raw, off, len := null, 0, 0;
      new;
      hide Arena.Counted;
      if p.raw != null {
        NeverDangling(a, p);
        Hold(p.raw, a);
        Enter(a, p.raw);
        Attach(p.raw, p.off, p.len, a);
      } else {
        Enter(a, null);
      }
    }

    /** `ptr(p, o, l)`: the source asserts that `p` points somewhere and that the part lies inside it. */
    constructor Sub(p: Handle, o: nat, l: nat, ghost a: Arena)
      requires a.Valid() && p in a.live && p.raw != null && o + l <= p.len
      modifies a`live, p.raw
      ensures a.Valid() && a.live == old(a.live) + {this}
      ensures raw == p.raw && p.Value().Some? && o + l <= |p.Value().value|
      ensures Value() == Some(p.Value().value[o..o + l])
    {
      raw, off, len := null, 0, 0;
      new;
      hide Arena.Counted;
      NeverDangling(a, p);
      Hold(p.raw, a);
      Enter(a, p.raw);
      Attach(p.raw, p.off + o, l, a);
      PartValue(p, this, o, l);
    }

    /** `operator=`: the new reference is taken before the old one is dropped, so `p = p` is safe. */
    method Assign(p: Handle, ghost a: Arena)
      requires a.Valid() && this in a.live && p in a.live
      modifies this, (if raw != null then {raw} else {}), (if p.raw != null then {p.raw} else {})
      ensures a.Valid()
      ensures Value() == old(p.Value()) && raw == old(p.raw)
    {
      hide Arena.Counted;
      var b, o, l := p.raw, p.off, p.len;
      if b != null {
        NeverDangling(a, p);
        Hold(b, a);
        Release(b, a);
        Attach(b, o, l, a);
      } else {
        Release(null, a);
        off, len := 0, 0;
      }
    }

    method Swap(other: Handle, ghost a: Arena)
      requires a.Valid() && this in a.live && other in a.live
      modifies this, other
      ensures a.Valid()
      ensures Value() == old(other.Value()) && other.Value() == old(Value())
      ensures raw == old(other.raw) && other.raw == old(raw)
    {
      hide Arena.Counted;
      raw, other.raw := other.raw, raw;
      off, other.off := other.off, off;
      len, other.len := other.len, len;
      SwapCounted(this, other, a);
    }

    /** `make_shareable`: a block that may not be shared is left for a copy of it. */
    method MakeShareable(ghost a: Arena)
      requires a.Valid() && this in a.live
      modifies this, a`blocks, if raw != null then {raw} else {}
      ensures a.Valid() && Value() == old(Value())
      ensures raw != null ==> raw.shareable
      ensures a.blocks == old(a.blocks) || (raw != null && fresh(raw) && a.blocks == old(a.blocks) + {raw})
    {
      hide Arena.Counted;
      if raw != null && !raw.shareable {
        var o, l := off, len;
        var b := Create(raw.bytes, true, a);
        Release(b, a);
        Attach(b, o, l, a);
      }
    }

    /** The destructor. */
    method Destroy(ghost a: Arena)
      requires a.Valid() && this in a.live
      modifies this`raw, a`live, if raw != null then {raw} else {}
      ensures a.Valid() && a.live == old(a.live) - {this}
    {
      Release(null, a);
      Leave(a);
    }
  }

  lemma PartValue(p: Handle, q: Handle, o: nat, l: nat)
    requires p.raw != null && p.off + p.len <= |p.raw.bytes| && o + l <= p.len
    requires q.raw == p.raw && q.off == p.off + o && q.len == l
    ensures p.Value().Some? && o + l <= |p.Value().value| && q.Value() == Some(p.Value().value[o..o + l])
  {
    SliceOfSlice(p.raw.bytes, p.off, p.off + p.len, o, o + l);
  }

  /** A live pointer never points to a deleted block. */
  lemma NeverDangling(a: Arena, p: Handle)
    requires a.Valid() && p in a.live && p.raw != null
    ensures !p.raw.deleted && p.raw.nref >= 1 && p.Value().Some?
  {
    assert p in a.Users(p.raw);
  }

  // ---------- Any sequence of operations ----------

  datatype Op =
    | Blank
    | Make(data: seq<byte>, shareable: bool)
    | CopyOf(i: nat)
    | SubOf(i: nat, o: nat, l: nat)
    | Assigned(i: nat, j: nat)
    | Swapped(i: nat, j: nat)
    | Shared(i: nat)
    | Dropped(i: nat)

  type Values = seq<Option<seq<byte>>>

  /** What the source's assertions demand; any two operands may be the same pointer. */
  predicate Legal(op: Op, m: Values) {
    match op
    case Blank => true
    case Make(_, _) => true
    case CopyOf(i) => i < |m|
    case SubOf(i, o, l) => i < |m| && m[i].Some? && o + l <= |m[i].value|
    case Assigned(i, j) => i < |m| && j < |m|
    case Swapped(i, j) => i < |m| && j < |m|
    case Shared(i) => i < |m|
    case Dropped(i) => i < |m|
  }

  function Effect(op: Op, m: Values): (r: Values)
    requires Legal(op, m)
  {
    match op
    case Blank => m + [None]
    case Make(data, _) => m + [Some(data)]
    case CopyOf(i) => m + [m[i]]
    case SubOf(i, o, l) => m + [Some(m[i].value[o..o + l])]
    case Assigned(i, j) => m[i := m[j]]
    case Swapped(i, j) => m[i := m[j]][j := m[i]]
    case Shared(i) => m
    case Dropped(i) => m[..i] + m[i + 1..]
  }

  predicate LegalProgram(prog: seq<Op>, m: Values)
    decreases |prog|
  {
    prog == [] || (Legal(prog[0], m) && LegalProgram(prog[1..], Effect(prog[0], m)))
  }

  function Effects(prog: seq<Op>, m: Values): (r: Values)
    requires LegalProgram(prog, m)
    decreases |prog|
  {
    if prog == [] then m else Effects(prog[1..], Effect(prog[0], m))
  }

  predicate Distinct(ps: seq<Handle>) {
    forall i, j :: 0 <= i < j < |ps| ==> ps[i] != ps[j]
  }

  ghost function AsSet(ps: seq<Handle>): set<Handle> {
    set p <- ps
  }

  /** The counts are right, the live pointers are the ones listed, and each has its value. */
  ghost predicate Agree(ps: seq<Handle>, m: Values, a: Arena)
    reads a, ps, a.live, a.blocks
  {
    && |ps| == |m| && Distinct(ps) && a.live == AsSet(ps) && a.Valid()
    && forall i :: 0 <= i < |ps| ==> ps[i].Value() == m[i]
  }

  method DoBlank(ps: seq<Handle>, ghost m: Values, ghost a: Arena) returns (p: Handle)
    requires Agree(ps, m, a)
    modifies a, a.blocks
    ensures Agree(ps + [p], m + [None], a) && fresh(p) && fresh(a.blocks - old(a.blocks))
  {
    hide Arena.Valid;
    p := new Handle.Null(a);
  }

  method DoMake(ps: seq<Handle>, data: seq<byte>, shareable: bool, ghost m: Values, ghost a: Arena) returns (p: Handle)
    requires Agree(ps, m, a)
    modifies a, a.blocks
    ensures Agree(ps + [p], m + [Some(data)], a) && fresh(p) && fresh(a.blocks - old(a.blocks))
  {
    hide Arena.Valid;
    p := new Handle.New(data, shareable, a);
  }

  method DoCopyOf(ps: seq<Handle>, i: nat, ghost m: Values, ghost a: Arena) returns (p: Handle)
    requires Agree(ps, m, a) && i < |ps|
    modifies a, a.blocks
    ensures Agree(ps + [p], m + [m[i]], a) && fresh(p) && fresh(a.blocks - old(a.blocks))
  {
    hide Arena.Valid;
    LiveBlock(a, ps[i]);
    p := new Handle.Copy(ps[i], a);
  }

  method DoSubOf(ps: seq<Handle>, i: nat, o: nat, l: nat, ghost m: Values, ghost a: Arena) returns (p: Handle)
    requires Agree(ps, m, a) && i < |ps| && m[i].Some? && o + l <= |m[i].value|
    modifies a, a.blocks
    ensures Agree(ps + [p], m + [Some(m[i].value[o..o + l])], a) && fresh(p) && fresh(a.blocks - old(a.blocks))
  {
    hide Arena.Valid;
    LiveBlock(a, ps[i]);
    p := new Handle.Sub(ps[i], o, l, a);
  }

  method DoAssigned(ps: seq<Handle>, i: nat, j: nat, ghost m: Values, ghost a: Arena)
    requires Agree(ps, m, a) && i < |ps| && j < |ps|
    modifies a, AsSet(ps), a.blocks
    ensures Agree(ps, m[i := m[j]], a) && fresh(a.blocks - old(a.blocks))
  {
    hide Arena.Valid;
    LiveBlock(a, ps[i]);
    LiveBlock(a, ps[j]);
    ps[i].Assign(ps[j], a);
  }

  method DoSwapped(ps: seq<Handle>, i: nat, j: nat, ghost m: Values, ghost a: Arena)
    requires Agree(ps, m, a) && i < |ps| && j < |ps|
    modifies a, AsSet(ps), a.blocks
    ensures Agree(ps, m[i := m[j]][j := m[i]], a) && fresh(a.blocks - old(a.blocks))
  {
    hide Arena.Valid;
    LiveBlock(a, ps[i]);
    LiveBlock(a, ps[j]);
    ps[i].Swap(ps[j], a);
  }

  method DoShared(ps: seq<Handle>, i: nat, ghost m: Values, ghost a: Arena)
    requires Agree(ps, m, a) && i < |ps|
    modifies a, AsSet(ps), a.blocks
    ensures Agree(ps, m, a) && fresh(a.blocks - old(a.blocks))
  {
    hide Arena.Valid;
    LiveBlock(a, ps[i]);
    ps[i].MakeShareable(a);
  }

  method DoDropped(ps: seq<Handle>, i: nat, ghost m: Values, ghost a: Arena) returns (ps': seq<Handle>)
    requires Agree(ps, m, a) && i < |ps|
    modifies a, AsSet(ps), a.blocks
    ensures Agree(ps', m[..i] + m[i + 1..], a) && a.blocks == old(a.blocks) && AsSet(ps') <= AsSet(ps)
  {
    hide Arena.Valid;
    LiveBlock(a, ps[i]);
    ps[i].Destroy(a);
    ps' := ps[..i] + ps[i + 1..];
  }

  method Step(ps: seq<Handle>, op: Op, ghost m: Values, ghost a: Arena) returns (ps': seq<Handle>)
    requires Agree(ps, m, a) && Legal(op, m)
    modifies a, AsSet(ps), a.blocks
    ensures Agree(ps', Effect(op, m), a)
    ensures fresh(a.blocks - old(a.blocks)) && fresh(AsSet(ps') - AsSet(ps))
  {
    hide Agree;
    AgreeLength(ps, m, a);
    ps' := ps;
    var p;
    match op {
      case Blank =>
        p := DoBlank(ps, m, a);
        ps' := ps + [p];
        assert AsSet(ps') == AsSet(ps) + {p};
      case Make(data, shareable) =>
        p := DoMake(ps, data, shareable, m, a);
        ps' := ps + [p];
        assert AsSet(ps') == AsSet(ps) + {p};
      case CopyOf(i) =>
        p := DoCopyOf(ps, i, m, a);
        ps' := ps + [p];
        assert AsSet(ps') == AsSet(ps) + {p};
      case SubOf(i, o, l) =>
        p := DoSubOf(ps, i, o, l, m, a);
        ps' := ps + [p];
        assert AsSet(ps') == AsSet(ps) + {p};
      case Assigned(i, j) => DoAssigned(ps, i, j, m, a);
      case Swapped(i, j) => DoSwapped(ps, i, j, m, a);
      case Shared(i) => DoShared(ps, i, m, a);
      case Dropped(i) => ps' := DoDropped(ps, i, m, a);
    }
  }

  lemma AgreeLength(ps: seq<Handle>, m: Values, a: Arena)
    requires Agree(ps, m, a)
    ensures |ps| == |m|
  {
  }

  lemma LiveBlock(a: Arena, p: Handle)
    requires a.Valid() && p in a.live
    ensures p.raw != null ==> p.raw in a.blocks
  {
  }

  /**
   After any sequence of operations every pointer shows the bytes it should, every count is the
   number of live pointers, and exactly the blocks without any are deleted.
   */
  method Run(prog: seq<Op>) returns (ps: seq<Handle>, ghost a: Arena)
    requires LegalProgram(prog, [])
    ensures Agree(ps, Effects(prog, []), a)
  {
    hide Effect, Agree;
    a := new Arena();
    ps := [];
    ghost var m: Values := [];
    EmptyAgrees(a);
    assert prog[0..] == prog;
    for i := 0 to |prog|
      invariant Agree(ps, m, a) && fresh(a) && fresh(a.blocks) && fresh(AsSet(ps))
      invariant LegalProgram(prog[i..], m) && Effects(prog[i..], m) == Effects(prog, [])
    {
      assert prog[i..][1..] == prog[i + 1..];
      assert forall p <- ps :: p in AsSet(ps);
      ps := Step(ps, prog[i], m, a);
      m := Effect(prog[i], m);
    }
  }

  lemma EmptyAgrees(a: Arena)
    requires a.live == {} && a.Valid()
    ensures Agree([], [], a)
  {
  }
}

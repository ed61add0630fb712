/**
 The checksum as polynomial arithmetic over the two-element field. A polynomial is the set of its
 exponents, addition is the symmetric difference, and the generator is that of section 12.1 of RFC 3720
 and Appendix B of RFC 4960.
 */
module Crc32cPolynomial {
  import opened Bytes
  import opened Crc32c
  import opened Crc32cTables

  /** 0x1EDC6F41, with x^32 in front. */
  const GENERATOR: set<nat> := {32, 28, 27, 26, 25, 23, 22, 20, 19, 18, 14, 13, 11, 10, 9, 8, 6, 0}

  predicate InGenerator(e: nat) {
    e in GENERATOR
  }

  function Plus(a: set<nat>, b: set<nat>): (r: set<nat>) {
    (a - b) + (b - a)
  }

  /** The product with x^k. */
  function Up(a: set<nat>, k: nat): (r: set<nat>) {
    set e <- a :: e + k
  }

  /** The terms of `q` that contribute x^e to the product of `q` and the generator. */
  function Hits(q: set<nat>, e: nat): (r: set<nat>) {
    set d <- q | d <= e && InGenerator(e - d)
  }

  /** Whether that product has x^e. */
  predicate InProduct(q: set<nat>, e: nat) {
    |Hits(q, e)| % 2 == 1
  }

  /** `a` and `b` differ by `q` times the generator. */
  ghost predicate Congruent(a: set<nat>, b: set<nat>, q: set<nat>) {
    forall e: nat :: InProduct(q, e) <==> (e in a) != (e in b)
  }

  ghost predicate SameRemainder(a: set<nat>, b: set<nat>) {
    exists q :: Congruent(a, b, q)
  }

  // ---------- Congruences ----------

  lemma PlusParity(a: set<nat>, b: set<nat>)
    ensures |Plus(a, b)| % 2 == (|a| + |b|) % 2
  {
    assert |a| == |a - b| + |a * b| by {
      assert a == (a - b) + (a * b);
    }
    assert |b| == |b - a| + |a * b| by {
      assert b == (b - a) + (a * b);
    }
    assert |Plus(a, b)| == |a - b| + |b - a|;
  }

  lemma InUp(a: set<nat>, k: nat, e: nat)
    ensures e in Up(a, k) <==> e >= k && e - k in a
  {
    if e >= k && e - k in a {
      assert (e - k) + k == e;
    }
  }

  lemma {:induction false} UpSize(a: set<nat>, k: nat)
    ensures |Up(a, k)| == |a|
    decreases a
  {
    if a == {} {
      assert Up(a, k) == {};
    } else {
      var x :| x in a;
      UpSize(a - {x}, k);
      UpLess(a, k, x);
    }
  }

  lemma UpLess(a: set<nat>, k: nat, x: nat)
    requires x in a
    ensures Up(a, k) == Up(a - {x}, k) + {x + k} && x + k !in Up(a - {x}, k)
  {
    hide Up;
    InUp(a - {x}, k, x + k);
    forall e: nat ensures e in Up(a, k) <==> e in Up(a - {x}, k) + {x + k} {
      InUp(a, k, e);
      InUp(a - {x}, k, e);
    }
  }

  lemma CongruentRefl(a: set<nat>)
    ensures Congruent(a, a, {})
  {
    forall e: nat ensures !InProduct({}, e) {
      assert Hits({}, e) == {};
    }
  }

  lemma HitsPlus(p: set<nat>, q: set<nat>, e: nat)
    ensures InProduct(Plus(p, q), e) <==> InProduct(p, e) != InProduct(q, e)
  {
    hide InGenerator;
    assert Hits(Plus(p, q), e) == Plus(Hits(p, e), Hits(q, e));
    PlusParity(Hits(p, e), Hits(q, e));
  }

  lemma CongruentTrans(a: set<nat>, b: set<nat>, c: set<nat>, p: set<nat>, q: set<nat>)
    requires Congruent(a, b, p) && Congruent(b, c, q)
    ensures Congruent(a, c, Plus(p, q))
  {
    hide InProduct, Plus;
    forall e: nat ensures InProduct(Plus(p, q), e) <==> (e in a) != (e in c) {
      HitsPlus(p, q, e);
      assert InProduct(p, e) <==> (e in a) != (e in b);
      assert InProduct(q, e) <==> (e in b) != (e in c);
    }
  }

  lemma CongruentUp(a: set<nat>, b: set<nat>, q: set<nat>, k: nat)
    requires Congruent(a, b, q)
    ensures Congruent(Up(a, k), Up(b, k), Up(q, k))
  {
    forall e: nat ensures InProduct(Up(q, k), e) <==> (e in Up(a, k)) != (e in Up(b, k)) {
      if e < k {
        assert Hits(Up(q, k), e) == {};
      } else {
        var d: nat := e - k;
        HitsUp(q, k, d, e);
        UpSize(Hits(q, d), k);
        assert InProduct(q, d) <==> (d in a) != (d in b);
        assert e in Up(a, k) <==> d in a;
        assert e in Up(b, k) <==> d in b;
      }
    }
  }

  lemma HitsUp(q: set<nat>, k: nat, d: nat, e: nat)
    requires e == d + k
    ensures Hits(Up(q, k), e) == Up(Hits(q, d), k)
  {
    hide InGenerator;
    forall x | x in Hits(Up(q, k), e) ensures x in Up(Hits(q, d), k) {
      var y: nat := x - k;
      assert y in q && y in Hits(q, d);
    }
  }

  lemma CongruentPlus(a: set<nat>, b: set<nat>, c: set<nat>, q: set<nat>)
    requires Congruent(a, b, q)
    ensures Congruent(Plus(a, c), Plus(b, c), q)
  {
    forall e: nat ensures InProduct(q, e) <==> (e in Plus(a, c)) != (e in Plus(b, c)) {
      assert InProduct(q, e) <==> (e in a) != (e in b);
    }
  }

  lemma UpPlus(a: set<nat>, b: set<nat>, k: nat)
    ensures Up(Plus(a, b), k) == Plus(Up(a, k), Up(b, k))
  {
    forall e: nat ensures e in Up(Plus(a, b), k) <==> e in Plus(Up(a, k), Up(b, k)) {
      if e >= k {
        var d: nat := e - k;
        assert e in Up(a, k) <==> d in a;
        assert e in Up(b, k) <==> d in b;
        assert e in Up(Plus(a, b), k) <==> d in Plus(a, b);
      }
    }
  }

  lemma UpUp(a: set<nat>, j: nat, k: nat, n: nat)
    requires n == j + k
    ensures Up(Up(a, j), k) == Up(a, n)
  {
    forall e: nat ensures e in Up(Up(a, j), k) <==> e in Up(a, n) {
      if e >= n {
        var d: nat := e - n;
        assert e in Up(a, n) <==> d in a;
        assert d + j in Up(a, j) <==> d in a;
        assert e in Up(Up(a, j), k) <==> d + j in Up(a, j);
      }
    }
  }

  // ---------- Remainders are unique ----------

  lemma {:induction false} Largest(q: set<nat>) returns (m: nat)
    requires q != {}
    ensures m in q && forall d <- q :: d <= m
    decreases q
  {
    var x :| x in q;
    if q == {x} {
      m := x;
    } else {
      m := Largest(q - {x});
      assert forall d <- q :: d == x || d in q - {x};
      if m < x {
        m := x;
      }
    }
  }

  /** A product with the generator reaches degree 32. */
  lemma ProductHigh(q: set<nat>) returns (e: nat)
    requires q != {}
    ensures e >= 32 && InProduct(q, e)
  {
    var m := Largest(q);
    e := m + 32;
    assert Hits(q, e) == {m};
  }

  lemma NothingToTakeOut(a: set<nat>, b: set<nat>, q: set<nat>)
    requires Congruent(a, b, q)
    requires (forall e <- a :: e < 32) && (forall e <- b :: e < 32)
    ensures q == {}
  {
    hide InProduct;
    if q != {} {
      var e := ProductHigh(q);
      assert false;
    }
  }

  /** A polynomial has one remainder of degree below 32. */
  lemma RemainderUnique(a: set<nat>, b: set<nat>)
    requires SameRemainder(a, b)
    requires (forall e <- a :: e < 32) && (forall e <- b :: e < 32)
    ensures a == b
  {
    var q :| Congruent(a, b, q);
    NothingToTakeOut(a, b, q);
    forall e: nat ensures e in a <==> e in b {
      assert Hits(q, e) == {};
      assert InProduct(q, e) <==> (e in a) != (e in b);
    }
  }

  // ---------- The register ----------

  /** Bit `i` of the register is the coefficient of x^(31-i). */
  function Register(w: Word): (r: set<nat>) {
    set i | 0 <= i < 32 && w[i] :: 31 - i
  }

  lemma InRegister(w: Word, e: nat)
    ensures e in Register(w) <==> e < 32 && w[31 - e]
  {
    if e < 32 && w[31 - e] {
      assert 31 - (31 - e) == e;
    }
  }

  lemma RegisterXor(a: Word, b: Word)
    ensures Register(Xor(a, b)) == Plus(Register(a), Register(b))
  {
    forall e: nat ensures e in Register(Xor(a, b)) <==> e in Plus(Register(a), Register(b)) {
      InRegister(Xor(a, b), e);
      InRegister(a, e);
      InRegister(b, e);
    }
  }

  lemma PolyIsGenerator(e: nat)
    requires e < 32
    ensures POLY[31 - e] <==> e in GENERATOR
  {
  }

  lemma Shift1Term(c: Word, q: set<nat>, e: nat)
    requires q == if c[0] then {0} else {}
    ensures InProduct(q, e) <==> (e in Register(Shift1(c))) != (e in Up(Register(c), 1))
  {
    hide Register, Up;
    assert Hits(q, e) == if c[0] && InGenerator(e) then {0} else {};
    InRegister(Shift1(c), e);
    InUp(Register(c), 1, e);
    if e < 32 {
      PolyIsGenerator(e);
    }
    if e > 0 {
      InRegister(c, e - 1);
    }
  }

  /** One step multiplies by x and takes the generator out if x^32 appears. */
  lemma Shift1Poly(c: Word)
    ensures SameRemainder(Register(Shift1(c)), Up(Register(c), 1))
  {
    hide InProduct, Register, Up;
    var q: set<nat> := if c[0] then {0} else {};
    forall e: nat ensures InProduct(q, e) <==> (e in Register(Shift1(c))) != (e in Up(Register(c), 1)) {
      Shift1Term(c, q, e);
    }
    assert Congruent(Register(Shift1(c)), Up(Register(c), 1), q);
  }

  lemma SameTrans(a: set<nat>, b: set<nat>, c: set<nat>)
    requires SameRemainder(a, b) && SameRemainder(b, c)
    ensures SameRemainder(a, c)
  {
    hide Congruent;
    var p :| Congruent(a, b, p);
    var q :| Congruent(b, c, q);
    CongruentTrans(a, b, c, p, q);
  }

  lemma SameUp(a: set<nat>, b: set<nat>, k: nat)
    requires SameRemainder(a, b)
    ensures SameRemainder(Up(a, k), Up(b, k))
  {
    hide Congruent;
    var q :| Congruent(a, b, q);
    CongruentUp(a, b, q, k);
  }

  lemma SamePlus(a: set<nat>, b: set<nat>, c: set<nat>)
    requires SameRemainder(a, b)
    ensures SameRemainder(Plus(a, c), Plus(b, c))
  {
    hide Congruent;
    var q :| Congruent(a, b, q);
    CongruentPlus(a, b, c, q);
  }

  lemma SameSelf(a: set<nat>)
    ensures SameRemainder(a, a)
  {
    CongruentRefl(a);
  }

  /** `n` steps multiply by x^n, modulo the generator. */
  lemma {:induction false} ShiftPoly(c: Word, n: nat)
    ensures SameRemainder(Register(Shift(c, n)), Up(Register(c), n))
    decreases n
  {
    hide SameRemainder, Register, Up;
    ShiftMore(c, 0);
    if n == 0 {
      UpNone(Register(c));
      SameSelf(Register(c));
    } else {
      var m: nat := n - 1;
      ShiftMore(c, m);
      ShiftPoly(Shift1(c), m);
      Shift1Poly(c);
      SameUp(Register(Shift1(c)), Up(Register(c), 1), m);
      UpUp(Register(c), 1, m, n);
      SameTrans(Register(Shift(c, n)), Up(Register(Shift1(c)), m), Up(Register(c), n));
    }
  }

  lemma UpNone(a: set<nat>)
    ensures Up(a, 0) == a
  {
    hide Up;
    forall e: nat ensures e in Up(a, 0) <==> e in a {
      InUp(a, 0, e);
    }
  }

  // ---------- Bytes ----------

  /** The first bit sent, which is the lowest, is the highest coefficient. */
  function BytePoly(b: byte): (r: set<nat>) {
    set i | 0 <= i < 8 && Pow2(i) > 0 && b / Pow2(i) % 2 == 1 :: 7 - i
  }

  /** The polynomial of a byte string: x^8 times what comes before, plus the last byte. */
  function MessagePoly(data: seq<byte>): (r: set<nat>) {
    if data == [] then {}
    else Plus(Up(MessagePoly(data[..|data| - 1]), 8), BytePoly(data[|data| - 1]))
  }

  lemma InBytePoly(b: byte, d: nat)
    ensures d in BytePoly(b) <==> d < 8 && Bits(b, 8)[7 - d]
  {
    if d < 8 {
      BitsByDivision(b, 8, 7 - d);
      assert 7 - (7 - d) == d;
    }
  }

  lemma BytesRegister(b: byte)
    ensures Register(FromByte(b)) == Up(BytePoly(b), 24)
  {
    hide Register, Up, BytePoly;
    forall e: nat ensures e in Register(FromByte(b)) <==> e in Up(BytePoly(b), 24) {
      InRegister(FromByte(b), e);
      InUp(BytePoly(b), 24, e);
      if e >= 24 {
        InBytePoly(b, e - 24);
      }
    }
  }

  /** One byte of the bytewise loop. */
  lemma StepPoly(crc: Word, b: byte)
    ensures SameRemainder(Register(Step(crc, b)), Plus(Up(Register(crc), 8), Up(BytePoly(b), 32)))
  {
    hide SameRemainder, Register, Up, Plus, BytePoly;
    var x := Xor(crc, FromByte(b));
    StepIsShift(crc, b);
    ShiftPoly(x, 8);
    RegisterXor(crc, FromByte(b));
    BytesRegister(b);
    UpPlus(Register(crc), Up(BytePoly(b), 24), 8);
    UpUp(BytePoly(b), 24, 8, 32);
  }

  /**
   The bytewise checksum is polynomial division: modulo the generator, the register holds its initial
   value times x^8 for each byte, plus the message times x^32.
   */
  lemma {:induction false} CrcPoly(v: Word, data: seq<byte>, bits: nat)
    requires bits == 8 * |data|
    ensures SameRemainder(Register(Crc(v, data)), Plus(Up(Register(v), bits), Up(MessagePoly(data), 32)))
    decreases |data|
  {
    hide SameRemainder, Register, Up, Plus, BytePoly, Crc, Step;
    if data == [] {
      CrcOf(v, data);
      UpNone(Register(v));
      UpOfNothing(32);
      PlusNothing(Register(v));
      SameSelf(Register(v));
    } else {
      var front, last, fewer: nat := data[..|data| - 1], data[|data| - 1], bits - 8;
      var c := Crc(v, front);
      assert data == front + [last];
      CrcConcat(v, front, [last]);
      CrcOf(c, [last]);
      CrcPoly(v, front, fewer);
      StepPoly(c, last);
      var was := Plus(Up(Register(v), fewer), Up(MessagePoly(front), 32));
      SameUp(Register(c), was, 8);
      SamePlus(Up(Register(c), 8), Up(was, 8), Up(BytePoly(last), 32));
      SameTrans(Register(Step(c, last)), Plus(Up(Register(c), 8), Up(BytePoly(last), 32)),
                Plus(Up(was, 8), Up(BytePoly(last), 32)));
      Horner(Register(v), MessagePoly(front), BytePoly(last), fewer, bits);
    }
  }

  lemma CrcOf(v: Word, data: seq<byte>)
    ensures data == [] ==> Crc(v, data) == v
    ensures |data| == 1 ==> Crc(v, data) == Step(v, data[0])
  {
    if |data| == 1 {
      assert data[1..] == [];
      assert Crc(Step(v, data[0]), []) == Step(v, data[0]);
    }
  }

  lemma UpOfNothing(k: nat)
    ensures Up({}, k) == {}
  {
  }

  lemma PlusNothing(a: set<nat>)
    ensures Plus(a, {}) == a
  {
  }

  lemma PlusAssoc(a: set<nat>, b: set<nat>, c: set<nat>)
    ensures Plus(Plus(a, b), c) == Plus(a, Plus(b, c))
  {
  }

  lemma Horner(r: set<nat>, m: set<nat>, b: set<nat>, fewer: nat, bits: nat)
    requires bits == fewer + 8
    ensures Plus(Up(Plus(Up(r, fewer), Up(m, 32)), 8), Up(b, 32)) == Plus(Up(r, bits), Up(Plus(Up(m, 8), b), 32))
  {
    hide Up, Plus;
    UpPlus(Up(r, fewer), Up(m, 32), 8);
    UpUp(r, fewer, 8, bits);
    UpUp(m, 32, 8, 40);
    UpUp(m, 8, 32, 40);
    UpPlus(Up(m, 8), b, 32);
    PlusAssoc(Up(r, bits), Up(m, 40), Up(b, 32));
  }

  /**
   The checksum from zero is the remainder of the message times x^32: of degree below 32, congruent to
   it, and the only polynomial that is both.
   */
  lemma CrcIsRemainder(data: seq<byte>, r: set<nat>)
    ensures r == Register(Crc(Zero(), data)) <==>
            (forall e <- r :: e < 32) && SameRemainder(r, Up(MessagePoly(data), 32))
  {
    hide SameRemainder, Up, Crc, MessagePoly;
    var mine, target := Register(Crc(Zero(), data)), Up(MessagePoly(data), 32);
    CrcPoly(Zero(), data, 8 * |data|);
    assert Register(Zero()) == {};
    UpOfNothing(8 * |data|);
    assert Plus({}, target) == target;
    if (forall e <- r :: e < 32) && SameRemainder(r, target) {
      SameSymmetric(mine, target);
      SameTrans(r, target, mine);
      RemainderUnique(r, mine);
    }
  }

  lemma SameSymmetric(a: set<nat>, b: set<nat>)
    requires SameRemainder(a, b)
    ensures SameRemainder(b, a)
  {
    hide InProduct;
    var q :| Congruent(a, b, q);
    assert Congruent(b, a, q);
  }
}

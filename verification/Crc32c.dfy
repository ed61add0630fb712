/**
 CRC-32C as the repository computes it: no initial and no final complement, least
 significant bit first, polynomial 0x82F63B78 (the reflected 0x1EDC6F41 of section 12.1
 of RFC 3720 and Appendix B of RFC 4960).

 A `uint32_t` is the sequence of its 32 bits, bit 0 first, so that `^`, `>>` and `&` are
 position-wise. Everything rests on one function, `Shift`, that runs the shift register for
 a number of bits: the lookup tables, the bytewise loop and the slicing-by-8 loop are all
 expressed in it, and its laws (additive in the bit count, linear over xor, injective) give
 the properties of the checksum.
 */
module Crc32c {
  import opened Bytes

  // ---------- 32-bit words ----------

  type Word = w: seq<bool> | |w| == 32 witness seq(32, _ => false)

  function Zero(): (r: Word)
  {
    seq(32, _ => false)
  }

  /** `a ^ b` */
  function Xor(a: Word, b: Word): (r: Word)
  {
    seq(32, i requires 0 <= i < 32 => a[i] != b[i])
  }

  /** `a >> n` */
  function Shr(a: Word, n: nat): (r: Word)
  {
    seq(32, i requires 0 <= i < 32 => i + n < 32 && a[i + n])
  }

  /** `a << n` */
  function Shl(a: Word, n: nat): (r: Word)
  {
    seq(32, i requires 0 <= i < 32 => i >= n && a[i - n])
  }

  /** `a & 0xFF` */
  function Low8(a: Word): (r: Word)
  {
    seq(32, i requires 0 <= i < 32 => i < 8 && a[i])
  }

  function Pow2(n: nat): (p: nat)
  {
    if n == 0 then 1 else 2 * Pow2(n - 1)
  }

  /** The `n` low bits of `x`, bit 0 first. */
  function Bits(x: nat, n: nat): (r: seq<bool>)
    ensures |r| == n
    decreases n, x
  {
    if n == 0 then [] else [x % 2 == 1] + Bits(x / 2, n - 1)
  }

  /** A byte promoted to 32 bits. */
  function FromByte(b: byte): (r: Word)
  {
    seq(32, i requires 0 <= i < 32 => i < 8 && Bits(b, 8)[i])
  }

  /** A load of up to four bytes from little-endian memory. */
  function Load(data: seq<byte>): (r: Word)
    decreases |data|
  {
    if data == [] then Zero() else Xor(FromByte(data[0]), Shl(Load(data[1..]), 8))
  }

  lemma XorLaws(a: Word, b: Word, c: Word)
    ensures Xor(a, b) == Xor(b, a)
    ensures Xor(Xor(a, b), c) == Xor(a, Xor(b, c))
    ensures Xor(a, a) == Zero()
    ensures Xor(a, Zero()) == a
    ensures Xor(Xor(a, b), b) == a
  {
  }

  lemma {:induction false} BitsInjective(x: nat, y: nat, n: nat)
    requires x < Pow2(n) && y < Pow2(n) && Bits(x, n) == Bits(y, n)
    ensures x == y
  {
    if n > 0 {
      assert Bits(x, n)[0] == Bits(y, n)[0];
      assert Bits(x, n)[1..] == Bits(x / 2, n - 1);
      assert Bits(y, n)[1..] == Bits(y / 2, n - 1);
      BitsInjective(x / 2, y / 2, n - 1);
    }
  }

  lemma ByteBitsInjective(a: byte, b: byte)
    requires Bits(a, 8) == Bits(b, 8)
    ensures a == b
  {
    assert Pow2(8) == 0x100;
    BitsInjective(a, b, 8);
  }

  // ---------- The shift register ----------

  /** The bits of 0x82F63B78. */
  const POLY: Word :=
    [false, false, false, true, true, true, true, false,   // 0x78
     true, true, false, true, true, true, false, false,    // 0x3B
     false, true, true, false, true, true, true, true,     // 0xF6
     false, true, false, false, false, false, false, true] // 0x82

  /** One step of the reflected register: `(c >> 1) ^ (c & 1 ? POLY : 0)`. */
  function Shift1(c: Word): (r: Word)
  {
    seq(32, i requires 0 <= i < 32 => (i < 31 && c[i + 1]) != (c[0] && POLY[i]))
  }

  /** `n` steps of the register. */
  function Shift(c: Word, n: nat): (r: Word)
    decreases n, c
  {
    if n == 0 then c else Shift(Shift1(c), n - 1)
  }

  lemma Shift1Xor(a: Word, b: Word)
    ensures Shift1(Xor(a, b)) == Xor(Shift1(a), Shift1(b))
  {
  }

  lemma {:induction false} ShiftXor(a: Word, b: Word, n: nat)
    ensures Shift(Xor(a, b), n) == Xor(Shift(a, n), Shift(b, n))
    decreases n
  {
    if n > 0 {
      Shift1Xor(a, b);
      ShiftXor(Shift1(a), Shift1(b), n - 1);
    }
  }

  lemma {:induction false} ShiftAdd(c: Word, m: nat, n: nat, total: nat)
    requires total == m + n
    ensures Shift(Shift(c, m), n) == Shift(c, total)
    decreases m
  {
    if m > 0 {
      ShiftAdd(Shift1(c), m - 1, n, total - 1);
    }
  }

  lemma Shift1Injective(a: Word, b: Word)
    requires Shift1(a) == Shift1(b)
    ensures a == b
  {
    assert Shift1(a)[31] == a[0] && Shift1(b)[31] == b[0];
    forall i | 1 <= i < 32 ensures a[i] == b[i] {
      assert Shift1(a)[i - 1] == Shift1(b)[i - 1];
    }
  }

  lemma {:induction false} ShiftInjective(a: Word, b: Word, n: nat)
    requires Shift(a, n) == Shift(b, n)
    ensures a == b
    decreases n
  {
    if n > 0 {
      ShiftInjective(Shift1(a), Shift1(b), n - 1);
      Shift1Injective(a, b);
    }
  }

  /** A word whose low `n` bits are clear meets the polynomial nowhere in `n` steps. */
  lemma {:induction false} ShiftClear(c: Word, n: nat)
    requires n <= 32 && forall i :: 0 <= i < n ==> !c[i]
    ensures Shift(c, n) == Shr(c, n)
    decreases n
  {
    if n == 0 {
      assert Shr(c, 0) == c;
    } else {
      var d := Shift1(c);
      assert d == Shr(c, 1);
      ShiftClear(d, n - 1);
      assert Shr(d, n - 1) == Shr(c, n);
    }
  }

  /** Eight steps shift the high bytes down and fold the low byte in from its own image. */
  lemma ShiftByte(c: Word)
    ensures Shift(c, 8) == Xor(Shr(c, 8), Shift(Low8(c), 8))
  {
    var high := Xor(c, Low8(c));
    assert c == Xor(high, Low8(c));
    ShiftXor(high, Low8(c), 8);
    ShiftClear(high, 8);
    assert Shr(high, 8) == Shr(c, 8);
  }

  // ---------- The lookup tables ----------

  /** Entry `i` of the byte table. */
  function ByteTable(i: Word): (r: Word)
  {
    Shift(i, 8)
  }

  /**
   Entry `i` of the k-th slicing table. Table 0 is the byte table; each further table pushes
   the previous one through one more zero byte.
   */
  function Table(k: nat, i: Word): (r: Word)
    decreases k, i
  {
    if k == 0 then ByteTable(i) else
    var t := Table(k - 1, i);
    Xor(Shr(t, 8), ByteTable(Low8(t)))
  }

  lemma TableStep(k: nat, i: Word)
    requires k > 0
    ensures Table(k, i) == Shift(Table(k - 1, i), 8)
  {
    var t := Table(k - 1, i);
    ShiftByte(t);
  }

  /** Table k runs the register for k + 1 bytes. */
  lemma {:induction false} TableIsShift(k: nat, i: Word, n: nat)
    requires n == 8 * k + 8
    ensures Table(k, i) == Shift(i, n)
    decreases k
  {
    if k > 0 {
      var j: nat, m: nat := k - 1, n - 8;
      TableIsShift(j, i, m);
      TableStep(k, i);
      ShiftAdd(i, m, 8, n);
    }
  }

  // ---------- The bytewise checksum ----------

  /** The body of the bytewise loop: `(crc >> 8) ^ table[(crc & 0xFF) ^ b]`. */
  function Step(crc: Word, b: byte): (r: Word)
  {
    Xor(Shr(crc, 8), ByteTable(Xor(Low8(crc), FromByte(b))))
  }

  /** The bytewise loop: the reference every other form is measured against. */
  function Crc(crc: Word, data: seq<byte>): (r: Word)
    decreases |data|
  {
    if data == [] then crc else Crc(Step(crc, data[0]), data[1..])
  }

  lemma StepIsShift(crc: Word, b: byte)
    ensures Step(crc, b) == Shift(Xor(crc, FromByte(b)), 8)
  {
    var x := Xor(crc, FromByte(b));
    ShiftByte(x);
    assert Shr(x, 8) == Shr(crc, 8);
    assert Low8(x) == Xor(Low8(crc), FromByte(b));
  }

  /** Checksumming in two pieces is checksumming the whole. */
  lemma {:induction false} CrcConcat(crc: Word, a: seq<byte>, b: seq<byte>)
    ensures Crc(crc, a + b) == Crc(Crc(crc, a), b)
    decreases |a|
  {
    if a == [] {
      assert a + b == b;
    } else {
      assert (a + b)[1..] == a[1..] + b;
      CrcConcat(Step(crc, a[0]), a[1..], b);
    }
  }

  /** Two registers fed the same byte differ as one register fed a zero byte. */
  lemma StepXor(v: Word, w: Word, b: byte)
    ensures Xor(Step(v, b), Step(w, b)) == Step(Xor(v, w), 0)
  {
    var c := FromByte(b);
    var p, q, r := Xor(v, c), Xor(w, c), Xor(Xor(v, w), FromByte(0));
    assert r == Xor(p, q) by {
      ZeroByte();
    }
    assert Shift(r, 8) == Xor(Shift(p, 8), Shift(q, 8)) by {
      ShiftXor(p, q, 8);
    }
    StepIsShift(v, b);
    StepIsShift(w, b);
    StepIsShift(Xor(v, w), 0);
  }

  lemma ZeroByte()
    ensures FromByte(0) == Zero()
  {
    forall n: nat ensures forall i :: 0 <= i < n ==> !Bits(0, n)[i] {
      ZeroBits(n);
    }
  }

  lemma {:induction false} ZeroBits(n: nat)
    ensures forall i :: 0 <= i < n ==> !Bits(0, n)[i]
  {
    if n > 0 {
      ZeroBits(n - 1);
    }
  }

  /**
   The checksum is affine in its initial value: a checksum computed from `v` is converted to
   one from `w` by the checksum of zeros of the same length, started at `v ^ w`.
   */
  lemma {:induction false} CrcAffine(v: Word, w: Word, data: seq<byte>)
    ensures Crc(w, data) == Xor(Crc(v, data), Crc(Xor(v, w), Zeros(|data|)))
    decreases |data|
  {
    if data == [] {
      XorLaws(v, v, w);
      XorLaws(w, Zero(), Zero());
    } else {
      assert Zeros(|data|)[1..] == Zeros(|data| - 1);
      StepXor(v, w, data[0]);
      CrcAffine(Step(v, data[0]), Step(w, data[0]), data[1..]);
    }
  }

  /** Different initial values are never confused by checksumming the same bytes. */
  lemma {:induction false} CrcInjectiveInInit(v: Word, w: Word, data: seq<byte>)
    requires Crc(v, data) == Crc(w, data)
    ensures v == w
    decreases |data|
  {
    if data != [] {
      var b := FromByte(data[0]);
      CrcInjectiveInInit(Step(v, data[0]), Step(w, data[0]), data[1..]);
      StepIsShift(v, data[0]);
      StepIsShift(w, data[0]);
      ShiftInjective(Xor(v, b), Xor(w, b), 8);
      XorLaws(v, b, b);
      XorLaws(w, b, b);
    }
  }

  // ---------- Several bytes at once ----------

  /** A load of n bytes leaves the bits above them clear. */
  lemma {:induction false} LoadClear(data: seq<byte>)
    ensures forall i :: 8 * |data| <= i < 32 ==> !Load(data)[i]
    decreases |data|
  {
    if data != [] {
      LoadClear(data[1..]);
    }
  }

  lemma {:induction false} LoadInjective(a: seq<byte>, b: seq<byte>)
    requires |a| == |b| <= 4 && Load(a) == Load(b)
    ensures a == b
    decreases |a|
  {
    if a != [] {
      var s, t := Load(a[1..]), Load(b[1..]);
      LoadClear(a[1..]);
      LoadClear(b[1..]);
      forall i | 0 <= i < 32 ensures s[i] == t[i] {
        if i < 24 {
          assert Load(a)[i + 8] == s[i] && Load(b)[i + 8] == t[i];
        }
      }
      LoadInjective(a[1..], b[1..]);
      forall i | 0 <= i < 8 ensures Bits(a[0], 8)[i] == Bits(b[0], 8)[i] {
        assert Load(a)[i] == Bits(a[0], 8)[i] && Load(b)[i] == Bits(b[0], 8)[i];
      }
      ByteBitsInjective(a[0], b[0]);
    }
  }

  /** A word absorbed after a byte could have been absorbed with it, one byte higher. */
  lemma AbsorbEarlier(c: Word, d: Word)
    requires forall i :: 24 <= i < 32 ==> !d[i]
    ensures Xor(Shift(c, 8), d) == Shift(Xor(c, Shl(d, 8)), 8)
  {
    ShiftXor(c, Shl(d, 8), 8);
    ShiftClear(Shl(d, 8), 8);
    assert Shr(Shl(d, 8), 8) == d;
  }

  lemma StepAbsorb(crc: Word, b: byte, d: Word, m: nat, n: nat)
    requires n == 8 + m
    requires forall i :: 24 <= i < 32 ==> !d[i]
    ensures Shift(Xor(Step(crc, b), d), m) == Shift(Xor(crc, Xor(FromByte(b), Shl(d, 8))), n)
  {
    var x := Xor(crc, FromByte(b));
    StepIsShift(crc, b);
    AbsorbEarlier(x, d);
    ShiftAdd(Xor(x, Shl(d, 8)), 8, m, n);
    XorLaws(crc, FromByte(b), Shl(d, 8));
  }

  /** Up to four bytes are absorbed as one little-endian word. */
  lemma {:induction false} CrcLoad(crc: Word, data: seq<byte>, n: nat)
    requires |data| <= 4 && n == 8 * |data|
    ensures Crc(crc, data) == Shift(Xor(crc, Load(data)), n)
    decreases |data|
  {
    if data == [] {
      XorLaws(crc, Zero(), Zero());
    } else {
      var next, rest, m: nat := Step(crc, data[0]), data[1..], n - 8;
      CrcLoad(next, rest, m);
      LoadClear(rest);
      StepAbsorb(crc, data[0], Load(rest), m, n);
    }
  }

  /** The register's image of a word, one byte at a time. */
  lemma PeelByte(x: Word, m: nat, n: nat)
    requires n == m + 8
    ensures Shift(x, n) == Xor(Shift(Low8(x), n), Shift(Shr(x, 8), m))
  {
    var s, t := Shift(Low8(x), 8), Shr(x, 8);
    assert Shift(x, n) == Shift(Xor(t, s), m) by {
      ShiftByte(x);
      ShiftAdd(x, 8, m, n);
    }
    assert Shift(Xor(t, s), m) == Xor(Shift(s, m), Shift(t, m)) by {
      ShiftXor(t, s, m);
      XorLaws(Shift(t, m), Shift(s, m), Zero());
    }
    ShiftAdd(Low8(x), 8, m, n);
  }

  /** Four table lookups, at tables t + 3 down to t, as both halves of the 8-byte loop do them. */
  function Lookup4(x: Word, t: nat): (r: Word)
  {
    var term1 := Xor(Table(t + 3, Low8(x)), Table(t + 2, Low8(Shr(x, 8))));
    var term2 := Shr(x, 16);
    Xor(Xor(term1, Table(t + 1, Low8(term2))), Table(t, Low8(Shr(term2, 8))))
  }

  lemma PeelWord(x: Word, n1: nat, n2: nat, n3: nat, n4: nat)
    requires n4 == n3 + 8 && n3 == n2 + 8 && n2 == n1 + 8 && n1 >= 8
    ensures Shift(x, n4) ==
            Xor(Xor(Xor(Shift(Low8(x), n4), Shift(Low8(Shr(x, 8)), n3)),
                    Shift(Low8(Shr(x, 16)), n2)), Shift(Low8(Shr(Shr(x, 16), 8)), n1))
  {
    var x1, x2, x3 := Shr(x, 8), Shr(x, 16), Shr(Shr(x, 16), 8);
    assert Shr(x1, 8) == x2;
    assert Low8(x3) == x3;
    PeelByte(x, n3, n4);
    PeelByte(x1, n2, n3);
    PeelByte(x2, n1, n2);
    XorRegroup(Shift(Low8(x), n4), Shift(Low8(x1), n3), Shift(Low8(x2), n2), Shift(x3, n1));
  }

  lemma XorRegroup(a: Word, b: Word, c: Word, d: Word)
    ensures Xor(a, Xor(b, Xor(c, d))) == Xor(Xor(Xor(a, b), c), d)
  {
  }

  lemma LookupHigh(x: Word)
    ensures Lookup4(x, 4) == Shift(x, 64)
  {
    TableIsShift(7, Low8(x), 64);
    TableIsShift(6, Low8(Shr(x, 8)), 56);
    TableIsShift(5, Low8(Shr(x, 16)), 48);
    TableIsShift(4, Low8(Shr(Shr(x, 16), 8)), 40);
    PeelWord(x, 40, 48, 56, 64);
  }

  lemma LookupLow(x: Word)
    ensures Lookup4(x, 0) == Shift(x, 32)
  {
    TableIsShift(3, Low8(x), 32);
    TableIsShift(2, Low8(Shr(x, 8)), 24);
    TableIsShift(1, Low8(Shr(x, 16)), 16);
    TableIsShift(0, Low8(Shr(Shr(x, 16), 8)), 8);
    PeelWord(x, 8, 16, 24, 32);
  }

  /** The 8-byte step of the slicing loop is eight steps of the bytewise loop. */
  lemma SliceIsCrc(crc: Word, lo: seq<byte>, hi: seq<byte>, x: Word, y: Word)
    requires |lo| == |hi| == 4 && x == Xor(crc, Load(lo)) && y == Load(hi)
    ensures Xor(Lookup4(x, 4), Lookup4(y, 0)) == Crc(crc, lo + hi)
  {
    var mid := Shift(x, 32);
    LookupHigh(x);
    LookupLow(y);
    CrcConcat(crc, lo, hi);
    CrcLoad(crc, lo, 32);
    CrcLoad(mid, hi, 32);
    ShiftXor(mid, y, 32);
    ShiftAdd(x, 32, 32, 64);
  }

  /**
   Error detection: two byte strings of equal length that differ only inside a window of at
   most four bytes never have the same checksum.
   */
  lemma CrcDetectsBurst(crc: Word, prefix: seq<byte>, a: seq<byte>, b: seq<byte>, suffix: seq<byte>)
    requires |a| == |b| <= 4 && a != b
    ensures Crc(crc, prefix + a + suffix) != Crc(crc, prefix + b + suffix)
  {
    if Crc(crc, prefix + a + suffix) == Crc(crc, prefix + b + suffix) {
      var c := Crc(crc, prefix);
      CrcConcat(crc, prefix + a, suffix);
      CrcConcat(crc, prefix + b, suffix);
      CrcConcat(crc, prefix, a);
      CrcConcat(crc, prefix, b);
      CrcInjectiveInInit(Crc(c, a), Crc(c, b), suffix);
      CrcLoad(c, a, 8 * |a|);
      CrcLoad(c, b, 8 * |a|);
      ShiftInjective(Xor(c, Load(a)), Xor(c, Load(b)), 8 * |a|);
      XorLaws(Load(a), c, Zero());
      XorLaws(Load(b), c, Zero());
      LoadInjective(a, b);
    }
  }
}

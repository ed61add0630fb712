/**
 Words as numbers, and the eight literal tables of the repository. A table is additive in its index,
 so its entries at the powers of two fix it, and those are proved to be the numbers the repository
 holds.
 */
module Crc32cTables {
  import opened Bytes
  import opened Arith
  import opened Crc32c

  // ---------- Words as numbers ----------

  function Mask(i: nat): (k: bv32)
    requires i < 32
  {
    (1 as bv32) << i
  }

  /** The word a 32-bit number is. */
  function Number(x: bv32): (w: Word) {
    seq(32, i requires 0 <= i < 32 => x & Mask(i) != 0)
  }

  lemma MaskSingle(i: nat)
    requires i < 32
    ensures Mask(i) & (Mask(i) - 1) == 0
  {
  }

  lemma MaskLow(i: nat)
    requires i < 31
    ensures Mask(i) < 0x8000_0000
  {
  }

  lemma MaskNext(i: nat)
    requires i < 31
    ensures Mask(i) << 1 == Mask(i + 1)
  {
  }

  lemma BitOfHalf(x: bv32, k: bv32, next: bv32)
    requires k < 0x8000_0000 && next == k << 1
    ensures ((x >> 1) & k != 0) == (x & next != 0)
  {
  }

  lemma BitOfXor(x: bv32, y: bv32, k: bv32)
    requires k & (k - 1) == 0
    ensures ((x ^ y) & k != 0) == ((x & k != 0) != (y & k != 0))
  {
  }

  lemma HalfNumber(x: bv32, i: nat)
    requires i < 32
    ensures Number(x >> 1)[i] == (i < 31 && Number(x)[i + 1])
  {
    if i < 31 {
      HalfAt(x, x >> 1, i, Mask(i), Mask(i + 1));
    } else {
      HalfTop(x, x >> 1, Mask(31));
    }
  }

  lemma HalfAt(x: bv32, h: bv32, i: nat, k: bv32, next: bv32)
    requires i < 31 && h == x >> 1 && k == Mask(i) && next == Mask(i + 1)
    ensures Number(h)[i] == Number(x)[i + 1]
  {
    hide Mask, Number;
    NumberBit(h, i, k);
    NumberBit(x, i + 1, next);
    HalfMasks(x, i, k, next);
  }

  lemma NumberBit(x: bv32, i: nat, k: bv32)
    requires i < 32 && k == Mask(i)
    ensures Number(x)[i] == (x & k != 0)
  {
    hide Mask;
  }

  lemma HalfMasks(x: bv32, i: nat, k: bv32, next: bv32)
    requires i < 31 && k == Mask(i) && next == Mask(i + 1)
    ensures ((x >> 1) & k != 0) == (x & next != 0)
  {
    hide Mask;
    MaskLow(i);
    MaskNext(i);
    BitOfHalf(x, k, next);
  }

  lemma HalfTop(x: bv32, h: bv32, k: bv32)
    requires h == x >> 1 && k == Mask(31)
    ensures !Number(h)[31]
  {
  }

  lemma XorNumber(x: bv32, y: bv32, i: nat)
    requires i < 32
    ensures Number(x ^ y)[i] == (Number(x)[i] != Number(y)[i])
  {
    hide Mask;
    MaskSingle(i);
    BitOfXor(x, y, Mask(i));
  }

  // ---------- The polynomial ----------

  lemma PolyIsNumber()
    ensures POLY == Number(0x82F63B78)
  {
    assert forall i :: 0 <= i < 32 ==> POLY[i] == Number(0x82F63B78)[i];
  }

  /** The register's polynomial is the generator 0x1EDC6F41 of section 12.1 of RFC 3720, bit-reversed. */
  lemma PolyIsGenerator(i: nat)
    requires i < 32
    ensures POLY[i] == Number(0x1EDC6F41)[31 - i]
  {
  }

  // ---------- One step of the register, on numbers ----------

  /** `(x >> 1) ^ (x & 1 ? 0x82F63B78 : 0)` */
  function NumShift(x: bv32): (y: bv32) {
    if x & 1 == 0 then x >> 1 else (x >> 1) ^ 0x82F63B78
  }

  lemma LowBit(x: bv32)
    ensures Number(x)[0] == (x & 1 != 0)
  {
  }

  lemma NumShiftCases(x: bv32, odd: bool, h: bv32, y: bv32)
    requires odd == Number(x)[0] && h == x >> 1 && y == h ^ 0x82F63B78
    ensures NumShift(x) == if odd then y else h
  {
    hide Number;
    LowBit(x);
  }

  lemma ShiftBit(x: bv32, odd: bool, h: bv32, y: bv32, i: nat)
    requires i < 32 && odd == Number(x)[0] && h == x >> 1 && y == h ^ 0x82F63B78
    ensures Number(NumShift(x))[i] == ((i < 31 && Number(x)[i + 1]) != (odd && Number(0x82F63B78)[i]))
  {
    hide Number, Mask, NumShift;
    NumShiftCases(x, odd, h, y);
    HalfNumber(x, i);
    XorNumber(h, 0x82F63B78, i);
  }

  lemma Shift1Number(x: bv32)
    ensures Shift1(Number(x)) == Number(NumShift(x))
  {
    hide Number, NumShift;
    PolyIsNumber();
    forall i | 0 <= i < 32 ensures Shift1(Number(x))[i] == Number(NumShift(x))[i] {
      ShiftBit(x, Number(x)[0], x >> 1, (x >> 1) ^ 0x82F63B78, i);
    }
  }

  // ---------- The tables ----------

  /** A table is additive in its index, so its entries at the powers of two fix it. */
  lemma TableAdditive(k: nat, a: Word, b: Word)
    ensures Table(k, Xor(a, b)) == Xor(Table(k, a), Table(k, b))
  {
    var n: nat := 8 * k + 8;
    TableIsShift(k, Xor(a, b), n);
    TableIsShift(k, a, n);
    TableIsShift(k, b, n);
    ShiftXor(a, b, n);
  }

  /** The numbers the register passes through, starting from a single bit about to leave it. */
  function Entry(n: nat): (x: bv32)
    decreases n, 0
  {
    if n == 0 then 0x82F63B78 else NumShift(Entry(n - 1))
  }

  /** The byte 2^j as a word. */
  function Unit(j: nat): (w: Word) {
    seq(32, i => i == j)
  }

  lemma UnitIsByte(j: nat)
    requires j < 8
    ensures Pow2(j) < 0x100 && Unit(j) == FromByte(Pow2(j))
  {
    PowerBound(j, 7);
    forall i | 0 <= i < 8 ensures Bits(Pow2(j), 8)[i] == (i == j) {
      BitsOfPower(j, 8, i);
    }
  }

  lemma {:induction false} PowerBound(j: nat, n: nat)
    requires j <= n
    ensures Pow2(j) <= Pow2(n)
    decreases n
  {
    if j < n {
      PowerBound(j, n - 1);
    }
  }

  lemma {:induction false} BitsOfPower(j: nat, n: nat, i: nat)
    requires i < n
    ensures Bits(Pow2(j), n)[i] == (i == j)
    decreases n
  {
    if j == 0 {
      ZeroBits(n - 1);
    } else if i > 0 {
      BitsOfPower(j - 1, n - 1, i - 1);
    }
  }

  /** Bit `i` of a number, by division. */
  lemma {:induction false} BitsByDivision(x: nat, n: nat, i: nat)
    requires i < n
    ensures Pow2(i) > 0 && Bits(x, n)[i] == (x / Pow2(i) % 2 == 1)
    decreases n
  {
    PowerBound(0, i);
    if i > 0 {
      BitsByDivision(x / 2, n - 1, i - 1);
      HalfThenDivide(x, Pow2(i - 1));
    }
  }

  lemma HalfThenDivide(x: nat, p: nat)
    requires p > 0
    ensures x / (2 * p) == x / 2 / p
  {
    var h, q, r := x / 2, x / 2 / p, x / 2 % p;
    assert h == p * q + r;
    assert 2 * p * q == 2 * (p * q);
    DivUnique(x, 2 * p, q, 2 * r + x % 2);
  }

  lemma {:induction false} UnitShifts(j: nat)
    requires j < 32
    ensures Shift(Unit(j), j + 1) == POLY
    decreases j
  {
    if j == 0 {
      assert Shift1(Unit(0)) == POLY;
      ShiftOnce(Unit(0));
    } else {
      assert Shift1(Unit(j)) == Unit(j - 1);
      UnitShifts(j - 1);
      ShiftMore(Unit(j), j);
    }
  }

  lemma ShiftOnce(c: Word)
    ensures Shift(c, 1) == Shift1(c)
  {
    ShiftMore(c, 0);
  }

  lemma ShiftMore(c: Word, n: nat)
    ensures Shift(c, n + 1) == Shift(Shift1(c), n)
    ensures Shift(c, 0) == c
  {
  }

  lemma {:induction false} EntryIsShift(n: nat)
    ensures Shift(POLY, n) == Number(Entry(n))
    decreases n
  {
    hide Number, NumShift;
    if n == 0 {
      PolyIsNumber();
      ShiftMore(POLY, 0);
    } else {
      EntryIsShift(n - 1);
      ShiftAdd(POLY, n - 1, 1, n);
      ShiftOnce(Shift(POLY, n - 1));
      Shift1Number(Entry(n - 1));
    }
  }

  /** Table `k` at index 2^(7-i). */
  lemma TableEntry(k: nat, i: nat)
    requires i < 8
    ensures Table(k, Unit(7 - i)) == Number(Entry(8 * k + i))
  {
    hide Number, Entry, Table, Shift;
    var j: nat, n: nat, total: nat := 8 - i, 8 * k + i, 8 * k + 8;
    TableIsShift(k, Unit(7 - i), total);
    ShiftAdd(Unit(7 - i), j, n, total);
    UnitShifts(7 - i);
    EntryIsShift(n);
  }

  /** Table 0 of the repository at 128, 64, 32, 16, 8, 4, 2 and 1. */
  lemma Row0()
    ensures [Entry(0), Entry(1), Entry(2), Entry(3), Entry(4), Entry(5), Entry(6), Entry(7)] ==
            [0x82F63B78, 0x417B1DBC, 0x20BD8EDE, 0x105EC76F,
             0x8AD958CF, 0xC79A971F, 0xE13B70F7, 0xF26B8303]
  {
    assert Entry(0) == 0x82F63B78;
    assert Entry(1) == NumShift(Entry(0)) == 0x417B1DBC;
    assert Entry(2) == NumShift(Entry(1)) == 0x20BD8EDE;
    assert Entry(3) == NumShift(Entry(2)) == 0x105EC76F;
    assert Entry(4) == NumShift(Entry(3)) == 0x8AD958CF;
    assert Entry(5) == NumShift(Entry(4)) == 0xC79A971F;
    assert Entry(6) == NumShift(Entry(5)) == 0xE13B70F7;
    assert Entry(7) == NumShift(Entry(6)) == 0xF26B8303;
  }

  /** Table 1 of the repository at 128, 64, 32, 16, 8, 4, 2 and 1. */
  lemma Row1()
    ensures [Entry(8), Entry(9), Entry(10), Entry(11), Entry(12), Entry(13), Entry(14), Entry(15)] ==
            [0xFBC3FAF9, 0xFF17C604, 0x7F8BE302, 0x3FC5F181,
             0x9D14C3B8, 0x4E8A61DC, 0x274530EE, 0x13A29877]
  {
    Row0();
    assert Entry(8) == NumShift(Entry(7)) == 0xFBC3FAF9;
    assert Entry(9) == NumShift(Entry(8)) == 0xFF17C604;
    assert Entry(10) == NumShift(Entry(9)) == 0x7F8BE302;
    assert Entry(11) == NumShift(Entry(10)) == 0x3FC5F181;
    assert Entry(12) == NumShift(Entry(11)) == 0x9D14C3B8;
    assert Entry(13) == NumShift(Entry(12)) == 0x4E8A61DC;
    assert Entry(14) == NumShift(Entry(13)) == 0x274530EE;
    assert Entry(15) == NumShift(Entry(14)) == 0x13A29877;
  }

  /** Table 2 of the repository at 128, 64, 32, 16, 8, 4, 2 and 1. */
  lemma Row2()
    ensures [Entry(16), Entry(17), Entry(18), Entry(19), Entry(20), Entry(21), Entry(22), Entry(23)] ==
            [0x8B277743, 0xC76580D9, 0xE144FB14, 0x70A27D8A,
             0x38513EC5, 0x9EDEA41A, 0x4F6F520D, 0xA541927E]
  {
    Row1();
    assert Entry(16) == NumShift(Entry(15)) == 0x8B277743;
    assert Entry(17) == NumShift(Entry(16)) == 0xC76580D9;
    assert Entry(18) == NumShift(Entry(17)) == 0xE144FB14;
    assert Entry(19) == NumShift(Entry(18)) == 0x70A27D8A;
    assert Entry(20) == NumShift(Entry(19)) == 0x38513EC5;
    assert Entry(21) == NumShift(Entry(20)) == 0x9EDEA41A;
    assert Entry(22) == NumShift(Entry(21)) == 0x4F6F520D;
    assert Entry(23) == NumShift(Entry(22)) == 0xA541927E;
  }

  /** Table 3 of the repository at 128, 64, 32, 16, 8, 4, 2 and 1. */
  lemma Row3()
    ensures [Entry(24), Entry(25), Entry(26), Entry(27), Entry(28), Entry(29), Entry(30), Entry(31)] ==
            [0x52A0C93F, 0xABA65FE7, 0xD725148B, 0xE964B13D,
             0xF64463E6, 0x7B2231F3, 0xBF672381, 0xDD45AAB8]
  {
    Row2();
    assert Entry(24) == NumShift(Entry(23)) == 0x52A0C93F;
    assert Entry(25) == NumShift(Entry(24)) == 0xABA65FE7;
    assert Entry(26) == NumShift(Entry(25)) == 0xD725148B;
    assert Entry(27) == NumShift(Entry(26)) == 0xE964B13D;
    assert Entry(28) == NumShift(Entry(27)) == 0xF64463E6;
    assert Entry(29) == NumShift(Entry(28)) == 0x7B2231F3;
    assert Entry(30) == NumShift(Entry(29)) == 0xBF672381;
    assert Entry(31) == NumShift(Entry(30)) == 0xDD45AAB8;
  }

  /** Table 4 of the repository at 128, 64, 32, 16, 8, 4, 2 and 1. */
  lemma Row4()
    ensures [Entry(32), Entry(33), Entry(34), Entry(35), Entry(36), Entry(37), Entry(38), Entry(39)] ==
            [0x6EA2D55C, 0x37516AAE, 0x1BA8B557, 0x8F2261D3,
             0xC5670B91, 0xE045BEB0, 0x7022DF58, 0x38116FAC]
  {
    Row3();
    assert Entry(32) == NumShift(Entry(31)) == 0x6EA2D55C;
    assert Entry(33) == NumShift(Entry(32)) == 0x37516AAE;
    assert Entry(34) == NumShift(Entry(33)) == 0x1BA8B557;
    assert Entry(35) == NumShift(Entry(34)) == 0x8F2261D3;
    assert Entry(36) == NumShift(Entry(35)) == 0xC5670B91;
    assert Entry(37) == NumShift(Entry(36)) == 0xE045BEB0;
    assert Entry(38) == NumShift(Entry(37)) == 0x7022DF58;
    assert Entry(39) == NumShift(Entry(38)) == 0x38116FAC;
  }

  /** Table 5 of the repository at 128, 64, 32, 16, 8, 4, 2 and 1. */
  lemma Row5()
    ensures [Entry(40), Entry(41), Entry(42), Entry(43), Entry(44), Entry(45), Entry(46), Entry(47)] ==
            [0x1C08B7D6, 0x0E045BEB, 0x85F4168D, 0xC00C303E,
             0x6006181F, 0xB2F53777, 0xDB8CA0C3, 0xEF306B19]
  {
    Row4();
    assert Entry(40) == NumShift(Entry(39)) == 0x1C08B7D6;
    assert Entry(41) == NumShift(Entry(40)) == 0x0E045BEB;
    assert Entry(42) == NumShift(Entry(41)) == 0x85F4168D;
    assert Entry(43) == NumShift(Entry(42)) == 0xC00C303E;
    assert Entry(44) == NumShift(Entry(43)) == 0x6006181F;
    assert Entry(45) == NumShift(Entry(44)) == 0xB2F53777;
    assert Entry(46) == NumShift(Entry(45)) == 0xDB8CA0C3;
    assert Entry(47) == NumShift(Entry(46)) == 0xEF306B19;
  }

  /** Table 6 of the repository at 128, 64, 32, 16, 8, 4, 2 and 1. */
  lemma Row6()
    ensures [Entry(48), Entry(49), Entry(50), Entry(51), Entry(52), Entry(53), Entry(54), Entry(55)] ==
            [0xF56E0EF4, 0x7AB7077A, 0x3D5B83BD, 0x9C5BFAA6,
             0x4E2DFD53, 0xA5E0C5D1, 0xD0065990, 0x68032CC8]
  {
    Row5();
    assert Entry(48) == NumShift(Entry(47)) == 0xF56E0EF4;
    assert Entry(49) == NumShift(Entry(48)) == 0x7AB7077A;
    assert Entry(50) == NumShift(Entry(49)) == 0x3D5B83BD;
    assert Entry(51) == NumShift(Entry(50)) == 0x9C5BFAA6;
    assert Entry(52) == NumShift(Entry(51)) == 0x4E2DFD53;
    assert Entry(53) == NumShift(Entry(52)) == 0xA5E0C5D1;
    assert Entry(54) == NumShift(Entry(53)) == 0xD0065990;
    assert Entry(55) == NumShift(Entry(54)) == 0x68032CC8;
  }

  /** Table 7 of the repository at 128, 64, 32, 16, 8, 4, 2 and 1. */
  lemma Row7()
    ensures [Entry(56), Entry(57), Entry(58), Entry(59), Entry(60), Entry(61), Entry(62), Entry(63)] ==
            [0x34019664, 0x1A00CB32, 0x0D006599, 0x847609B4,
             0x423B04DA, 0x211D826D, 0x9278FA4E, 0x493C7D27]
  {
    Row6();
    assert Entry(56) == NumShift(Entry(55)) == 0x34019664;
    assert Entry(57) == NumShift(Entry(56)) == 0x1A00CB32;
    assert Entry(58) == NumShift(Entry(57)) == 0x0D006599;
    assert Entry(59) == NumShift(Entry(58)) == 0x847609B4;
    assert Entry(60) == NumShift(Entry(59)) == 0x423B04DA;
    assert Entry(61) == NumShift(Entry(60)) == 0x211D826D;
    assert Entry(62) == NumShift(Entry(61)) == 0x9278FA4E;
    assert Entry(63) == NumShift(Entry(62)) == 0x493C7D27;
  }
}

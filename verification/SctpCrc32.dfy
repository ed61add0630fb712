/**
 The two software implementations of CRC-32C: the slicing-by-8 routine the library uses by
 default and the bytewise baseline. Both accept a null buffer, which stands for that many
 zero bytes.
 */
module SctpCrc32 {
  import opened Bytes
  import opened Crc32c

  /** A `(pointer, length)` argument; `address` is the numeric value of a non-null pointer. */
  datatype Buffer = Null(length: nat) | Data(bytes: seq<byte>, address: nat)
  {
    /** The bytes a checksum of this buffer is promised to cover. */
    function Content(): seq<byte> {
      match this
      case Null(n) => Zeros(n)
      case Data(bytes, _) => bytes
    }
  }

  // ---------- Loop bodies ----------

  lemma CrcNone(crc: Word)
    ensures Crc(crc, []) == crc && Crc(crc, Zeros(0)) == crc
  {
    assert Zeros(0) == [];
  }

  lemma CrcOne(crc: Word, b: byte)
    ensures Crc(crc, [b]) == Step(crc, b)
  {
    var next := Step(crc, b);
    assert [b][1..] == [];
    assert Crc(crc, [b]) == Crc(next, []);
  }

  /** `crc = table[(crc ^ b) & 0xFF] ^ (crc >> 8)` */
  method ByteStep(crc: Word, b: byte) returns (r: Word)
    ensures r == Crc(crc, [b])
  {
    var index := Low8(Xor(crc, FromByte(b)));
    assert index == Xor(Low8(crc), FromByte(b));
    r := Xor(ByteTable(index), Shr(crc, 8));
    XorLaws(ByteTable(index), Shr(crc, 8), Zero());
    CrcOne(crc, b);
  }

  /** `crc = table[crc & 0xFF] ^ (crc >> 8)` */
  method ZeroByteStep(crc: Word) returns (r: Word)
    ensures r == Crc(crc, [0])
  {
    var index := Low8(crc);
    assert index == Xor(Low8(crc), FromByte(0)) by {
      ZeroByte();
    }
    r := Xor(ByteTable(index), Shr(crc, 8));
    XorLaws(ByteTable(index), Shr(crc, 8), Zero());
    CrcOne(crc, 0);
  }

  /** The eight-byte body: two 32-bit loads, the first xored into the register. */
  method SliceStep(crc: Word, data: seq<byte>) returns (r: Word)
    requires |data| == 8
    ensures r == Crc(crc, data)
  {
    var x, y := Xor(crc, Load(data[..4])), Load(data[4..]);
    r := Xor(Lookup4(x, 4), Lookup4(y, 0));
    SliceIsCrc(crc, data[..4], data[4..], x, y);
    assert data[..4] + data[4..] == data;
  }

  lemma {:induction false} LoadZeros(n: nat)
    ensures Load(Zeros(n)) == Zero()
  {
    if n > 0 {
      LoadZeros(n - 1);
      ZeroByte();
      assert Zeros(n)[1..] == Zeros(n - 1);
      assert Xor(Zero(), Shl(Zero(), 8)) == Zero();
    }
  }

  lemma ZeroSliceIsCrc(crc: Word)
    ensures Xor(Lookup4(crc, 4), Lookup4(Zero(), 0)) == Crc(crc, Zeros(8))
  {
    hide Crc, Lookup4;
    var z, w := Zeros(4), Zero();
    assert Load(z) == w by { LoadZeros(4); }
    assert crc == Xor(crc, Load(z)) by { XorLaws(crc, w, w); }
    SliceIsCrc(crc, z, z, crc, w);
    assert z + z == Zeros(8);
  }

  /** The same body with no memory behind it: both loads are the constant zero. */
  method ZeroSliceStep(crc: Word) returns (r: Word)
    ensures r == Crc(crc, Zeros(8))
  {
    r := Xor(Lookup4(crc, 4), Lookup4(Zero(), 0));
    ZeroSliceIsCrc(crc);
  }

  /** What the loops have done after `q` bytes extends what they had done after `p`. */
  lemma CrcUpTo(crc: Word, data: seq<byte>, p: nat, q: nat)
    requires p <= q <= |data|
    ensures Crc(crc, data[..q]) == Crc(Crc(crc, data[..p]), data[p..q])
  {
    assert data[..q] == data[..p] + data[p..q];
    CrcConcat(crc, data[..p], data[p..q]);
  }

  lemma CrcZerosUpTo(crc: Word, p: nat, q: nat)
    ensures Crc(crc, Zeros(p + q)) == Crc(Crc(crc, Zeros(p)), Zeros(q))
  {
    assert Zeros(p + q) == Zeros(p) + Zeros(q);
    CrcConcat(crc, Zeros(p), Zeros(q));
  }

  // ---------- Slicing by 8 ----------

  /** A byte-at-a-time loop over `n` bytes from `p`: the alignment prologue and the tail. */
  method ByteLoop(crc0: Word, buf: seq<byte>, p: nat, n: nat) returns (crc: Word)
    requires p + n <= |buf|
    ensures crc == Crc(crc0, buf[p..p + n])
  {
    hide Crc;
    crc := crc0;
    CrcNone(crc0);
    ghost var part := buf[p..p + n];
    for li := 0 to n
      invariant crc == Crc(crc0, part[..li])
    {
      CrcUpTo(crc0, part, li, li + 1);
      assert part[li..li + 1] == [part[li]];
      assert part[li] == buf[p + li];
      crc := ByteStep(crc, buf[p + li]);
    }
    assert part[..n] == part;
  }

  /** The eight-byte loop, `n` times from `p`. */
  method SliceLoop(crc0: Word, buf: seq<byte>, p: nat, n: nat) returns (crc: Word)
    requires p + 8 * n <= |buf|
    ensures crc == Crc(crc0, buf[p..p + 8 * n])
  {
    hide Crc;
    crc := crc0;
    CrcNone(crc0);
    ghost var part := buf[p..p + 8 * n];
    for li := 0 to n
      invariant crc == Crc(crc0, part[..8 * li])
    {
      CrcUpTo(crc0, part, 8 * li, 8 * li + 8);
      var chunk := buf[p + 8 * li..p + 8 * li + 8];
      SliceOfSlice(buf, p, p + 8 * n, 8 * li, 8 * li + 8);
      crc := SliceStep(crc, chunk);
    }
    assert part[..8 * n] == part;
  }

  /** The buffer path: up to three bytes to alignment, then eight at a time, then the rest. */
  method Sb8(crc0: Word, buf: seq<byte>, offset: nat) returns (crc: Word)
    requires offset < 4
    ensures crc == Crc(crc0, buf)
  {
    hide Crc;
    var length := |buf|;
    var initBytes := (4 - offset) % 4;
    if initBytes > length {
      initBytes := length;
    }
    var runningLength := (length - initBytes) / 8 * 8;
    var endBytes := length - initBytes - runningLength;
    var tail := initBytes + runningLength;
    crc := ByteLoop(crc0, buf, 0, initBytes);
    CrcUpTo(crc0, buf, initBytes, tail);
    crc := SliceLoop(crc, buf, initBytes, runningLength / 8);
    CrcUpTo(crc0, buf, tail, length);
    crc := ByteLoop(crc, buf, tail, endBytes);
    assert buf[..length] == buf;
  }

  /** The byte loop of the null-buffer path. */
  method ZeroByteLoop(crc0: Word, n: nat) returns (crc: Word)
    ensures crc == Crc(crc0, Zeros(n))
  {
    hide Crc;
    crc := crc0;
    CrcNone(crc0);
    for li := 0 to n
      invariant crc == Crc(crc0, Zeros(li))
    {
      CrcZerosUpTo(crc0, li, 1);
      assert Zeros(1) == [0];
      crc := ZeroByteStep(crc);
    }
  }

  /** The eight-byte loop of the null-buffer path. */
  method ZeroSliceLoop(crc0: Word, n: nat) returns (crc: Word)
    ensures crc == Crc(crc0, Zeros(8 * n))
  {
    hide Crc;
    crc := crc0;
    CrcNone(crc0);
    for li := 0 to n
      invariant crc == Crc(crc0, Zeros(8 * li))
    {
      CrcZerosUpTo(crc0, 8 * li, 8);
      crc := ZeroSliceStep(crc);
    }
  }

  /** The null-buffer path: the same three loops over bytes that are not there. */
  method Sb8Zero(crc0: Word, length: nat, offset: nat) returns (crc: Word)
    requires offset < 4
    ensures crc == Crc(crc0, Zeros(length))
  {
    hide Crc;
    var initBytes := (4 - offset) % 4;
    if initBytes > length {
      initBytes := length;
    }
    var runningLength := (length - initBytes) / 8 * 8;
    var endBytes := length - initBytes - runningLength;
    crc := ZeroByteLoop(crc0, initBytes);
    CrcZerosUpTo(crc0, initBytes, runningLength);
    crc := ZeroSliceLoop(crc, runningLength / 8);
    CrcZerosUpTo(crc0, initBytes + runningLength, endBytes);
    crc := ZeroByteLoop(crc, endBytes);
  }

  /** `update_crc32`: dispatch on the pointer; the alignment offset is its two low bits. */
  method UpdateCrc32(crc0: Word, buffer: Buffer) returns (crc: Word)
    ensures crc == Crc(crc0, buffer.Content())
  {
    match buffer {
      case Null(n) =>
        if n == 0 {
          return crc0;
        }
        crc := Sb8Zero(crc0, n, 0);
      case Data(bytes, address) =>
        if bytes == [] {
          return crc0;
        }
        crc := Sb8(crc0, bytes, address % 4);
    }
  }

  // ---------- The baseline ----------

  /** `crc = (crc >> 8) ^ table[(crc & 0xFF) ^ b]` */
  method BaselineStep(crc: Word, b: byte) returns (r: Word)
    ensures r == Crc(crc, [b])
  {
    r := Xor(Shr(crc, 8), ByteTable(Xor(Low8(crc), FromByte(b))));
    CrcOne(crc, b);
  }

  /** `crc = (crc >> 8) ^ table[crc & 0xFF]` */
  method BaselineZeroStep(crc: Word) returns (r: Word)
    ensures r == Crc(crc, [0])
  {
    var index := Low8(crc);
    assert index == Xor(Low8(crc), FromByte(0)) by {
      ZeroByte();
    }
    r := Xor(Shr(crc, 8), ByteTable(index));
    CrcOne(crc, 0);
  }

  /** `msgr_crc32c_intel_baseline`, which must give the same answer on every input. */
  method Baseline(crc0: Word, buffer: Buffer) returns (crc: Word)
    ensures crc == Crc(crc0, buffer.Content())
  {
    hide Crc;
    crc := crc0;
    CrcNone(crc0);
    match buffer {
      case Data(bytes, _) =>
        var p := 0;
        while p < |bytes|
          invariant 0 <= p <= |bytes|
          invariant crc == Crc(crc0, bytes[..p])
        {
          CrcUpTo(crc0, bytes, p, p + 1);
          assert bytes[p..p + 1] == [bytes[p]];
          crc := BaselineStep(crc, bytes[p]);
          p := p + 1;
        }
        assert bytes[..p] == bytes;
      case Null(n) =>
        var left := n;
        while left > 0
          invariant 0 <= left <= n
          invariant crc == Crc(crc0, Zeros(n - left))
        {
          CrcZerosUpTo(crc0, n - left, 1);
          assert Zeros(1) == [0];
          crc := BaselineZeroStep(crc);
          left := left - 1;
        }
    }
  }
}

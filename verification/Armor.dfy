/**
 Base64 (section 4 of RFC 4648) with optional line breaks. Characters are their byte codes;
 shifts and masks by constants are written as division and remainder by powers of two.
 */
module Armor {
  import opened Bytes
  import opened Arith

  const EINVAL := 22
  const ERANGE := 34
  const NEWLINE: byte := 10
  const PAD: byte := 61 // '='

  // ---------- Characters ----------

  /** The alphabet: A-Z, a-z, 0-9, '+', '/'. */
  function EncodeBits(c: nat): (r: byte)
    requires c < 64
  {
    if c < 26 then 65 + c
    else if c < 52 then 97 + c - 26
    else if c < 62 then 48 + c - 52
    else if c == 62 then 43
    else 47
  }

  /** The code of a sextet, or -EINVAL; the URL alphabet and the padding character are accepted too. */
  function DecodeBits(c: byte): (r: int)
    ensures r == -22 || 0 <= r < 64
  {
    if 65 <= c <= 90 then c - 65
    else if 97 <= c <= 122 then c - 97 + 26
    else if 48 <= c <= 57 then c - 48 + 52
    else if c == 43 || c == 45 then 62
    else if c == 47 || c == 95 then 63
    else if c == PAD then 0
    else -EINVAL
  }

  const UPPER := "ABCDEFGHIJKLMNOPQRSTUVWXYZ"
  const LOWER := "abcdefghijklmnopqrstuvwxyz"
  const DIGITS := "0123456789"

  /** Table 1 of RFC 4648. */
  const ALPHABET: string := UPPER + LOWER + DIGITS + "+/"

  lemma Letters(c: nat)
    requires c < 26
    ensures UPPER[c] as int == 65 + c && LOWER[c] as int == 97 + c
  {
    UpperLetter(c);
    LowerLetter(c);
  }

  lemma UpperLetter(c: nat)
    requires c < 26
    ensures UPPER[c] as int == 65 + c
  {
  }

  lemma LowerLetter(c: nat)
    requires c < 26
    ensures LOWER[c] as int == 97 + c
  {
  }

  lemma DigitLetter(c: nat)
    requires c < 10
    ensures DIGITS[c] as int == 48 + c
  {
  }

  /** The encoder writes character `c` of the alphabet. */
  lemma EncodesAlphabet(c: nat)
    requires c < 64
    ensures |ALPHABET| == 64 && EncodeBits(c) == ALPHABET[c] as int
  {
    if c < 26 {
      UpperLetter(c);
    } else if c < 52 {
      LowerLetter(c - 26);
    } else if c < 62 {
      DigitLetter(c - 52);
    }
  }

  /** Character `c` of the alphabet. */
  ghost predicate StandsAt(x: byte, c: nat)
  {
    c < 64 == |ALPHABET| && ALPHABET[c] as int == x
  }

  /**
   The decoder reads a character of the alphabet as its place in it, '-' as 62, '_' as 63 and '=' as 0,
   and nothing else.
   */
  lemma DecodesAlphabet(x: byte, c: nat)
    ensures StandsAt(x, c) ==> DecodeBits(x) == c
    ensures x == '-' as int ==> DecodeBits(x) == 62
    ensures x == '_' as int ==> DecodeBits(x) == 63
    ensures x == '=' as int ==> DecodeBits(x) == 0
    ensures DecodeBits(x) != -22 && x != '-' as int && x != '_' as int && x != '=' as int ==>
              DecodeBits(x) >= 0 && StandsAt(x, DecodeBits(x))
  {
    if StandsAt(x, c) {
      EncodesAlphabet(c);
      BitsRoundTrip(c);
    }
    if DecodeBits(x) >= 0 {
      EncodesAlphabet(DecodeBits(x));
    }
  }

  lemma BitsRoundTrip(c: nat)
    requires c < 64
    ensures DecodeBits(EncodeBits(c)) == c
    ensures EncodeBits(c) != NEWLINE && EncodeBits(c) != PAD
  {
  }

  // ---------- Encoding ----------

  /** The four characters for the next up to three bytes. */
  function Group(s: seq<byte>): (g: seq<byte>)
    requires s != []
    ensures |g| == 4
  {
    var a := s[0];
    if |s| == 1 then [EncodeBits(a / 4), EncodeBits(a % 4 * 16), PAD, PAD]
    else
      var b := s[1];
      if |s| == 2 then [EncodeBits(a / 4), EncodeBits(a % 4 * 16 + b / 16), EncodeBits(b % 16 * 4), PAD]
      else
        var c := s[2];
        [EncodeBits(a / 4), EncodeBits(a % 4 * 16 + b / 16), EncodeBits(b % 16 * 4 + c / 64), EncodeBits(c % 64)]
  }

  function Rest(s: seq<byte>): (r: seq<byte>) {
    if |s| <= 3 then [] else s[3..]
  }

  /** The text for `s` when `line` characters are already on the current line. */
  function Encode(s: seq<byte>, width: int, line: nat): (r: seq<byte>)
    decreases |s|
  {
    if s == [] then []
    else if width != 0 && line + 4 == width then Group(s) + [NEWLINE] + Encode(Rest(s), width, 0)
    else Group(s) + Encode(Rest(s), width, line + 4)
  }

  lemma EncodeNothing(s: seq<byte>, width: int, line: nat)
    requires s == []
    ensures Encode(s, width, line) == []
  {
  }

  /** A group reads no further than its own bytes. */
  lemma GroupPrefix(s: seq<byte>, k: nat)
    requires s != [] && k == if |s| <= 3 then |s| else 3
    ensures Group(s[..k]) == Group(s)
  {
    hide EncodeBits;
  }

  lemma CutShort(a: seq<byte>, b: seq<byte>, c: seq<byte>, k: nat)
    requires k <= |b|
    ensures (a + b + c)[..|a| + k] == a + b[..k]
  {
  }

  lemma Reassociate(a: seq<byte>, b: seq<byte>, c: seq<byte>)
    ensures a + (b + c) == (a + b) + c
  {
  }

  /** What follows a group that brought the line from `line` to `line + 4` characters. */
  function Later(rest: seq<byte>, width: int, line: nat): seq<byte> {
    if width != 0 && line + 4 == width then [NEWLINE] + Encode(rest, width, 0) else Encode(rest, width, line + 4)
  }

  /** One turn of the encoding loop. */
  lemma EncodeStep(s: seq<byte>, width: int, line: nat)
    requires s != []
    ensures Encode(s, width, line) == Group(s) + Later(Rest(s), width, line)
  {
    hide Group;
    if width != 0 && line + 4 == width {
      assert Encode(s, width, line) == Group(s) + [NEWLINE] + Encode(Rest(s), width, 0);
    }
  }

  method NextGroup(src: seq<byte>, i: nat, k: nat, width: int, line: nat) returns (g: seq<byte>)
    requires i < |src| && k == if |src| - i <= 3 then |src| - i else 3
    ensures |g| == 4 && Encode(src[i..], width, line) == g + Later(src[i + k..], width, line)
  {
    hide Encode, Group, Later;
    assert src[i..i + k] == src[i..][..k];
    g := Group(src[i..i + k]);
    GroupPrefix(src[i..], k);
    EncodeStep(src[i..], width, line);
    assert Rest(src[i..]) == src[i + k..];
  }

  /** A run of SET_DST: write until the destination is full. */
  method Put(dst: array<byte>, p: nat, text: seq<byte>) returns (ok: bool, p': nat)
    requires p <= dst.Length
    modifies dst
    ensures ok <==> p + |text| <= dst.Length
    ensures p' == p + (if ok then |text| else dst.Length - p)
    ensures dst[..p'] == old(dst[..p]) + text[..p' - p]
  {
    p' := p;
    for i := 0 to |text|
      invariant p' == p + i <= dst.Length
      invariant dst[..p'] == old(dst[..p]) + text[..i]
    {
      if p' >= dst.Length {
        return false, p';
      }
      dst[p'] := text[i];
      p' := p' + 1;
      assert dst[..p'] == old(dst[..p]) + text[..i] + [text[i]];
      assert text[..i] + [text[i]] == text[..i + 1];
    }
    return true, p';
  }

  /** The same, as progress through a text of which `piece` and `later` are still to come. */
  method Emit(dst: array<byte>, p: nat, piece: seq<byte>, ghost later: seq<byte>, ghost text: seq<byte>)
      returns (ok: bool, p': nat)
    requires p <= dst.Length && dst[..p] + (piece + later) == text
    modifies dst
    ensures ok ==> p' == p + |piece| <= dst.Length && dst[..p'] + later == text
    ensures !ok ==> |text| > dst.Length && dst[..] == text[..dst.Length]
    ensures ok <==> p + |piece| <= dst.Length
    ensures p' <= dst.Length
  {
    ghost var before := dst[..p];
    Reassociate(before, piece, later);
    ok, p' := Put(dst, p, piece);
    CutShort(before, piece, later, p' - p);
    assert !ok ==> dst[..] == dst[..p'];
  }

  /**
   `armor_line_break`: the encoded length, or -ERANGE exactly when the text does not fit; in
   either case the destination starts with as much of the text as there is room for.
   */
  method ArmorLineBreak(dst: array<byte>, src: seq<byte>, width: int) returns (ret: int)
    modifies dst
    ensures |Encode(src, width, 0)| <= dst.Length ==>
              ret == |Encode(src, width, 0)| && dst[..ret] == Encode(src, width, 0)
    ensures |Encode(src, width, 0)| > dst.Length ==> ret == -34 && dst[..] == Encode(src, width, 0)[..dst.Length]
  {
    hide Encode, Group;
    ghost var text := Encode(src, width, 0);
    var p, i, olen, line := 0, 0, 0, 0;
    assert src[i..] == src;
    while i < |src|
      invariant 0 <= i <= |src| && p <= dst.Length && olen == p
      invariant dst[..p] + Encode(src[i..], width, line) == text
    {
      var k := if |src| - i <= 3 then |src| - i else 3;
      var g := NextGroup(src, i, k, width, line);
      i := i + k;
      var ok;
      ok, p := Emit(dst, p, g, Later(src[i..], width, line), text);
      if !ok {
        return -ERANGE;
      }
      olen := olen + 4;
      line := line + 4;
      if width != 0 && line == width {
        line := 0;
        ok, p := Emit(dst, p, [NEWLINE], Encode(src[i..], width, 0), text);
        if !ok {
          return -ERANGE;
        }
        olen := olen + 1;
      }
    }
    EncodeNothing(src[i..], width, line);
    return olen;
  }

  // ---------- Decoding ----------

  /** The bytes a text yields before it ends or turns out malformed, and which of the two it is. */
  datatype Decoded = Decoded(bytes: seq<byte>, wellFormed: bool)

  /** What the first four characters of a text say: nothing, or up to three bytes. */
  function Quad(t: seq<byte>): (r: seq<byte>)
    requires |t| >= 4
    ensures |r| <= 3
  {
    var a, b, c, d := DecodeBits(t[0]), DecodeBits(t[1]), DecodeBits(t[2]), DecodeBits(t[3]);
    if a < 0 || b < 0 || c < 0 || d < 0 then []
    else if t[2] == PAD then [a * 4 + b / 16]
    else if t[3] == PAD then [a * 4 + b / 16, b % 16 * 16 + c / 4]
    else [a * 4 + b / 16, b % 16 * 16 + c / 4, c % 4 * 64 + d]
  }

  function Decode(t: seq<byte>): (r: Decoded)
    decreases |t|
  {
    if t == [] then Decoded([], true)
    else if t[0] == NEWLINE then Decode(t[1..])
    else if |t| < 4 then Decoded([], false)
    else
      var q := Quad(t);
      if |q| < 3 then Decoded(q, q != [])
      else
        var rest := Decode(t[4..]);
        Decoded(q + rest.bytes, rest.wellFormed)
  }

  lemma DecodeNewline(t: seq<byte>)
    requires t != [] && t[0] == NEWLINE
    ensures Decode(t) == Decode(t[1..])
  {
  }

  lemma DecodeQuad(t: seq<byte>)
    requires |t| >= 4 && t[0] != NEWLINE
    ensures |Quad(t)| < 3 ==> Decode(t) == Decoded(Quad(t), Quad(t) != [])
    ensures |Quad(t)| == 3 ==> Decode(t) == Decoded(Quad(t) + Decode(t[4..]).bytes, Decode(t[4..]).wellFormed)
  {
    hide Quad;
  }

  lemma DecodeShort(t: seq<byte>)
    requires |t| < 4 && (t == [] || t[0] != NEWLINE)
    ensures Decode(t) == Decoded([], t == [])
  {
  }

  /** `unarmor`: running out of room is noticed before whatever comes later in the text. */
  method Unarmor(dst: array<byte>, src: seq<byte>) returns (ret: int)
    modifies dst
    ensures |Decode(src).bytes| > dst.Length ==> ret == -34
    ensures |Decode(src).bytes| <= dst.Length ==> dst[..|Decode(src).bytes|] == Decode(src).bytes
    ensures |Decode(src).bytes| <= dst.Length ==> ret == if Decode(src).wellFormed then |Decode(src).bytes| else -22
  {
    hide Decode, Quad, DecodeBits;
    ghost var all := Decode(src);
    var olen, p, i := 0, 0, 0;
    assert src[i..] == src;
    while i < |src|
      invariant 0 <= i <= |src| && olen == p <= dst.Length
      invariant dst[..p] + Decode(src[i..]).bytes == all.bytes
      invariant Decode(src[i..]).wellFormed == all.wellFormed
    {
      ghost var t := src[i..];
      if src[i] == NEWLINE {
        DecodeNewline(t);
        assert t[1..] == src[i + 1..];
        i := i + 1;
        continue;
      }
      if i + 4 > |src| {
        DecodeShort(t);
        return -EINVAL;
      }
      var a, b, c, d := DecodeBits(src[i]), DecodeBits(src[i + 1]), DecodeBits(src[i + 2]), DecodeBits(src[i + 3]);
      DecodeQuad(t);
      QuadBytes(t, a, b, c, d);
      if a < 0 || b < 0 || c < 0 || d < 0 {
        return -EINVAL;
      }
      ghost var later := if |Quad(t)| < 3 then [] else Decode(src[i + 4..]).bytes;
      assert t[4..] == src[i + 4..];
      var n := if src[i + 2] == PAD then 1 else if src[i + 3] == PAD then 2 else 3;
      var ok;
      ok, p := Emit(dst, p, [a * 4 + b / 16, b % 16 * 16 + c / 4, c % 4 * 64 + d][..n], later, all.bytes);
      if !ok {
        return -ERANGE;
      }
      if n < 3 {
        return olen + n;
      }
      olen := olen + 3;
      i := i + 4;
    }
    DecodeShort(src[i..]);
    return olen;
  }

  lemma QuadBytes(t: seq<byte>, a: int, b: int, c: int, d: int)
    requires |t| >= 4
    requires a == DecodeBits(t[0]) && b == DecodeBits(t[1]) && c == DecodeBits(t[2]) && d == DecodeBits(t[3])
    ensures a < 0 || b < 0 || c < 0 || d < 0 ==> Quad(t) == []
    ensures a >= 0 && b >= 0 && c >= 0 && d >= 0 ==>
              Quad(t) == [a * 4 + b / 16, b % 16 * 16 + c / 4, c % 4 * 64 + d]
                         [..if t[2] == PAD then 1 else if t[3] == PAD then 2 else 3]
  {
    hide DecodeBits;
  }

  // ---------- Round trip and sizes ----------

  /** The four characters of a group read back as its bytes. */
  lemma QuadOfGroup(s: seq<byte>, t: seq<byte>)
    requires s != []
    ensures var u := Group(s) + t; u[0] != NEWLINE && Quad(u) == if |s| <= 3 then s else s[..3]
  {
    hide EncodeBits, DecodeBits;
    BitsRoundTrip(s[0] / 4);
    if |s| == 1 {
      BitsRoundTrip(s[0] % 4 * 16);
      PadReadsAsZero();
    } else if |s| == 2 {
      BitsRoundTrip(s[0] % 4 * 16 + s[1] / 16);
      BitsRoundTrip(s[1] % 16 * 4);
      PadReadsAsZero();
    } else {
      BitsRoundTrip(s[0] % 4 * 16 + s[1] / 16);
      BitsRoundTrip(s[1] % 16 * 4 + s[2] / 64);
      BitsRoundTrip(s[2] % 64);
      assert s[..3] == [s[0], s[1], s[2]];
    }
  }

  lemma PadReadsAsZero()
    ensures DecodeBits(PAD) == 0
  {
  }

  lemma DecodeGroup(s: seq<byte>, t: seq<byte>)
    requires s != [] && Decode(t) == Decoded(Rest(s), true)
    ensures Decode(Group(s) + t) == Decoded(s, true)
  {
    hide Decode, Group, Quad;
    var u := Group(s) + t;
    QuadOfGroup(s, t);
    DecodeQuad(u);
    assert u[4..] == t;
  }

  /** Decoding undoes encoding, for every byte string and every line width. */
  lemma {:induction false} RoundTrip(s: seq<byte>, width: int, line: nat)
    ensures Decode(Encode(s, width, line)) == Decoded(s, true)
    decreases |s|
  {
    hide Encode, Decode, Group;
    if s == [] {
      EncodeNothing(s, width, line);
      DecodeShort([]);
    } else {
      EncodeStep(s, width, line);
      if width != 0 && line + 4 == width {
        RoundTrip(Rest(s), width, 0);
        var tail := [NEWLINE] + Encode(Rest(s), width, 0);
        DecodeNewline(tail);
        DecodeGroup(s, tail);
      } else {
        RoundTrip(Rest(s), width, line + 4);
        DecodeGroup(s, Encode(Rest(s), width, line + 4));
      }
    }
  }

  // ---------- The text, character by character ----------

  /** Bit `j` of a byte, the highest first. */
  function BitOf(a: byte, j: nat): (b: nat) {
    if j == 0 then a / 128
    else if j == 1 then a / 64 % 2
    else if j == 2 then a / 32 % 2
    else if j == 3 then a / 16 % 2
    else if j == 4 then a / 8 % 2
    else if j == 5 then a / 4 % 2
    else if j == 6 then a / 2 % 2
    else a % 2
  }

  /** Bit `i` of a byte string, with zeros behind it. */
  function SourceBit(s: seq<byte>, i: nat): (b: nat) {
    if i / 8 < |s| then BitOf(s[i / 8], i % 8) else 0
  }

  /** Bits 6k to 6k+5. */
  function Sextet(s: seq<byte>, k: nat): (c: nat) {
    32 * SourceBit(s, 6 * k) + 16 * SourceBit(s, 6 * k + 1) + 8 * SourceBit(s, 6 * k + 2)
    + 4 * SourceBit(s, 6 * k + 3) + 2 * SourceBit(s, 6 * k + 4) + SourceBit(s, 6 * k + 5)
  }

  lemma Halves(a: nat)
    ensures a / 4 == a / 2 / 2 && a / 8 == a / 4 / 2 && a / 16 == a / 8 / 2 && a / 32 == a / 16 / 2
    ensures a / 64 == a / 32 / 2 && a / 128 == a / 64 / 2
  {
  }

  lemma TopBits(a: byte)
    ensures a / 64 == 2 * BitOf(a, 0) + BitOf(a, 1)
    ensures a / 16 == 8 * BitOf(a, 0) + 4 * BitOf(a, 1) + 2 * BitOf(a, 2) + BitOf(a, 3)
    ensures a / 4 == 32 * BitOf(a, 0) + 16 * BitOf(a, 1) + 8 * BitOf(a, 2)
                     + 4 * BitOf(a, 3) + 2 * BitOf(a, 4) + BitOf(a, 5)
    ensures a == 4 * (a / 4) + 2 * BitOf(a, 6) + BitOf(a, 7)
  {
    Halves(a);
  }

  lemma LowBits(a: byte)
    ensures a % 4 == 2 * BitOf(a, 6) + BitOf(a, 7)
    ensures a % 16 == 8 * BitOf(a, 4) + 4 * BitOf(a, 5) + 2 * BitOf(a, 6) + BitOf(a, 7)
    ensures a % 64 == 32 * BitOf(a, 2) + 16 * BitOf(a, 3) + 8 * BitOf(a, 4)
                      + 4 * BitOf(a, 5) + 2 * BitOf(a, 6) + BitOf(a, 7)
  {
    TopBits(a);
  }

  lemma Sextet0(s: seq<byte>)
    requires s != []
    ensures Sextet(s, 0) == s[0] / 4
  {
    hide BitOf;
    TopBits(s[0]);
  }

  lemma Sextet1(s: seq<byte>)
    requires s != []
    ensures Sextet(s, 1) == s[0] % 4 * 16 + if |s| > 1 then s[1] / 16 else 0
  {
    hide BitOf;
    LowBits(s[0]);
    if |s| > 1 {
      TopBits(s[1]);
    }
  }

  lemma Sextet2(s: seq<byte>)
    requires |s| > 1
    ensures Sextet(s, 2) == s[1] % 16 * 4 + if |s| > 2 then s[2] / 64 else 0
  {
    hide BitOf;
    LowBits(s[1]);
    if |s| > 2 {
      TopBits(s[2]);
    }
  }

  lemma Sextet3(s: seq<byte>)
    requires |s| > 2
    ensures Sextet(s, 3) == s[2] % 64
  {
    hide BitOf;
    LowBits(s[2]);
  }

  /** The characters of one group. */
  lemma GroupCharacter(s: seq<byte>, k: nat)
    requires s != [] && k < 4
    ensures 6 * k < 8 * |s| ==> Sextet(s, k) < 64 && Group(s)[k] == EncodeBits(Sextet(s, k))
    ensures 6 * k >= 8 * |s| ==> Group(s)[k] == '=' as int
  {
    hide EncodeBits, Sextet;
    Sextet0(s);
    Sextet1(s);
    if |s| > 1 {
      Sextet2(s);
    }
    if |s| > 2 {
      Sextet3(s);
    }
  }

  lemma SextetOfRest(s: seq<byte>, k: nat)
    requires k >= 4 && |s| >= 3
    ensures Sextet(s, k) == Sextet(s[3..], k - 4)
  {
    hide BitOf;
    SourceBitOfRest(s, 6 * k);
    SourceBitOfRest(s, 6 * k + 1);
    SourceBitOfRest(s, 6 * k + 2);
    SourceBitOfRest(s, 6 * k + 3);
    SourceBitOfRest(s, 6 * k + 4);
    SourceBitOfRest(s, 6 * k + 5);
  }

  lemma SourceBitOfRest(s: seq<byte>, i: nat)
    requires i >= 24 && |s| >= 3
    ensures SourceBit(s, i) == SourceBit(s[3..], i - 24)
  {
    hide BitOf;
    assert (i - 24) / 8 == i / 8 - 3 && (i - 24) % 8 == i % 8;
  }

  /**
   Without line breaks, character `k` is the alphabet's character for bits 6k to 6k+5 of the source,
   as long as the source reaches into them, and '=' after that.
   */
  lemma {:induction false} CharacterAt(s: seq<byte>, k: nat)
    requires k < |Encode(s, 0, 0)|
    ensures 6 * k < 8 * |s| ==>
              Sextet(s, k) < 64 == |ALPHABET| && Encode(s, 0, 0)[k] == ALPHABET[Sextet(s, k)] as int
    ensures 6 * k >= 8 * |s| ==> Encode(s, 0, 0)[k] == '=' as int
    decreases |s|
  {
    hide Encode, Group, Sextet, EncodeBits, ALPHABET;
    if s == [] {
      EncodeNothing(s, 0, 0);
    } else {
      EncodeStep(s, 0, 0);
      SameLine(Rest(s), 4, 0);
      if k < 4 {
        GroupCharacter(s, k);
        if 6 * k < 8 * |s| {
          EncodesAlphabet(Sextet(s, k));
        }
      } else {
        EncodeNothing([], 0, 0);
        SextetOfRest(s, k);
        CharacterAt(Rest(s), k - 4);
      }
    }
  }

  /** Without a line width the line does not matter. */
  lemma {:induction false} SameLine(s: seq<byte>, line: nat, other: nat)
    ensures Encode(s, 0, line) == Encode(s, 0, other)
    decreases |s|
  {
    hide Encode, Group;
    if s == [] {
      EncodeNothing(s, 0, line);
      EncodeNothing(s, 0, other);
    } else {
      EncodeStep(s, 0, line);
      EncodeStep(s, 0, other);
      SameLine(Rest(s), line + 4, other + 4);
    }
  }

  /** A text without its line breaks. */
  function Joined(t: seq<byte>): (r: seq<byte>) {
    if t == [] then [] else (if t[0] == 10 then [] else [t[0]]) + Joined(t[1..])
  }

  lemma {:induction false} JoinedConcat(a: seq<byte>, b: seq<byte>)
    ensures Joined(a + b) == Joined(a) + Joined(b)
    decreases |a|
  {
    if a == [] {
      assert a + b == b;
    } else {
      assert (a + b)[1..] == a[1..] + b;
      JoinedConcat(a[1..], b);
      Reassociate(if a[0] == 10 then [] else [a[0]], Joined(a[1..]), Joined(b));
    }
  }

  lemma {:induction false} JoinedWhole(t: seq<byte>)
    requires forall i :: 0 <= i < |t| ==> t[i] != 10
    ensures Joined(t) == t
    decreases |t|
  {
    if t != [] {
      JoinedWhole(t[1..]);
    }
  }

  lemma GroupUnbroken(s: seq<byte>, k: nat)
    requires s != [] && k < 4
    ensures Group(s)[k] != 10
  {
    hide EncodeBits, Group, Sextet;
    GroupCharacter(s, k);
    if 6 * k < 8 * |s| {
      BitsRoundTrip(Sextet(s, k));
    }
  }

  /** Line breaks are all that a line width adds. */
  lemma {:induction false} BreaksOnly(s: seq<byte>, width: int, line: nat)
    ensures Joined(Encode(s, width, line)) == Encode(s, 0, 0)
    decreases |s|
  {
    hide Encode, Group, Joined;
    if s == [] {
      EncodeNothing(s, width, line);
      EncodeNothing(s, 0, 0);
      JoinedWhole([]);
    } else {
      EncodeStep(s, width, line);
      EncodeStep(s, 0, 0);
      SameLine(Rest(s), 4, 0);
      forall k | 0 <= k < 4 ensures Group(s)[k] != 10 {
        GroupUnbroken(s, k);
      }
      JoinedWhole(Group(s));
      JoinedConcat(Group(s), Later(Rest(s), width, line));
      if width != 0 && line + 4 == width {
        BreaksOnly(Rest(s), width, 0);
        JoinedConcat([NEWLINE], Encode(Rest(s), width, 0));
        OneBreak();
      } else {
        BreaksOnly(Rest(s), width, line + 4);
      }
    }
  }

  lemma OneBreak()
    ensures Joined([NEWLINE]) == []
  {
    assert [NEWLINE][1..] == [];
  }

  /**
   Where the breaks stand: behind every `width` characters if that is a positive multiple of four,
   else nowhere. `line` characters are already on the line.
   */
  lemma {:induction false} BreakAt(s: seq<byte>, width: int, line: nat, i: nat)
    requires i < |Encode(s, width, line)| && line % 4 == 0
    requires width > 0 && width % 4 == 0 ==> line < width
    ensures Encode(s, width, line)[i] == 10 <==>
            width > 0 && width % 4 == 0 && (line + i + 1) % (width + 1) == 0
    decreases |s|
  {
    hide Encode, Group;
    if s == [] {
      EncodeNothing(s, width, line);
    } else {
      EncodeStep(s, width, line);
      var breaks := width != 0 && line + 4 == width;
      if i < 4 {
        GroupUnbroken(s, i);
        if width > 0 && width % 4 == 0 {
          SmallRemainder(line + i + 1, width + 1);
        }
      } else if breaks {
        if i > 4 {
          BreakAt(Rest(s), width, 0, i - 5);
          WholeTurn(i - 4, width + 1);
        } else {
          WholeTurn(0, width + 1);
        }
      } else {
        BreakAt(Rest(s), width, line + 4, i - 4);
      }
    }
  }

  lemma SmallRemainder(x: nat, n: nat)
    requires 0 < x < n
    ensures x % n == x
  {
    ModUnique(x, n, 0, x);
  }

  lemma WholeTurn(x: nat, n: nat)
    requires n > 0
    ensures (x + n) % n == x % n && 0 % n == 0
  {
    var q, r := x / n, x % n;
    assert x + n == n * (q + 1) + r;
    ModUnique(x + n, n, q + 1, r);
  }

  function Groups(n: nat): nat { (n + 2) / 3 }

  /** Breaks after every `width` characters; a width that is not a multiple of four never matches. */
  function Newlines(groups: nat, width: int, line: nat): nat {
    if width > 0 && width % 4 == 0 then (line / 4 + groups) / (width / 4) else 0
  }

  /** The encoded length is exact, line breaks included. */
  lemma {:induction false} EncodedLength(s: seq<byte>, width: int, line: nat)
    requires line % 4 == 0 && (width > 0 && width % 4 == 0 ==> line < width)
    ensures |Encode(s, width, line)| == 4 * Groups(|s|) + Newlines(Groups(|s|), width, line)
    decreases |s|
  {
    hide Encode, Group;
    if s == [] {
      EncodeNothing(s, width, line);
      if width > 0 && width % 4 == 0 {
        DivUnique(line / 4, width / 4, 0, line / 4);
      }
    } else {
      EncodeStep(s, width, line);
      var more := Groups(|Rest(s)|);
      assert Groups(|s|) == 1 + more;
      if width != 0 && line + 4 == width {
        EncodedLength(Rest(s), width, 0);
        DivStep(more, width / 4);
      } else {
        EncodedLength(Rest(s), width, line + 4);
        assert (line + 4) / 4 + more == line / 4 + (1 + more);
      }
    }
  }

  /** Every text, well formed or not, yields at most three bytes for four characters. */
  lemma {:induction false} DecodedLength(t: seq<byte>)
    ensures 4 * |Decode(t).bytes| <= 3 * |t|
    decreases |t|
  {
    hide Decode, Quad;
    if t != [] && t[0] == NEWLINE {
      DecodeNewline(t);
      DecodedLength(t[1..]);
    } else if |t| < 4 {
      DecodeShort(t);
    } else {
      DecodeQuad(t);
      DecodedLength(t[4..]);
    }
  }

  /** `buffer::list::encode_base64`: the buffer it allocates is always large enough. */
  method EncodeBase64(src: seq<byte>) returns (text: seq<byte>)
    ensures text == Encode(src, 0, 0)
  {
    hide Encode;
    EncodedLength(src, 0, 0);
    var bp := new byte[|src| * 4 / 3 + 3];
    var l := ArmorLineBreak(bp, src, 0);
    text := bp[..l];
  }

  /** `buffer::list::decode_base64`: a malformed text is the only way to fail. */
  method DecodeBase64(text: seq<byte>) returns (ok: bool, bytes: seq<byte>)
    ensures ok == Decode(text).wellFormed
    ensures ok ==> bytes == Decode(text).bytes
  {
    hide Decode;
    DecodedLength(text);
    var bp := new byte[4 + |text| * 3 / 4];
    var l := Unarmor(bp, text);
    if l < 0 {
      return false, [];
    }
    return true, bp[..l];
  }

  /** Encoding then decoding never fails and is the identity. */
  method ThereAndBack(src: seq<byte>) returns (ok: bool, bytes: seq<byte>)
    ensures ok && bytes == src
  {
    hide Encode, Decode;
    var text := EncodeBase64(src);
    RoundTrip(src, 0, 0);
    ok, bytes := DecodeBase64(text);
  }
}

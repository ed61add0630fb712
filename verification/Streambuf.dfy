/**
 `PrebufferedStreambuf`: characters go first into a caller's buffer and then into a string that
 doubles. The put and get pointers are (area, index) pairs; a character is its byte code and
 `char` is signed, so code 255 reads as -1, the end-of-file mark.
 */
module Streambuf {
  import opened Bytes

  const EOF := -1

  datatype Area = Nowhere | Fixed | Overflowed

  /** A `char` returned as an int. */
  function Signed(c: byte): (r: int) {
    if c < 128 then c else c - 256
  }

  /**
   What a reader that stops at the first end-of-file gets: `underflow` reports the first
   character of either area as a signed char, so a 255 there is taken for the end.
   */
  function Readable(text: seq<byte>, fixed: nat): (r: seq<byte>) {
    if text != [] && text[0] == 255 then []
    else if |text| > fixed && text[fixed] == 255 then text[..fixed]
    else text
  }

  class PrebufferedStreambuf {
    const buf: array<byte>
    var overflow: seq<byte>
    var pptr: nat  // index into `buf` while `overflow` is empty, else into `overflow`
    var epptr: nat
    var getArea: Area
    var gptr: nat
    var egptr: nat

    /** More than half of a string that has grown is in use. */
    ghost predicate Valid()
      reads this
    {
      && buf.Length >= 1
      && pptr <= epptr
      && epptr == (if overflow == [] then buf.Length else |overflow|)
      && (overflow != [] ==> 1 <= pptr && (|overflow| == buf.Length || |overflow| < 2 * pptr))
    }

    /** Everything written so far. */
    ghost function Text(): (s: seq<byte>)
      requires Valid()
      reads this, buf
    {
      if overflow == [] then buf[..pptr] else buf[..] + overflow[..pptr]
    }

    /** Nothing has been read since construction. */
    ghost predicate Unread()
      reads this
    {
      getArea == Nowhere && gptr == egptr == 0
    }

    constructor (buf: array<byte>)
      requires buf.Length >= 1
      ensures this.buf == buf && Valid() && Text() == [] && Unread()
    {
      this.buf := buf;
      overflow, pptr, epptr := [], 0, buf.Length;
      getArea, gptr, egptr := Nowhere, 0, 0;
    }

    method Overflow(c: byte) returns (r: int)
      requires Valid() && pptr == epptr
      modifies this`overflow, this`pptr, this`epptr
      ensures Valid() && Text() == old(Text()) + [c]
      ensures |overflow| == if old(overflow) == [] then buf.Length else 2 * |old(overflow)|
      ensures r != EOF
    {
      var oldLen := |overflow|;
      overflow := if oldLen == 0 then Zeros(buf.Length) else overflow + Zeros(oldLen);
      ghost var grown := overflow;
      overflow := overflow[oldLen := c];
      pptr, epptr := oldLen + 1, |overflow|;
      assert overflow[..pptr] == grown[..oldLen] + [c];
      r := c;
    }

    /** `sputc`. */
    method Put(c: byte)
      requires Valid()
      modifies this`overflow, this`pptr, this`epptr, buf
      ensures Valid() && Text() == old(Text()) + [c]
    {
      if pptr == epptr {
        var _ := Overflow(c);
      } else {
        if overflow == [] {
          buf[pptr] := c;
        } else {
          overflow := overflow[pptr := c];
        }
        ghost var n := pptr;
        pptr := pptr + 1;
        assert overflow == [] ==> buf[..pptr] == buf[..n] + [c];
        assert overflow != [] ==> overflow[..pptr] == overflow[..n] + [c];
      }
    }

    /** `get_str`. */
    method GetStr() returns (s: seq<byte>)
      requires Valid()
      ensures s == Text()
    {
      if overflow != [] {
        s := buf[..];
        s := s + overflow[..pptr];
      } else if pptr == 0 {
        s := [];
      } else {
        s := buf[..pptr];
      }
    }

    /** Where a read-back in progress stands: `done` characters are behind the get pointer. */
    ghost predicate Reading(done: nat)
      requires Valid()
      reads this, buf
    {
      match getArea
      case Nowhere => Unread() && done == 0
      case Fixed => gptr == done <= egptr == (if overflow == [] then pptr else buf.Length)
      case Overflowed => overflow != [] && egptr == pptr && gptr <= egptr && done == buf.Length + gptr
    }

    /** No area has been entered without a character being taken from it. */
    ghost predicate Settled()
      reads this
    {
      Unread() || (getArea != Nowhere && gptr > 0)
    }

    method Underflow(ghost done: nat) returns (r: int)
      requires Valid() && Reading(done) && gptr == egptr
      modifies this`getArea, this`gptr, this`egptr
      ensures Valid() && Text() == old(Text()) && Reading(done)
      ensures done == |Text()| <==> gptr == egptr
      ensures gptr == egptr ==> r == EOF
      ensures gptr < egptr ==> r == Signed(Text()[done]) && (done == 0 || done == buf.Length)
    {
      if getArea == Nowhere {
        if overflow != [] {
          getArea, gptr, egptr := Fixed, 0, buf.Length;
        } else if pptr == 0 {
          return EOF;
        } else {
          getArea, gptr, egptr := Fixed, 0, pptr;
        }
        return Signed(buf[gptr]);
      }
      if getArea == Fixed && gptr == buf.Length && overflow != [] {
        getArea, gptr, egptr := Overflowed, 0, pptr;
        return Signed(overflow[gptr]);
      }
      return EOF;
    }

    /** `sbumpc`, with the default `uflow` behind it. */
    method Bump(ghost done: nat) returns (r: int)
      requires Valid() && Reading(done) && Settled()
      modifies this`getArea, this`gptr, this`egptr
      ensures Valid() && Text() == old(Text())
      ensures r == EOF ==> done == |Text()| || (Text()[done] == 255 && (done == 0 || done == buf.Length))
      ensures r != EOF ==> Reading(done + 1) && Settled() && done < |Text()| && r == Text()[done]
      ensures r != EOF && (done == 0 || done == buf.Length) ==> r != 255
    {
      if gptr == egptr {
        var c := Underflow(done);
        if c == EOF {
          return EOF;
        }
      }
      r := if getArea == Fixed then buf[gptr] else overflow[gptr];
      gptr := gptr + 1;
    }

    /**
     A first read-back up to end of file. It returns everything written exactly when neither area
     starts with code 255, so for all text of codes 0..127.
     */
    method ReadBack() returns (s: seq<byte>)
      requires Valid() && Unread()
      modifies this`getArea, this`gptr, this`egptr
      ensures Valid() && Text() == old(Text())
      ensures s == Readable(Text(), buf.Length)
    {
      s := [];
      ghost var text := Text();
      while true
        invariant Valid() && Text() == text && |s| <= |text| && s == text[..|s|] && Reading(|s|) && Settled()
        invariant |s| > 0 ==> text[0] != 255
        invariant |s| > buf.Length ==> text[buf.Length] != 255
        decreases |text| - |s|
      {
        var c := Bump(|s|);
        if c == EOF {
          return;
        }
        s := s + [c];
      }
    }
  }

  /** The read-back is complete if and only if no area starts with code 255. */
  lemma ReadableIsAll(text: seq<byte>, fixed: nat)
    requires fixed >= 1
    ensures Readable(text, fixed) == text <==>
            !(|text| > 0 && text[0] == 255) && !(|text| > fixed && text[fixed] == 255)
  {
    if |text| > fixed {
      assert |text[..fixed]| != |text|;
    }
  }

  /** Any sequence of characters, written one by one through any buffer, is what `get_str` returns. */
  method WriteAll(buf: array<byte>, text: seq<byte>) returns (s: seq<byte>, back: seq<byte>)
    requires buf.Length >= 1
    modifies buf
    ensures s == text
    ensures back == Readable(text, buf.Length)
  {
    var b := new PrebufferedStreambuf(buf);
    for i := 0 to |text|
      invariant b.buf == buf && b.Valid() && b.Unread() && b.Text() == text[..i]
    {
      b.Put(text[i]);
    }
    assert text[..|text|] == text;
    s := b.GetStr();
    back := b.ReadBack();
  }
}

/**
 Message checksums: what `Message::encode` writes into the footer and what `decode_message`
 accepts. A buffer list is seen here as its segments, each with the address it starts at.
 */
module Message {
  import opened Bytes
  import opened Rope
  import opened Crc32c
  import opened SctpCrc32

  datatype Segment = Segment(bytes: seq<byte>, address: nat)

  /** The byte string a segmented list stands for. */
  function Concat(list: seq<Segment>): (r: seq<byte>)
  {
    if list == [] then [] else list[0].bytes + Concat(list[1..])
  }

  lemma {:induction false} ConcatAppend(a: seq<Segment>, b: seq<Segment>)
    ensures Concat(a + b) == Concat(a) + Concat(b)
    decreases |a|
  {
    if a == [] {
      assert a + b == b;
    } else {
      assert (a + b)[1..] == a[1..] + b;
      ConcatAppend(a[1..], b);
    }
  }

  /** `buffer::list::crc32c`: the checksum of the content, however it is cut into segments. */
  method ListCrc(list: seq<Segment>, crc0: Word) returns (crc: Word)
    ensures crc == Crc(crc0, Concat(list))
  {
    hide Crc;
    crc := crc0;
    CrcNone(crc0);
    for i := 0 to |list|
      invariant crc == Crc(crc0, Concat(list[..i]))
    {
      assert list[..i + 1] == list[..i] + [list[i]];
      ConcatAppend(list[..i], [list[i]]);
      assert Concat([list[i]]) == list[i].bytes;
      CrcConcat(crc0, Concat(list[..i]), list[i].bytes);
      CrcNone(crc);
      if list[i].bytes != [] {
        crc := UpdateCrc32(crc, Data(list[i].bytes, list[i].address));
      }
    }
    assert list[..|list|] == list;
  }

  /** How a checksum sees the slices of a buffer list. */
  ghost function Seen(ps: seq<Ptr>): (list: seq<Segment>)
    requires AllFit(ps)
    reads set p <- ps :: p.raw.data
    decreases |ps|
  {
    if ps == [] then [] else [Segment(View(ps[0]), ps[0].raw.addr + ps[0].off)] + Seen(ps[1..])
  }

  /** The string checksummed is the value of the list, so rearranging a list never changes its checksum. */
  lemma {:induction false} SeenValue(ps: seq<Ptr>)
    requires AllFit(ps)
    ensures Concat(Seen(ps)) == Flat(ps)
    decreases |ps|
  {
    hide Flat;
    if ps == [] {
      FlatNone();
    } else {
      HeadTail(ps);
      SeenValue(ps[1..]);
      assert Seen(ps)[1..] == Seen(ps[1..]);
    }
  }

  // ---------- Envelope ----------

  datatype Flags = Flags(complete: bool, noCrc: bool, signed: bool)

  datatype Footer = Footer(frontCrc: Word, middleCrc: Word, dataCrc: Word, flags: Flags)

  /** The `MSG_CRC_HEADER` and `MSG_CRC_DATA` bits of a side's configuration. */
  datatype CrcFlags = CrcFlags(header: bool, data: bool)

  function Checksum(bytes: seq<byte>): (r: Word)
  {
    Crc(Zero(), bytes)
  }

  /**
   The footer a sender leaves on a message with these contents. Without `MSG_CRC_HEADER` the
   front and middle fields keep whatever they held before.
   */
  function SentFooter(stale: Footer, send: CrcFlags, front: seq<byte>, middle: seq<byte>, data: seq<byte>): Footer {
    Footer(if send.header then Checksum(front) else stale.frontCrc,
           if send.header then Checksum(middle) else stale.middleCrc,
           if send.data then Checksum(data) else stale.dataCrc,
           Flags(true, !send.data, false))
  }

  /** The checksum tests that stand between a received message and its construction. */
  predicate Accepts(recv: CrcFlags, footer: Footer, front: seq<byte>, middle: seq<byte>, data: seq<byte>) {
    && (recv.header ==> Checksum(front) == footer.frontCrc && Checksum(middle) == footer.middleCrc)
    && (recv.data && !footer.flags.noCrc ==> Checksum(data) == footer.dataCrc)
  }

  /** The fields of the message header that `encode` sets or reads, apart from its checksum. */
  datatype Header = Header(version: nat, compatVersion: nat, frontLen: nat, middleLen: nat, dataLen: nat)

  class Outgoing {
    var payload: seq<Segment>
    var middle: seq<Segment>
    var data: seq<Segment>
    var version: nat
    var compatVersion: nat
    var frontLen: nat
    var middleLen: nat
    var dataLen: nat
    var headerCrc: Word
    var footer: Footer

    function HeaderNow(): Header
      reads this
    {
      Header(version, compatVersion, frontLen, middleLen, dataLen)
    }

    /**
     `encoded` is what the message type's own `encode_payload` produces, and `packed` is how a header
     lies in memory in front of its checksum, given these fields.
     */
    method Encode(encoded: seq<Segment>, packed: Header -> seq<byte>, send: CrcFlags)
      modifies this
      ensures headerCrc == if send.header then Checksum(packed(HeaderNow())) else old(headerCrc)
      ensures middle == old(middle) && data == old(data) && version == old(version)
      ensures payload == if Concat(old(payload)) == [] then old(payload) + encoded else old(payload)
      ensures compatVersion ==
              if Concat(old(payload)) == [] && old(compatVersion) == 0 then version else old(compatVersion)
      ensures frontLen == |Concat(payload)| && middleLen == |Concat(middle)| && dataLen == |Concat(data)|
      ensures footer == SentFooter(old(footer), send, Concat(payload), Concat(middle), Concat(data))
      ensures footer.flags.complete && !footer.flags.signed && (footer.flags.noCrc <==> !send.data)
      ensures send.header ==>
                && footer.frontCrc == Crc(Zero(), Concat(payload)) && footer.middleCrc == Crc(Zero(), Concat(middle))
      ensures send.data ==> footer.dataCrc == Crc(Zero(), Concat(data))
    {
      hide Crc, Concat;
      if |Concat(payload)| == 0 {
        payload := payload + encoded;
        if compatVersion == 0 {
          compatVersion := version;
        }
      }
      if send.header {
        var front := ListCrc(payload, Zero());
        var mid := ListCrc(middle, Zero());
        footer := footer.(frontCrc := front, middleCrc := mid);
      }
      frontLen, middleLen, dataLen := |Concat(payload)|, |Concat(middle)|, |Concat(data)|;
      if send.header {
        var address: nat := *;
        headerCrc := UpdateCrc32(Zero(), Data(packed(HeaderNow()), address));
      }
      footer := footer.(flags := Flags(true, false, false));
      if send.data {
        var crc := ListCrc(data, Zero());
        footer := footer.(dataCrc := crc);
      } else {
        footer := footer.(flags := footer.flags.(noCrc := true));
      }
    }
  }

  /** The checksum part of `decode_message`; the receiver may have cut the bytes up differently. */
  method VerifyCrcs(recv: CrcFlags, footer: Footer,
                    front: seq<Segment>, middle: seq<Segment>, data: seq<Segment>) returns (ok: bool)
    ensures ok == Accepts(recv, footer, Concat(front), Concat(middle), Concat(data))
    ensures ok <==>
            && (recv.header ==> footer.frontCrc == Crc(Zero(), Concat(front)))
            && (recv.header ==> footer.middleCrc == Crc(Zero(), Concat(middle)))
            && (recv.data && !footer.flags.noCrc ==> footer.dataCrc == Crc(Zero(), Concat(data)))
  {
    hide Crc;
    if recv.header {
      var frontCrc := ListCrc(front, Zero());
      var middleCrc := ListCrc(middle, Zero());
      if frontCrc != footer.frontCrc {
        return false;
      }
      if middleCrc != footer.middleCrc {
        return false;
      }
    }
    if recv.data {
      if !footer.flags.noCrc {
        var dataCrc := ListCrc(data, Zero());
        if dataCrc != footer.dataCrc {
          return false;
        }
      }
    }
    return true;
  }

  // ---------- What the checksums promise ----------

  /**
   An unmodified message is accepted exactly when the receiver does not test header checksums
   the sender never computed, or the stale fields happen to hold the right values. The data
   checksum never needs such a condition: the footer says whether it was computed.
   */
  lemma UnmodifiedAccepted(stale: Footer, send: CrcFlags, recv: CrcFlags,
                           front: seq<byte>, middle: seq<byte>, data: seq<byte>)
    ensures Accepts(recv, SentFooter(stale, send, front, middle, data), front, middle, data) <==>
            (recv.header && !send.header ==>
               stale.frontCrc == Checksum(front) && stale.middleCrc == Checksum(middle))
  {
    hide Checksum;
  }

  datatype Verdict = Aborted | BadChecksum | Accepted

  /** The receiver: a footer that is not complete ends the connection before any checksum is looked at. */
  method Receive(recv: CrcFlags, footer: Footer,
                 front: seq<Segment>, middle: seq<Segment>, data: seq<Segment>) returns (v: Verdict)
    ensures v.Aborted? <==> !footer.flags.complete
    ensures v.Accepted? <==> footer.flags.complete && Accepts(recv, footer, Concat(front), Concat(middle), Concat(data))
  {
    hide Accepts;
    var aborted := !footer.flags.complete;
    if aborted {
      return Aborted;
    }
    var ok := VerifyCrcs(recv, footer, front, middle, data);
    return if ok then Accepted else BadChecksum;
  }

  /**
   The same over the two operations together: whatever the sender's segments and however the
   receiver cuts up what it reads, an encoded message is never taken for aborted, and it is accepted
   under exactly that condition.
   */
  method SendAndVerify(m: Outgoing, encoded: seq<Segment>, packed: Header -> seq<byte>,
                       send: CrcFlags, recv: CrcFlags, cut: seq<byte> -> seq<Segment>) returns (v: Verdict)
    requires forall bytes :: Concat(cut(bytes)) == bytes
    modifies m
    ensures !v.Aborted?
    ensures v.Accepted? <==> (recv.header && !send.header ==>
                                && old(m.footer).frontCrc == Checksum(Concat(m.payload))
                                && old(m.footer).middleCrc == Checksum(Concat(m.middle)))
  {
    hide Checksum, Crc;
    m.Encode(encoded, packed, send);
    var front, middle, data := Concat(m.payload), Concat(m.middle), Concat(m.data);
    v := Receive(recv, m.footer, cut(front), cut(middle), cut(data));
    UnmodifiedAccepted(old(m.footer), send, recv, front, middle, data);
  }

  /** A one-byte message whose sender skipped the header checksums and whose receiver does not. */
  lemma UncheckedHeaderRejected()
    ensures var stale := Footer(Zero(), Zero(), Zero(), Flags(false, false, false));
            var footer := SentFooter(stale, CrcFlags(false, true), [1], [], []);
            !Accepts(CrcFlags(true, true), footer, [1], [], [])
  {
    hide Crc;
    CrcDetectsBurst(Zero(), [], [1], [0], []);
    assert [] + [1] + [] == [1] && [] + [0] + [] == [0];
    ZerosKeepZero(1);
    assert Zeros(1) == [0];
  }

  lemma {:induction false} ZerosKeepZero(n: nat)
    ensures Checksum(Zeros(n)) == Zero()
  {
    if n > 0 {
      var z := Zero();
      StepIsShift(z, 0);
      ZeroByte();
      XorLaws(z, z, z);
      ShiftClear(z, 8);
      assert Shr(z, 8) == z;
      assert Zeros(n)[1..] == Zeros(n - 1);
      ZerosKeepZero(n - 1);
    }
  }

  /** Which part of the message was altered in transit. */
  datatype Part = Front | Middle | Payload

  /**
   A part altered only inside a window of at most four bytes is rejected, whatever the other
   parts hold, when both sides checksum that part.
   */
  lemma BurstRejected(part: Part, stale: Footer, send: CrcFlags, recv: CrcFlags,
                      prefix: seq<byte>, a: seq<byte>, b: seq<byte>, suffix: seq<byte>,
                      other1: seq<byte>, other2: seq<byte>)
    requires |a| == |b| <= 4 && a != b
    requires if part.Payload? then send.data && recv.data else send.header && recv.header
    ensures var sent, got := prefix + a + suffix, prefix + b + suffix;
            match part
            case Front => !Accepts(recv, SentFooter(stale, send, sent, other1, other2), got, other1, other2)
            case Middle => !Accepts(recv, SentFooter(stale, send, other1, sent, other2), other1, got, other2)
            case Payload => !Accepts(recv, SentFooter(stale, send, other1, other2, sent), other1, other2, got)
  {
    hide Crc;
    CrcDetectsBurst(Zero(), prefix, a, b, suffix);
  }

  /**
   What these checksums cannot see: they start from zero, so zero bytes put in front of a
   part leave its checksum unchanged. Only the length fields tell the two apart.
   */
  lemma LeadingZerosUnseen(n: nat, bytes: seq<byte>)
    ensures Checksum(Zeros(n) + bytes) == Checksum(bytes)
  {
    CrcConcat(Zero(), Zeros(n), bytes);
    ZerosKeepZero(n);
  }
}

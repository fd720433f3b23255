/**
  A reader for the Orchard layout that exists only for the proofs below:
  that the encoder loses no information. It returns `None` on any byte
  sequence that is not an encoding.

  It accepts a byte sequence only when every field is where the layout puts
  it: header, type code, a length field equal to the number of bytes after
  it, family tags 4 or 6 followed by that many octets, and nothing left over.
 */
module MessageReader {
  import opened Message
  import MessageLayout

  datatype Option<+T> = None | Some(value: T)

  /** The big-endian 16-bit value at offset i. */
  function ReadU16(s: seq<uint8>, i: nat): (v: uint16)
    requires i + 2 <= |s|
    ensures BigEndian16(v) == s[i..i + 2]
  {
    (s[i] as int * 0x100 + s[i + 1] as int) as uint16
  }

  /** A sub-record read at offset i: the address, the port and the offset just past it. */
  datatype Field = Field(addr: IpAddr, port: uint16, end: nat)

  function ReadRecord(s: seq<uint8>, i: nat): Option<Field>
  {
    if |s| < i + 4 then None
    else
      var port := ReadU16(s, i);
      var family := ReadU16(s, i + 2);
      if family == 4 && i + 8 <= |s| then Some(Field(V4(s[i + 4..i + 8]), port, i + 8))
      else if family == 6 && i + 20 <= |s| then Some(Field(V6(s[i + 4..i + 20]), port, i + 20))
      else None
  }

  /** The message whose encoding s is, if there is one. */
  function Read(s: seq<uint8>): Option<OrchardMessage>
  {
    if |s| < PREAMBLE_SIZE || s[..8] != Header() || ReadU16(s, 10) as int != |s| - PREAMBLE_SIZE then None
    else if s[8..10] == NAT_PROBE_CODE then
      match ReadRecord(s, PREAMBLE_SIZE)
      case Some(f) => if f.end == |s| then Some(NatProbe(f.addr, f.port)) else None
      case None => None
    else if s[8..10] == NAT_REPLY_CODE then
      match ReadRecord(s, PREAMBLE_SIZE)
      case Some(f) =>
        (match ReadRecord(s, f.end)
         case Some(g) => if g.end == |s| then Some(NatReply(f.addr, f.port, g.addr, g.port)) else None
         case None => None)
      case None => None
    else None
  }

  /** Reading back a sub-record placed at offset |pre| recovers its address and port. */
  lemma {:induction false} ReadRecordOf(pre: seq<uint8>, a: IpAddr, port: uint16, post: seq<uint8>)
    ensures var r := Record(a, port);
      ReadRecord(pre + r + post, |pre|) == Some(Field(a, port, |pre| + |r|))
  {
    var r := Record(a, port);
    var s := pre + r + post;
    var i := |pre|;
    assert s[i..i + 2] == r[..2];
    assert s[i + 2..i + 4] == r[2..4];
    assert s[i + 4..i + |r|] == r[4..];
    BigEndian16Injective(ReadU16(s, i), port);
    BigEndian16Injective(ReadU16(s, i + 2), Version(a));
  }

  /** Two 16-bit values with the same big-endian bytes are equal. */
  lemma BigEndian16Injective(v: uint16, w: uint16)
    requires BigEndian16(v) == BigEndian16(w)
    ensures v == w
  {
  }

  /** Round trip: reading an encoding gives back the message, for both kinds and all families. */
  lemma {:induction false} ReadEncoding(m: OrchardMessage)
    ensures Read(Encoding(m)) == Some(m)
  {
    var e := Encoding(m);
    MessageLayout.EncodingParts(m);
    MessageLayout.LengthFieldCountsBody(m);
    var pre := e[..PREAMBLE_SIZE];
    assert e == pre + Body(m);
    match m {
      case NatProbe(sa, sp) =>
        assert e == pre + Record(sa, sp) + [];
        ReadRecordOf(pre, sa, sp, []);
      case NatReply(sa, sp, ra, rp) =>
        var s, r := Record(sa, sp), Record(ra, rp);
        assert e == pre + s + r;
        ReadRecordOf(pre, sa, sp, r);
        assert e == (pre + s) + r + [];
        ReadRecordOf(pre + s, ra, rp, []);
    }
  }

  /** Distinct messages have distinct encodings. */
  lemma EncodingInjective(m1: OrchardMessage, m2: OrchardMessage)
    ensures Encoding(m1) == Encoding(m2) ==> m1 == m2
  {
    ReadEncoding(m1);
    ReadEncoding(m2);
  }

  /** A reply's endpoints are kept in order: swapping them changes the bytes unless they are the same endpoint. */
  lemma ReplyOrderPreserved(sa: IpAddr, sp: uint16, ra: IpAddr, rp: uint16)
    ensures Encoding(NatReply(sa, sp, ra, rp)) == Encoding(NatReply(ra, rp, sa, sp)) <==> sa == ra && sp == rp
  {
    EncodingInjective(NatReply(sa, sp, ra, rp), NatReply(ra, rp, sa, sp));
  }

  /** A sub-record the reader accepts is the encoding of what it returned. */
  lemma ReadRecordSound(s: seq<uint8>, i: nat)
    requires ReadRecord(s, i).Some?
    ensures var f := ReadRecord(s, i).value;
      i < f.end <= |s| && s[i..f.end] == Record(f.addr, f.port)
  {
    var f := ReadRecord(s, i).value;
    var r := Record(f.addr, f.port);
    assert s[i..i + 2] == r[..2];
    assert s[i + 2..i + 4] == r[2..4];
    assert s[i + 4..f.end] == r[4..];
    assert s[i..f.end] == s[i..i + 2] + s[i + 2..i + 4] + s[i + 4..f.end];
  }

  /** The reader accepts only encodings: whatever it reads, s is that message's encoding. */
  lemma {:induction false} ReadOnlyEncodings(s: seq<uint8>)
    requires Read(s).Some?
    ensures s == Encoding(Read(s).value)
  {
    ReadPreamble(s);
    ReadBody(s);
    ReassembleEncoding(s, Read(s).value);
  }

  /** What the reader checked before the body: header, type code and length field. */
  lemma ReadPreamble(s: seq<uint8>)
    requires Read(s).Some?
    ensures |s| >= PREAMBLE_SIZE && s[..8] == Header() && s[8..10] == TypeCode(Read(s).value)
    ensures ReadU16(s, 10) as int == |s| - PREAMBLE_SIZE
  {
  }

  /** The bytes after the preamble are the body of the message read. */
  lemma {:induction false} ReadBody(s: seq<uint8>)
    requires Read(s).Some?
    ensures |s| >= PREAMBLE_SIZE && s[PREAMBLE_SIZE..] == Body(Read(s).value)
  {
    var m := Read(s).value;
    var f := ReadRecord(s, PREAMBLE_SIZE).value;
    ReadRecordSound(s, PREAMBLE_SIZE);
    if s[8..10] == NAT_PROBE_CODE {
      assert m == NatProbe(f.addr, f.port) && f.end == |s|;
    } else {
      var g := ReadRecord(s, f.end).value;
      ReadRecordSound(s, f.end);
      assert m == NatReply(f.addr, f.port, g.addr, g.port) && g.end == |s|;
      assert s[PREAMBLE_SIZE..] == s[PREAMBLE_SIZE..f.end] + s[f.end..g.end];
    }
  }

  /** Bytes whose four parts agree with a message's are that message's encoding. */
  lemma ReassembleEncoding(s: seq<uint8>, m: OrchardMessage)
    requires |s| >= PREAMBLE_SIZE && s[..8] == Header() && s[8..10] == TypeCode(m)
    requires ReadU16(s, 10) as int == |s| - PREAMBLE_SIZE && s[12..] == Body(m)
    ensures s == Encoding(m)
  {
    assert s[10..12] == BigEndian16(BodyLength(m));
    assert s == s[..8] + s[8..10] + s[10..12] + s[12..];
  }

  /** Reading s gives m exactly when s is the encoding of m. */
  lemma ReadCharacterisesEncoding(s: seq<uint8>, m: OrchardMessage)
    ensures Read(s) == Some(m) <==> s == Encoding(m)
  {
    if Read(s) == Some(m) {
      ReadOnlyEncodings(s);
    }
    if s == Encoding(m) {
      ReadEncoding(m);
    }
  }
}

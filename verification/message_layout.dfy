/**
  What the encoder promises about the bytes it writes: the fixed header,
  the type code, the value of the length field, the offset of every field
  of a probe and of a reply, and the total size.
 */
module MessageLayout {
  import opened Message

  /** Splits an encoding into its four parts at fixed offsets. */
  lemma EncodingParts(m: OrchardMessage)
    ensures var e := Encoding(m);
      && e[..8] == Header()
      && e[8..10] == TypeCode(m)
      && e[10..12] == BigEndian16(BodyLength(m))
      && e[12..] == Body(m)
  {
    ConcatSplit(Header(), TypeCode(m), BigEndian16(BodyLength(m)), Body(m));
  }

  /** Where the four parts of a header-code-length-body concatenation sit. */
  lemma ConcatSplit(h: seq<uint8>, c: seq<uint8>, l: seq<uint8>, b: seq<uint8>)
    requires |h| == 8 && |c| == 2 && |l| == 2
    ensures var e := h + c + l + b;
      e[..8] == h && e[8..10] == c && e[10..12] == l && e[12..] == b
  {
  }

  /** A slice of a suffix is a slice of the whole sequence. */
  lemma SliceOfSuffix(s: seq<uint8>, i: nat, j: nat, k: nat)
    requires i + k <= |s| && j <= k
    ensures s[i..][j..k] == s[i + j..i + k]
  {
  }

  /** A suffix of a suffix is a suffix of the whole sequence. */
  lemma SuffixOfSuffix(s: seq<uint8>, i: nat, j: nat)
    requires i + j <= |s|
    ensures s[i..][j..] == s[i + j..]
  {
  }

  /** The tag constant holds the bytes of the byte-string literal b"ORCHARD". */
  lemma {:induction false} OrchardTagIsAscii()
    ensures AsciiBytes("ORCHARD") == ORCHARD_TAG
  {
    var t := AsciiBytes("ORCHARD");
    assert t[0] as int == 'O' as int && t[1] as int == 'R' as int && t[2] as int == 'C' as int;
    assert t[3] as int == 'H' as int && t[4] as int == 'A' as int;
    assert t[5] as int == 'R' as int && t[6] as int == 'D' as int;
  }

  /** The type-code constants hold the bytes of the literals b"NP" and b"NR". */
  lemma {:induction false} TypeCodesAreAscii()
    ensures AsciiBytes("NP") == NAT_PROBE_CODE
    ensures AsciiBytes("NR") == NAT_REPLY_CODE
  {
    var p, r := AsciiBytes("NP"), AsciiBytes("NR");
    assert p[0] as int == 'N' as int && p[1] as int == 'P' as int;
    assert r[0] as int == 'N' as int && r[1] as int == 'R' as int;
  }

  /** Whatever the message, the encoding opens with "ORCHARD" and version 0. */
  lemma EncodingHeader(m: OrchardMessage)
    ensures var e := Encoding(m);
      |e| >= 8 && e[..7] == AsciiBytes("ORCHARD") && e[7] == 0
  {
    EncodingParts(m);
    OrchardTagIsAscii();
    var e := Encoding(m);
    assert e[..7] == e[..8][..7];
  }

  /** The length field (bytes 10 and 11, big-endian) counts exactly the bytes after it. */
  lemma LengthFieldCountsBody(m: OrchardMessage)
    ensures var e := Encoding(m);
      |e| >= 12 && e[10] as int * 0x100 + e[11] as int == |e| - 12
  {
    EncodingParts(m);
    var e := Encoding(m);
    assert e[10] == e[10..12][0] && e[11] == e[10..12][1];
  }

  /**
    A probe: "NP" at bytes 8-9, length field addr.len() + 4, then the port,
    the family tag and the address octets, which run to the end.
   */
  lemma ProbeLayout(a: IpAddr, port: uint16)
    ensures var e := Encoding(NatProbe(a, port));
      && |e| == 16 + Len(a) as int
      && e[8..10] == [0x4E, 0x50]
      && e[10..12] == BigEndian16(Len(a) + 4)
      && e[12..14] == BigEndian16(port)
      && e[14..16] == BigEndian16(Version(a))
      && e[16..] == Octets(a)
  {
    var m := NatProbe(a, port);
    EncodingParts(m);
    var e := Encoding(m);
    var r := Record(a, port);
    assert e[12..] == r;
    assert e[12..14] == r[..2];
    assert e[14..16] == r[2..4];
    assert e[16..] == r[4..];
  }

  /** A probe is 20 bytes with length field 8 for IPv4, 32 bytes with length field 20 for IPv6. */
  lemma ProbeSize(a: IpAddr, port: uint16)
    ensures var e := Encoding(NatProbe(a, port));
      && (a.V4? ==> |e| == 20 && e[10..12] == [0, 8])
      && (a.V6? ==> |e| == 32 && e[10..12] == [0, 20])
  {
    ProbeLayout(a, port);
  }

  /**
    A reply: "NR" at bytes 8-9, length field send_addr.len() +
    recv_addr.len() + 8, then the sender's port, family tag and octets, and
    only after them the receiver's, in the same layout. Either family may
    appear in either position.
   */
  lemma ReplyLayout(sa: IpAddr, sp: uint16, ra: IpAddr, rp: uint16)
    ensures var e := Encoding(NatReply(sa, sp, ra, rp));
      var n := Len(sa) as int;
      && |e| == 20 + n + Len(ra) as int
      && e[8..10] == [0x4E, 0x52]
      && e[10..12] == BigEndian16(Len(sa) + Len(ra) + 8)
      && e[12..14] == BigEndian16(sp)
      && e[14..16] == BigEndian16(Version(sa))
      && e[16..16 + n] == Octets(sa)
      && e[16 + n..18 + n] == BigEndian16(rp)
      && e[18 + n..20 + n] == BigEndian16(Version(ra))
      && e[20 + n..] == Octets(ra)
  {
    var m := NatReply(sa, sp, ra, rp);
    EncodingParts(m);
    var e := Encoding(m);
    var n := Len(sa) as int;
    var s, r := Record(sa, sp), Record(ra, rp);
    assert e[12..] == s + r;
    assert e[12..16 + n] == s;
    assert e[16 + n..] == r;
    assert e[12..14] == s[..2];
    assert e[14..16] == s[2..4];
    assert e[16..16 + n] == s[4..];
    SliceOfSuffix(e, 16 + n, 0, 2);
    SliceOfSuffix(e, 16 + n, 2, 4);
    SuffixOfSuffix(e, 16 + n, 4);
  }

  /**
    The reply's length field is 16 when both addresses are IPv4, 40 when
    both are IPv6 and 28 when the families are mixed; the encoding is 12
    bytes longer than that.
   */
  lemma ReplyLengthField(sa: IpAddr, sp: uint16, ra: IpAddr, rp: uint16)
    ensures var m := NatReply(sa, sp, ra, rp);
      && BodyLength(m) in {16, 28, 40}
      && (BodyLength(m) == 16 <==> sa.V4? && ra.V4?)
      && (BodyLength(m) == 28 <==> sa.V4? != ra.V4?)
      && (BodyLength(m) == 40 <==> sa.V6? && ra.V6?)
      && |Encoding(m)| == 12 + BodyLength(m) as int
      && Encoding(m)[10..12] == [0, BodyLength(m) as uint8]
  {
    var m := NatReply(sa, sp, ra, rp);
    EncodingParts(m);
  }

  /** The probe (203.0.113.5, port 40000), byte for byte. */
  lemma ProbeExample()
    ensures Encoding(NatProbe(V4([203, 0, 113, 5]), 40000)) ==
      [0x4F, 0x52, 0x43, 0x48, 0x41, 0x52, 0x44, 0,
       0x4E, 0x50, 0, 8,
       0x9C, 0x40, 0, 4, 203, 0, 113, 5]
  {
  }
}

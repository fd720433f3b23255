/**
  The Orchard wire-message encoder: the two message kinds of the NAT
  discovery protocol and the byte layout `encode` gives them.

  Every multi-byte integer is written big-endian. An encoding is an 8-byte
  header (the tag "ORCHARD" and a version byte), a 2-byte type code ("NP"
  or "NR"), a 2-byte body length and then one or two sub-records, each a
  port, a family tag (4 or 6) and the 4 or 16 octets of the address.
 */
module Message {

  /** An unsigned 8-bit value (Rust `u8`). */
  newtype uint8 = x: int | 0 <= x < 0x100

  /** An unsigned 16-bit value (Rust `u16`), used for ports, family tags and lengths. */
  newtype uint16 = x: int | 0 <= x < 0x1_0000

  /** The four octets of an IPv4 address. */
  type Octets4 = s: seq<uint8> | |s| == 4 witness [0, 0, 0, 0]

  /** The sixteen octets of an IPv6 address. */
  type Octets16 = s: seq<uint8> | |s| == 16 witness [0, 0, 0, 0, 0, 0, 0, 0, 0, 0, 0, 0, 0, 0, 0, 0]

  /** An IP address of either family, as `std::net::IpAddr` holds it. */
  datatype IpAddr = V4(o4: Octets4) | V6(o6: Octets16)

  /** An Orchard protocol message. */
  datatype OrchardMessage =
    | NatProbe(sendAddr: IpAddr, sendPort: uint16)
    | NatReply(sendAddr: IpAddr, sendPort: uint16, recvAddr: IpAddr, recvPort: uint16)

  // ---------------------------------------------------------------------------
  // Address helpers (the `IpAddrExt` extension of `IpAddr`)

  /** Number of octets in the address. */
  function Len(a: IpAddr): (n: uint16)
    ensures n == 4 <==> a.V4?
    ensures n == 16 <==> a.V6?
  {
    match a
    case V4(_) => 4
    case V6(_) => 16
  }

  /** The address-family tag written on the wire. */
  function Version(a: IpAddr): (v: uint16)
    ensures v == 4 <==> a.V4?
    ensures v == 6 <==> a.V6?
  {
    match a
    case V4(_) => 4
    case V6(_) => 6
  }

  /** The raw octets of the address, in network order. */
  function Octets(a: IpAddr): (r: seq<uint8>)
    ensures |r| == Len(a) as int
    ensures a.V4? ==> r == a.o4
    ensures a.V6? ==> r == a.o6
  {
    match a
    case V4(o) => o
    case V6(o) => o
  }

  // ---------------------------------------------------------------------------
  // Byte-level building blocks

  /** The bytes of an ASCII byte-string literal such as `b"ORCHARD"`. */
  function AsciiBytes(s: string): (r: seq<uint8>)
    requires forall i :: 0 <= i < |s| ==> s[i] as int < 0x80
    ensures |r| == |s|
    ensures forall i :: 0 <= i < |s| ==> r[i] as int == s[i] as int
  {
    if s == [] then [] else [s[0] as int as uint8] + AsciiBytes(s[1..])
  }

  /** A 16-bit value as two big-endian bytes (`put_u16::<BigEndian>`). */
  function BigEndian16(v: uint16): (r: seq<uint8>)
    ensures |r| == 2
    ensures r[0] as int * 0x100 + r[1] as int == v as int
  {
    [(v / 0x100) as uint8, (v % 0x100) as uint8]
  }

  /** The protocol tag that opens every message: the ASCII bytes of "ORCHARD". */
  const ORCHARD_TAG: seq<uint8> := [0x4F, 0x52, 0x43, 0x48, 0x41, 0x52, 0x44]

  /** The protocol version this encoder writes. */
  const ORCHARD_VERSION: uint8 := 0

  /** The type code of a `NatProbe`: the ASCII bytes of "NP". */
  const NAT_PROBE_CODE: seq<uint8> := [0x4E, 0x50]

  /** The type code of a `NatReply`: the ASCII bytes of "NR". */
  const NAT_REPLY_CODE: seq<uint8> := [0x4E, 0x52]

  /** Size of the fixed part: tag, version, type code and length field. */
  const PREAMBLE_SIZE: nat := 12

  // ---------------------------------------------------------------------------
  // The layout, as a specification

  /** The 8-byte header: tag followed by the version byte. */
  function Header(): (h: seq<uint8>)
    ensures |h| == 8 && h[..7] == ORCHARD_TAG && h[7] == ORCHARD_VERSION
  {
    ORCHARD_TAG + [ORCHARD_VERSION]
  }

  /** The 2-byte type code of a message. */
  function TypeCode(m: OrchardMessage): (c: seq<uint8>)
    ensures |c| == 2
    ensures c == NAT_PROBE_CODE <==> m.NatProbe?
    ensures c == NAT_REPLY_CODE <==> m.NatReply?
  {
    if m.NatProbe? then NAT_PROBE_CODE else NAT_REPLY_CODE
  }

  /** One sub-record: port, family tag, address octets. */
  function Record(a: IpAddr, port: uint16): (r: seq<uint8>)
    ensures |r| == 4 + Len(a) as int
    ensures r[..2] == BigEndian16(port) && r[2..4] == BigEndian16(Version(a)) && r[4..] == Octets(a)
  {
    BigEndian16(port) + BigEndian16(Version(a)) + Octets(a)
  }

  /** The body: the sender's sub-record, then the receiver's for a reply. */
  function Body(m: OrchardMessage): (b: seq<uint8>)
    ensures |b| == 4 + Len(m.sendAddr) as int + (if m.NatReply? then 4 + Len(m.recvAddr) as int else 0)
    ensures b[..4 + Len(m.sendAddr) as int] == Record(m.sendAddr, m.sendPort)
    ensures m.NatProbe? ==> b == Record(m.sendAddr, m.sendPort)
    ensures m.NatReply? ==> b[4 + Len(m.sendAddr) as int..] == Record(m.recvAddr, m.recvPort)
  {
    match m
    case NatProbe(sa, sp) => Record(sa, sp)
    case NatReply(sa, sp, ra, rp) => Record(sa, sp) + Record(ra, rp)
  }

  /** The value of the length field: the size of the body in bytes. */
  function BodyLength(m: OrchardMessage): (n: uint16)
    ensures n as int == |Body(m)|
  {
    match m
    case NatProbe(sa, _) => Len(sa) + 4
    case NatReply(sa, _, ra, _) => Len(sa) + Len(ra) + 8
  }

  /** The complete wire form of a message. */
  function Encoding(m: OrchardMessage): (e: seq<uint8>)
    ensures |e| == PREAMBLE_SIZE + BodyLength(m) as int
  {
    Header() + TypeCode(m) + BigEndian16(BodyLength(m)) + Body(m)
  }

  // ---------------------------------------------------------------------------
  // The encoder

  /**
    `OrchardMessage::encode`: appends the header, the type code, the length
    field and the sub-records to an initially empty buffer, one field at a
    time, and returns the buffer.
   */
  method Encode(m: OrchardMessage) returns (buf: seq<uint8>)
    ensures buf == Encoding(m)
  {
    buf := [];
    buf := buf + ORCHARD_TAG;
    buf := buf + [ORCHARD_VERSION];
    assert buf == Header();

    match m {
      case NatProbe(sendAddr, sendPort) =>
        buf := buf + NAT_PROBE_CODE;
        buf := buf + BigEndian16(Len(sendAddr) + 4);
        ghost var preamble := buf;
        buf := buf + BigEndian16(sendPort);
        buf := buf + BigEndian16(Version(sendAddr));
        buf := buf + Octets(sendAddr);
        RecordAppended(preamble, sendAddr, sendPort);
      case NatReply(sendAddr, sendPort, recvAddr, recvPort) =>
        buf := buf + NAT_REPLY_CODE;
        buf := buf + BigEndian16(Len(sendAddr) + Len(recvAddr) + 8);
        ghost var preamble := buf;
        buf := buf + BigEndian16(sendPort);
        buf := buf + BigEndian16(Version(sendAddr));
        buf := buf + Octets(sendAddr);
        RecordAppended(preamble, sendAddr, sendPort);
        ghost var withSender := buf;
        buf := buf + BigEndian16(recvPort);
        buf := buf + BigEndian16(Version(recvAddr));
        buf := buf + Octets(recvAddr);
        RecordAppended(withSender, recvAddr, recvPort);
        assert buf == preamble + (Record(sendAddr, sendPort) + Record(recvAddr, recvPort));
    }
  }

  /** Appending port, family tag and octets in turn appends one sub-record. */
  lemma RecordAppended(buf: seq<uint8>, a: IpAddr, port: uint16)
    ensures buf + BigEndian16(port) + BigEndian16(Version(a)) + Octets(a) == buf + Record(a, port)
  {
  }
}

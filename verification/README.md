# Orchard message encoder — a Dafny model

Orchard is a small NAT-discovery probe. A node sends a `NatProbe` carrying the
address and port it believes it sends from. The peer answers with a `NatReply`
carrying that sender endpoint and the receiver endpoint it actually observed.
The two endpoints of a reply may be of different IP families, for example
after an IPv6-to-IPv4 NAT.

This project models the encoder of `src/message.rs`: the address helpers
`len`, `version` and `octets`, the `OrchardMessage` enum and
`OrchardMessage::encode`. Every multi-byte integer is big-endian. The wire
layout is:

- the tag `"ORCHARD"` (7 bytes) and the version byte 0;
- the type code `"NP"` or `"NR"`;
- the body length (2 bytes);
- one sub-record for a probe, two for a reply (sender first). Each sub-record
  is a port (2 bytes), a family tag 4 or 6 (2 bytes) and 4 or 16 address octets.

Files:

- `message.dfy` (module `Message`) holds the data model and the encoder. It
  has fixed-width `uint8`/`uint16` newtypes and `IpAddr`, whose `V4`/`V6`
  octet sequences have length 4 and 16 by type. It also holds `Encoding`, the
  layout as a specification function, and `Encode`, the encoder as a method.
  `Encode` appends field after field to an initially empty buffer, as the
  Rust code does with `put`, `put_u8`, `put_u16` and `put_slice`, and is
  proved to produce exactly `Encoding(m)`.
- `message_layout.dfy` (module `MessageLayout`) proves what the bytes look
  like: the header, the type codes, every field's offset, the length field's
  value, total sizes, and one concrete encoding.
- `message_reader.dfy` (module `MessageReader`) holds a reader used only in
  proofs. The repository has no decoder, so the reader models no repository
  code. It shows that `Encoding` loses no information: reading an encoding
  gives back the message, and the reader accepts nothing else. Injectivity and
  the preserved order of a reply's endpoints follow from this.

## Model

| member | source | states |
|---|---|---|
| `Message.Len` | src/message.rs:38-43 | the octet count is 4 exactly for IPv4 addresses and 16 exactly for IPv6 addresses |
| `Message.Version` | src/message.rs:45-50 | the family tag is 4 exactly for IPv4 addresses and 6 exactly for IPv6 addresses |
| `Message.Octets` | src/message.rs:52-60 | the octets returned number exactly `Len(a)` and are the address's own octets |
| `Message.AsciiBytes` | src/message.rs:91 | a byte-string literal such as `b"ORCHARD"`, `b"NP"` or `b"NR"` becomes one byte per character, each equal to that character's code |
| `Message.BigEndian16` | src/message.rs:109-111 | a 16-bit value becomes two bytes `hi, lo` with `hi * 256 + lo` equal to the value |
| `Message.Header` | src/message.rs:91-92 | the header is 8 bytes: the tag followed by `ORCHARD_VERSION` |
| `Message.TypeCode` | src/message.rs:94-137 | the type code is 2 bytes, `"NP"` exactly for probes and `"NR"` exactly for replies |
| `Message.Record` | src/message.rs:110-112 | a sub-record is `4 + len` bytes: the port at 0-1, the family tag at 2-3, then the octets |
| `Message.Body` | src/message.rs:110-144 | the body is `4 + len` bytes for a probe and `8 + send.len + recv.len` for a reply; it opens with the sender's sub-record, which for a reply is followed directly by the receiver's |
| `Message.BodyLength` | src/message.rs:108-138 | the value written in the length field equals the number of body bytes |
| `Message.Encoding` | src/message.rs:82-150 | an encoding is 12 bytes longer than the value of its length field |
| `Message.Encode` | src/message.rs:82-150 | appending the fields one after another yields exactly the layout `Encoding(m)` |
| `MessageLayout.EncodingParts` | src/message.rs:91-112 | header at 0-7, type code at 8-9, big-endian length field at 10-11, body from 12 on |
| `MessageLayout.OrchardTagIsAscii` | src/message.rs:91 | the tag constant `4F 52 43 48 41 52 44` is the byte-string literal `b"ORCHARD"` |
| `MessageLayout.TypeCodesAreAscii` | src/message.rs:108-137 | the type-code constants `4E 50` and `4E 52` are the literals `b"NP"` and `b"NR"` |
| `MessageLayout.EncodingHeader` | src/message.rs:66-92 | every encoding, whatever the message, starts with the seven ASCII bytes of "ORCHARD" and the version byte 0 |
| `MessageLayout.LengthFieldCountsBody` | src/message.rs:108-144 | bytes 10-11 read big-endian equal the number of bytes that follow them |
| `MessageLayout.ProbeLayout` | src/message.rs:95-112 | probe: "NP" at 8-9, length `len + 4` at 10-11, port at 12-13, family at 14-15, octets from 16 to the end |
| `MessageLayout.ProbeSize` | src/message.rs:99-112 | a probe is 20 bytes with length field 8 for IPv4 and 32 bytes with length field 20 for IPv6 |
| `MessageLayout.ReplyLayout` | src/message.rs:114-144 | reply: "NR", length `send.len + recv.len + 8`, the whole sender sub-record, then the receiver's, for any mix of families |
| `MessageLayout.ReplyLengthField` | src/message.rs:121-138 | the reply length field is 16, 28 or 40: 16 iff both IPv4, 40 iff both IPv6, 28 iff mixed; output is 12 bytes longer |
| `MessageLayout.ProbeExample` | src/message.rs:95-112 | the probe from 203.0.113.5 port 40000 encodes to the 20 bytes listed, octets at 16-19 |
| `MessageReader.ReadU16` | src/message.rs:109-111 | reading two bytes big-endian inverts `BigEndian16` |
| `MessageReader.BigEndian16Injective` | src/message.rs:109-111 | distinct 16-bit values have distinct big-endian encodings |
| `MessageReader.ReadEncoding` | src/message.rs:84-144 | round trip: the proof-only reader recovers every message from its encoding, both kinds and all family mixes |
| `MessageReader.EncodingInjective` | src/message.rs:84-144 | distinct messages have distinct encodings |
| `MessageReader.ReplyOrderPreserved` | src/message.rs:114-144 | swapping a reply's endpoints changes its encoding unless the two endpoints are equal |
| `MessageReader.ReadOnlyEncodings` | src/message.rs:84-144 | every byte sequence the reader accepts is the encoding of the message it returns |
| `MessageReader.ReadCharacterisesEncoding` | src/message.rs:84-144 | reading `s` yields `m` if and only if `s` is the encoding of `m` |

## Left out

- `src/main.rs` is not part of this model. It binds a UDP socket, registers it with `mio` and runs a timed poll loop that only prints and panics. It never encodes, decodes or sends a message.
- The debug `println!` of the buffer in `encode` is console output.
- `BytesMut::with_capacity(1024)` and `freeze` are buffer-library details. The buffer is a `seq<uint8>` that starts empty and is returned as is.
- `octets` fills a fresh `Vec` with a single `extend_from_slice`. `Message.Octets` returns that same sequence as a value. No separate vector object is modelled.
- `std::net::IpAddr` is replaced by a two-case datatype whose octet sequences have length 4 and 16.
- Decoding: the repository has no decoder. `MessageReader` exists only for the proofs above and returns `None` on any byte sequence that is not an encoding.
- `u16` overflow in the length-field sums cannot happen: the largest value is 40. The `uint16` newtype checks this at every addition.
- The family tag written is `version()` (4 or 6), not the octet count `len()` (4 or 16). The proof-only reader accepts exactly the tags 4 and 6.

/**
 The Ethernet header at the start of every packet-in: destination address,
 source address and the 16-bit Length/Type field in network byte order, as
 laid out by the MAC frame format of IEEE 802.3, clause 3.
 */
module Packet {
  import opened Wrappers

  /** One octet of a frame. */
  type byte = b: int | 0 <= b < 0x100

  /** A 16-bit unsigned field. */
  type uint16 = n: int | 0 <= n < 0x1_0000

  /** A 48-bit MAC address as its six octets. */
  type Mac = s: seq<byte> | |s| == 6 witness [0, 0, 0, 0, 0, 0]

  /** Octets taken by destination, source and Length/Type. */
  const HEADER_LENGTH: nat := 14

  datatype EthernetHeader = EthernetHeader(dst: Mac, src: Mac, ethType: uint16)

  /**
   The header unpacked with the big-endian layout `6s 6s H` from offset 0; a
   frame shorter than the header cannot be unpacked.
   */
  function ParseHeader(data: seq<byte>): (h: Option<EthernetHeader>)
    ensures h.Some? <==> |data| >= HEADER_LENGTH
  {
    if |data| < HEADER_LENGTH then None
    else Some(EthernetHeader(data[..6], data[6..12], (data[12] as int) * 0x100 + (data[13] as int)))
  }

  /** The header's octets on the wire: destination, source, then the type, high octet first. */
  function EncodeHeader(h: EthernetHeader): (bytes: seq<byte>)
    ensures |bytes| == HEADER_LENGTH
  {
    h.dst + h.src + [h.ethType / 0x100, h.ethType % 0x100]
  }

  /** Parsing a frame that starts with an encoded header gives that header back, whatever follows. */
  lemma ParseEncode(h: EthernetHeader, payload: seq<byte>)
    ensures ParseHeader(EncodeHeader(h) + payload) == Some(h)
  {
    var data := EncodeHeader(h) + payload;
    assert data[..6] == h.dst;
    assert data[6..12] == h.src;
    assert data[12] == h.ethType / 0x100 && data[13] == h.ethType % 0x100;
  }

  /** Every frame long enough is its parsed header, re-encoded, followed by the rest. */
  lemma EncodeParse(data: seq<byte>)
    requires |data| >= HEADER_LENGTH
    ensures ParseHeader(data).Some?
    ensures EncodeHeader(ParseHeader(data).value) + data[HEADER_LENGTH..] == data
  {
    var h := ParseHeader(data).value;
    assert h.ethType / 0x100 == data[12] && h.ethType % 0x100 == data[13];
    assert data == data[..6] + data[6..12] + [data[12], data[13]] + data[14..];
  }
}

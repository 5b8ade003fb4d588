/**
  The fixed-size headers of the Broadcom gSPI link: the SDPCM bus header
  that starts every frame, the CDC header of control (ioctl) messages, the
  BDC header of event and data messages, and the Broadcom event packet.

  The runner moves these headers to and from bytes with `to_bytes` /
  `from_bytes`; the layouts below put the fields in the order the runner
  lists them when it builds a header, packed, little-endian, and the event
  packet in network order (the runner byte-swaps it after reading).
 */
module Structs {
  import opened Bytes

  const SDPCM_SIZE: nat := 12
  const CDC_SIZE: nat := 16
  const BCD_SIZE: nat := 4
  /** Ethernet header (14) + Broadcom event header (10) + event message (48). */
  const EVENT_PACKET_SIZE: nat := 72
  const EVENT_MESSAGE_SIZE: nat := 48

  /** Channel numbers carried in the low nibble of `channel_and_flags`. */
  const CHANNEL_TYPE_CONTROL: u8 := 0
  const CHANNEL_TYPE_EVENT: u8 := 1
  const CHANNEL_TYPE_DATA: u8 := 2

  /** `BDC_VERSION << BDC_VERSION_SHIFT` with version 2 and shift 4. */
  const BDC_FLAGS_V2: u8 := 0x20

  datatype SdpcmHeader = SdpcmHeader(
    len: u16,
    lenInv: u16,
    sequence: u8,
    channelAndFlags: u8,
    nextLength: u8,
    headerLength: u8,
    wirelessFlowControl: u8,
    busDataCredit: u8,
    reserved: (u8, u8))

  datatype CdcHeader = CdcHeader(cmd: u32, len: u32, flags: u16, id: u16, status: u32)

  datatype BcdHeader = BcdHeader(flags: u8, priority: u8, flags2: u8, dataOffset: u8)

  /** The fields of a Broadcom event packet that the runner inspects. */
  datatype EventPacket = EventPacket(
    etherType: u16,
    subtype: u16,
    oui: (u8, u8, u8),
    userSubtype: u16,
    eventType: u32,
    status: u32,
    datalen: u32)

  /** `channel_and_flags & 0x0f`: the channel is the low nibble. */
  function Channel(h: SdpcmHeader): (c: u8)
    ensures c < 16
    ensures (h.channelAndFlags - c) % 16 == 0
    ensures h.channelAndFlags < 16 ==> c == h.channelAndFlags
  {
    h.channelAndFlags % 16
  }

  function EncodeSdpcm(h: SdpcmHeader): (b: seq<u8>)
    ensures |b| == SDPCM_SIZE
    ensures DecodeSdpcm(b) == h
  {
    Le16(h.len) + Le16(h.lenInv)
    + [h.sequence, h.channelAndFlags, h.nextLength, h.headerLength,
       h.wirelessFlowControl, h.busDataCredit, h.reserved.0, h.reserved.1]
  }

  /** The SDPCM header held in the first `SDPCM_SIZE` bytes of `b`. */
  function DecodeSdpcm(b: seq<u8>): SdpcmHeader
    requires |b| >= SDPCM_SIZE
  {
    SdpcmHeader(ReadLe16(b, 0), ReadLe16(b, 2), b[4], b[5], b[6], b[7], b[8], b[9], (b[10], b[11]))
  }

  function EncodeCdc(c: CdcHeader): (b: seq<u8>)
    ensures |b| == CDC_SIZE
    ensures DecodeCdc(b) == c
  {
    Le32(c.cmd) + Le32(c.len) + Le16(c.flags) + Le16(c.id) + Le32(c.status)
  }

  /** The CDC header held in the first `CDC_SIZE` bytes of `b`. */
  function DecodeCdc(b: seq<u8>): CdcHeader
    requires |b| >= CDC_SIZE
  {
    CdcHeader(ReadLe32(b, 0), ReadLe32(b, 4), ReadLe16(b, 8), ReadLe16(b, 10), ReadLe32(b, 12))
  }

  function EncodeBcd(h: BcdHeader): (b: seq<u8>)
    ensures |b| == BCD_SIZE
    ensures DecodeBcd(b) == h
  {
    [h.flags, h.priority, h.flags2, h.dataOffset]
  }

  /** The BDC header held in the first `BCD_SIZE` bytes of `b`. */
  function DecodeBcd(b: seq<u8>): BcdHeader
    requires |b| >= BCD_SIZE
  {
    BcdHeader(b[0], b[1], b[2], b[3])
  }

  /**
    The event packet held in the first `EVENT_PACKET_SIZE` bytes of `b`,
    after the byte swap: the Ethernet type at 12, the Broadcom header
    (subtype, length, version, OUI, user subtype) at 14, and the event
    message (version, flags, event type, status, reason, auth type, data
    length, ...) at 24.
   */
  function DecodeEventPacket(b: seq<u8>): EventPacket
    requires |b| >= EVENT_PACKET_SIZE
  {
    EventPacket(
      ReadBe16(b, 12),
      ReadBe16(b, 14),
      (b[19], b[20], b[21]),
      ReadBe16(b, 22),
      ReadBe32(b, 28),
      ReadBe32(b, 32),
      ReadBe32(b, 44))
  }

  /** Decoding looks only at the header's own bytes, whatever follows them. */
  lemma DecodeSdpcmPrefix(b: seq<u8>, p: seq<u8>)
    requires |p| >= SDPCM_SIZE && p <= b
    ensures DecodeSdpcm(b) == DecodeSdpcm(p)
  {
  }

  lemma DecodeCdcPrefix(b: seq<u8>, p: seq<u8>)
    requires |p| >= CDC_SIZE && p <= b
    ensures DecodeCdc(b) == DecodeCdc(p)
  {
  }

  lemma DecodeBcdPrefix(b: seq<u8>, p: seq<u8>)
    requires |p| >= BCD_SIZE && p <= b
    ensures DecodeBcd(b) == DecodeBcd(p)
  {
  }
}

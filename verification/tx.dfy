/**
  Outbound framing: the ioctl frames of `send_ioctl` and the data frames of
  the transmit arm of `run`. Both build the frame in a zeroed 512-word
  buffer, consume one sequence number, and hand `wlan_write` the frame
  rounded up to whole 32-bit words.
 */
module Outbound {
  import opened Bytes
  import opened Structs
  import opened Credit

  /** The transmit buffer, `[u32; 512]`, in bytes. */
  const TX_BUF_BYTES: nat := 2048

  /** `IoctlType`: the kind of an ioctl, in the low bits of the CDC flags. */
  datatype IoctlKind = Get | Set

  function KindCode(k: IoctlKind): u16
  {
    match k
    case Get => 0
    case Set => 2
  }

  /** A pending ioctl as the control plane hands it to the runner. */
  datatype IoctlRequest = IoctlRequest(kind: IoctlKind, cmd: u32, iface: u32, data: seq<u8>)

  /** The runner state after a send and the bytes handed to `wlan_write`. */
  datatype Sent = Sent(state: Runner, frame: seq<u8>)

  /** The SDPCM header the host puts on a frame of `total` bytes. */
  function TxHeader(s: Runner, channel: u8, total: nat): SdpcmHeader
  {
    SdpcmHeader(Trunc16(total), Not16(Trunc16(total)), s.sdpcmSeq, channel, 0, SDPCM_SIZE, 0, 0, (0, 0))
  }

  /**
    The bytes written for a frame: the SDPCM header, a channel header
    `sub`, the payload, and the zeroed rest of the buffer up to the next
    multiple of four, since `wlan_write` takes `total_len / 4` words.
   */
  function Frame(s: Runner, channel: u8, sub: seq<u8>, payload: seq<u8>): (f: seq<u8>)
    requires SDPCM_SIZE + |sub| + |payload| <= TX_BUF_BYTES
    ensures var total := SDPCM_SIZE + |sub| + |payload|;
            && |f| % 4 == 0 && total <= |f| < total + 4 && |f| <= TX_BUF_BYTES
            && DecodeSdpcm(f) == TxHeader(s, channel, total)
            && f[SDPCM_SIZE..SDPCM_SIZE + |sub|] == sub
            && f[SDPCM_SIZE + |sub|..total] == payload
            && (forall i :: total <= i < |f| ==> f[i] == 0)
  {
    var total := SDPCM_SIZE + |sub| + |payload|;
    var header := EncodeSdpcm(TxHeader(s, channel, total));
    var body := header + sub + payload;
    var f := body + Zeros(RoundUp4(total) - total);
    assert f[..SDPCM_SIZE] == header;
    DecodeSdpcmPrefix(f, header);
    assert f[SDPCM_SIZE..SDPCM_SIZE + |sub|] == sub;
    assert f[SDPCM_SIZE + |sub|..total] == payload;
    f
  }

  /**
    `kind as u16 | (iface as u16) << 12`: the shift keeps only the low four
    bits of `iface`, in bits 12..15, where `kind` has none, so the OR is a
    sum.
   */
  function CdcFlags(kind: IoctlKind, iface: u32): (f: u16)
    ensures f % 0x1000 == KindCode(kind)
    ensures f / 0x1000 == iface % 16
  {
    KindCode(kind) + (iface % 16) * 0x1000
  }

  /**
    `send_ioctl`: stamps the old sequence number and the new ioctl id, and
    frames the request data on the control channel behind a CDC header.
    The data must fit the 2048-byte buffer behind both headers, or the copy
    into the buffer panics.
   */
  function SendIoctl(s: Runner, req: IoctlRequest): (r: Sent)
    requires SDPCM_SIZE + CDC_SIZE + |req.data| <= TX_BUF_BYTES
    ensures r.state.sdpcmSeq == (s.sdpcmSeq + 1) % 0x100
    ensures r.state.ioctlId == (s.ioctlId + 1) % 0x1_0000
    ensures r.state.sdpcmSeqMax == s.sdpcmSeqMax
    ensures |r.frame| % 4 == 0 && SDPCM_SIZE + CDC_SIZE + |req.data| <= |r.frame| < SDPCM_SIZE + CDC_SIZE + |req.data| + 4
    ensures var total := SDPCM_SIZE + CDC_SIZE + |req.data|;
            var h := DecodeSdpcm(r.frame);
            && h.len == total && h.lenInv == Not16(h.len)
            && h.sequence == s.sdpcmSeq && Channel(h) == CHANNEL_TYPE_CONTROL
            && h.headerLength == SDPCM_SIZE
            && DecodeCdc(r.frame[SDPCM_SIZE..])
               == CdcHeader(req.cmd, |req.data|, CdcFlags(req.kind, req.iface), r.state.ioctlId, 0)
            && r.frame[SDPCM_SIZE + CDC_SIZE..total] == req.data
            && (forall i :: total <= i < |r.frame| ==> r.frame[i] == 0)
  {
    var next := Advance(s).(ioctlId := WrappingAdd16(s.ioctlId, 1));
    var cdc := CdcHeader(req.cmd, |req.data|, CdcFlags(req.kind, req.iface), next.ioctlId, 0);
    var sub := EncodeCdc(cdc);
    var f := Frame(s, CHANNEL_TYPE_CONTROL, sub, req.data);
    assert f[SDPCM_SIZE..][..CDC_SIZE] == sub;
    DecodeCdcPrefix(f[SDPCM_SIZE..], sub);
    Sent(next, f)
  }

  /** The BDC header of an outbound data frame: version 2, no offset. */
  function TxBcd(): BcdHeader
  {
    BcdHeader(BDC_FLAGS_V2, 0, 0, 0)
  }

  /**
    The transmit arm of `run`: frames an Ethernet packet on the data
    channel behind a BDC header, consuming one sequence number and leaving
    the ioctl id alone.
   */
  function TxData(s: Runner, packet: seq<u8>): (r: Sent)
    requires SDPCM_SIZE + BCD_SIZE + |packet| <= TX_BUF_BYTES
    ensures r.state.sdpcmSeq == (s.sdpcmSeq + 1) % 0x100
    ensures r.state.ioctlId == s.ioctlId && r.state.sdpcmSeqMax == s.sdpcmSeqMax
    ensures |r.frame| % 4 == 0 && SDPCM_SIZE + BCD_SIZE + |packet| <= |r.frame| < SDPCM_SIZE + BCD_SIZE + |packet| + 4
    ensures var total := SDPCM_SIZE + BCD_SIZE + |packet|;
            var h := DecodeSdpcm(r.frame);
            && h.len == total && h.lenInv == Not16(h.len)
            && h.sequence == s.sdpcmSeq && Channel(h) == CHANNEL_TYPE_DATA
            && h.headerLength == SDPCM_SIZE
            && DecodeBcd(r.frame[SDPCM_SIZE..]).dataOffset == 0
            && r.frame[SDPCM_SIZE + BCD_SIZE..total] == packet
            && (forall i :: total <= i < |r.frame| ==> r.frame[i] == 0)
  {
    var sub := EncodeBcd(TxBcd());
    var f := Frame(s, CHANNEL_TYPE_DATA, sub, packet);
    assert f[SDPCM_SIZE..][..BCD_SIZE] == sub;
    DecodeBcdPrefix(f[SDPCM_SIZE..], sub);
    Sent(Advance(s), f)
  }
}

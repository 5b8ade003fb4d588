/**
  Round trips between the outbound framing and the inbound checks: a frame
  the host builds, cut to the length stamped in its header, passes `rx`'s
  header checks with the stamped sequence number, and its payload comes
  back out unchanged.
 */
module Loopback {
  import opened Bytes
  import opened Structs
  import opened Credit
  import opened Outbound
  import opened Inbound

  /**
    The header checks accept an encoded header followed by `rest` exactly
    when the header's `len` and `len_inv` are complementary and `len`
    counts the header and `rest`; the header accepted is the one encoded.
   */
  lemma {:induction false} ValidateEncodedIff(h: SdpcmHeader, rest: seq<u8>)
    ensures ValidateSdpcm(EncodeSdpcm(h) + rest).Success?
            <==> h.lenInv == Not16(h.len) && h.len == SDPCM_SIZE + |rest|
    ensures ValidateSdpcm(EncodeSdpcm(h) + rest).Success?
            ==> ValidateSdpcm(EncodeSdpcm(h) + rest).value == h
  {
    var b := EncodeSdpcm(h) + rest;
    DecodeSdpcmPrefix(b, EncodeSdpcm(h));
    assert DecodeSdpcm(b) == h;
  }

  /**
    A chip response that echoes the host's ioctl frame (same CDC header,
    status 0) completes the pending ioctl with exactly the request data:
    the id stamped by `send_ioctl` is the id `rx` waits for.
   */
  lemma {:induction false} IoctlEchoCompletes(s: Runner, req: IoctlRequest, rxBufFree: bool)
    requires SDPCM_SIZE + CDC_SIZE + |req.data| <= TX_BUF_BYTES
    ensures var sent := SendIoctl(s, req);
            var p := sent.frame[..SDPCM_SIZE + CDC_SIZE + |req.data|];
            && ValidateSdpcm(p).Success?
            && ValidateSdpcm(p).value.sequence == s.sdpcmSeq
            && RxDefined(sent.state.ioctlId, p, rxBufFree)
            && Rx(sent.state, p, rxBufFree).delivery == IoctlDone(req.data)
  {
    var sent := SendIoctl(s, req);
    var total := SDPCM_SIZE + CDC_SIZE + |req.data|;
    var p := sent.frame[..total];
    DecodeSdpcmPrefix(sent.frame, p);
    var h := DecodeSdpcm(p);
    assert ValidateSdpcm(p) == Success(h);
    var payload := p[h.headerLength..];
    assert payload <= sent.frame[SDPCM_SIZE..];
    DecodeCdcPrefix(sent.frame[SDPCM_SIZE..], payload);
    assert payload[CDC_SIZE..][..|req.data|] == req.data;
  }

  /**
    A data frame built by the transmit arm, fed back to `rx` with room in
    the network channel, forwards exactly the packet that was sent.
   */
  lemma {:induction false} DataFrameRoundTrip(s: Runner, packet: seq<u8>)
    requires |packet| <= MTU
    ensures var sent := TxData(s, packet);
            var p := sent.frame[..SDPCM_SIZE + BCD_SIZE + |packet|];
            && ValidateSdpcm(p).Success?
            && ValidateSdpcm(p).value.sequence == s.sdpcmSeq
            && RxDefined(sent.state.ioctlId, p, true)
            && Rx(sent.state, p, true).delivery == Forwarded(packet)
  {
    var sent := TxData(s, packet);
    var total := SDPCM_SIZE + BCD_SIZE + |packet|;
    var p := sent.frame[..total];
    DecodeSdpcmPrefix(sent.frame, p);
    var h := DecodeSdpcm(p);
    assert ValidateSdpcm(p) == Success(h);
    var payload := p[h.headerLength..];
    assert payload <= sent.frame[SDPCM_SIZE..];
    DecodeBcdPrefix(sent.frame[SDPCM_SIZE..], payload);
    assert payload[PacketStart(payload)..] == packet;
  }
}

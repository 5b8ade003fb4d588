/**
  Inbound frames (`rx`): validation of the SDPCM header, the credit
  update, and dispatch on the channel nibble to the ioctl completion, the
  event filter or the network channel.

  The source panics on some malformed frames instead of dropping them;
  `RxDefined` names those frames and `Rx` is defined for all others.
 */
module Inbound {
  import opened Bytes
  import opened Structs
  import opened Credit

  /** Size of a network-channel receive buffer (an Ethernet frame). */
  const MTU: nat := 1514

  /** HPNA / wlan link-local tunnel Ethernet type. */
  const ETH_P_LINK_CTL: u16 := 0x886c
  const BROADCOM_OUI: (u8, u8, u8) := (0x00, 0x10, 0x18)
  const BCMILCP_SUBTYPE_VENDOR_LONG: u16 := 32769
  const BCMILCP_BCM_SUBTYPE_EVENT: u16 := 1

  /** Event codes of the two events the runner publishes. */
  const EVENT_JOIN: u8 := 1
  const EVENT_AUTH: u8 := 3

  /** Why a frame was dropped (each is a `warn!` and an early return). */
  datatype Drop =
    | TooShort
    | LenInvMismatch
    | LenMismatch
    | PayloadTooShort
    | EventHeaderIncomplete
    | UnexpectedEtherType
    | UnexpectedOui
    | UnexpectedSubtype
    | UnexpectedUserSubtype
    | EventDataIncomplete
    | PacketStartOutOfRange
    | RxChannelFull

  /** The record published to event subscribers. */
  datatype EventStatus = EventStatus(status: u32, eventType: u8)

  /** What became of one inbound frame. */
  datatype Delivery =
    | Dropped(why: Drop)
    | IoctlDone(response: seq<u8>)
    | EventPublished(event: EventStatus)
    | Forwarded(packet: seq<u8>)
    | Ignored

  datatype Received = Received(state: Runner, delivery: Delivery)

  /**
    The three checks on the bus header: long enough to hold it, `len` the
    bitwise NOT of `len_inv`, and `len` equal to the length the bus
    reported.
   */
  function ValidateSdpcm(packet: seq<u8>): (r: Result<SdpcmHeader, Drop>)
    ensures |packet| < SDPCM_SIZE ==> r == Failure(TooShort)
    ensures r.Success? ==> |packet| >= SDPCM_SIZE && r.value == DecodeSdpcm(packet)
    ensures r.Success? ==> r.value.len == |packet| && r.value.lenInv == Not16(r.value.len)
    ensures |packet| >= SDPCM_SIZE
            && DecodeSdpcm(packet).lenInv == Not16(DecodeSdpcm(packet).len)
            && DecodeSdpcm(packet).len == |packet|
            ==> r.Success?
  {
    if |packet| < SDPCM_SIZE then Failure(TooShort)
    else
      var h := DecodeSdpcm(packet);
      if h.len != Not16(h.lenInv) then Failure(LenInvMismatch)
      else if h.len != |packet| then Failure(LenMismatch)
      else Success(h)
  }

  /** The start of the Ethernet packet behind a BDC header (`data_offset` is in words). */
  function PacketStart(payload: seq<u8>): nat
    requires |payload| >= BCD_SIZE
  {
    BCD_SIZE + 4 * DecodeBcd(payload).dataOffset
  }

  /** A control frame `rx` handles without panicking: a matching id needs a success status and a full response. */
  predicate ControlDefined(id: u16, payload: seq<u8>)
  {
    |payload| >= CDC_SIZE && DecodeCdc(payload).id == id
    ==> DecodeCdc(payload).status == 0 && CDC_SIZE + DecodeCdc(payload).len <= |payload|
  }

  /** The control channel: completes the pending ioctl when the CDC id matches. */
  function ControlDelivery(id: u16, payload: seq<u8>): (d: Delivery)
    requires ControlDefined(id, payload)
    ensures d.IoctlDone? || d == Ignored || d == Dropped(PayloadTooShort)
  {
    if |payload| < CDC_SIZE then Dropped(PayloadTooShort)
    else
      var cdc := DecodeCdc(payload);
      if cdc.id == id then IoctlDone(payload[CDC_SIZE..][..cdc.len])
      else Ignored
  }

  /** The event channel: the Broadcom event filter, publishing only AUTH and JOIN. */
  function EventDelivery(payload: seq<u8>): (d: Delivery)
    requires |payload| >= BCD_SIZE
    ensures d.EventPublished? ==> d.event.eventType in {EVENT_AUTH, EVENT_JOIN}
    ensures d.Dropped? || d.EventPublished? || d == Ignored
  {
    var start := PacketStart(payload);
    if start + EVENT_PACKET_SIZE > |payload| then Dropped(EventHeaderIncomplete)
    else
      var bcdPacket := payload[start..];
      var ev := DecodeEventPacket(bcdPacket);
      if ev.etherType != ETH_P_LINK_CTL then Dropped(UnexpectedEtherType)
      else if ev.oui != BROADCOM_OUI then Dropped(UnexpectedOui)
      else if ev.subtype != BCMILCP_SUBTYPE_VENDOR_LONG then Dropped(UnexpectedSubtype)
      else if ev.userSubtype != BCMILCP_BCM_SUBTYPE_EVENT then Dropped(UnexpectedUserSubtype)
      else if ev.datalen >= |bcdPacket| - EVENT_MESSAGE_SIZE then Dropped(EventDataIncomplete)
      else
        // `event_type as u8`: only the low byte selects the event.
        var eventType := ev.eventType % 0x100;
        if eventType == EVENT_AUTH || eventType == EVENT_JOIN then
          EventPublished(EventStatus(ev.status, eventType))
        else
          Ignored
  }

  /** A data frame `rx` handles without panicking: the packet fits the receive buffer. */
  predicate DataDefined(payload: seq<u8>, rxBufFree: bool)
  {
    |payload| >= BCD_SIZE
    && (rxBufFree && PacketStart(payload) <= |payload| ==> |payload| - PacketStart(payload) <= MTU)
  }

  /** The data channel: forwards the Ethernet packet if the network channel has room. */
  function DataDelivery(payload: seq<u8>, rxBufFree: bool): (d: Delivery)
    requires DataDefined(payload, rxBufFree)
    ensures !rxBufFree ==> !d.Forwarded?
    ensures d.Forwarded? ==> |d.packet| <= MTU && |d.packet| <= |payload| && d.packet == payload[|payload| - |d.packet|..]
  {
    var start := PacketStart(payload);
    if start > |payload| then Dropped(PacketStartOutOfRange)
    else if !rxBufFree then Dropped(RxChannelFull)
    else Forwarded(payload[start..])
  }

  /** The frames `rx` handles without panicking, given the current ioctl id. */
  predicate RxDefined(id: u16, packet: seq<u8>, rxBufFree: bool)
  {
    match ValidateSdpcm(packet)
    case Failure(_) => true
    case Success(h) =>
      && h.headerLength <= |packet|
      && var payload := packet[h.headerLength..];
      && (Channel(h) == CHANNEL_TYPE_CONTROL ==> ControlDefined(id, payload))
      && (Channel(h) == CHANNEL_TYPE_EVENT ==> |payload| >= BCD_SIZE)
      && (Channel(h) == CHANNEL_TYPE_DATA ==> DataDefined(payload, rxBufFree))
  }

  /**
    `rx`: one inbound frame. `rxBufFree` says whether the network channel
    has a free receive buffer (`try_rx_buf` returned one).
   */
  function Rx(s: Runner, packet: seq<u8>, rxBufFree: bool): (r: Received)
    requires RxDefined(s.ioctlId, packet, rxBufFree)
    ensures r.state.sdpcmSeq == s.sdpcmSeq && r.state.ioctlId == s.ioctlId
    ensures ValidateSdpcm(packet).Failure? ==> r == Received(s, Dropped(ValidateSdpcm(packet).error))
    ensures ValidateSdpcm(packet).Success? ==> r.state == UpdateCredit(s, ValidateSdpcm(packet).value)
  {
    match ValidateSdpcm(packet)
    case Failure(why) => Received(s, Dropped(why))
    case Success(h) =>
      var next := UpdateCredit(s, h);
      var payload := packet[h.headerLength..];
      var channel := Channel(h);
      var delivery :=
        if channel == CHANNEL_TYPE_CONTROL then ControlDelivery(next.ioctlId, payload)
        else if channel == CHANNEL_TYPE_EVENT then EventDelivery(payload)
        else if channel == CHANNEL_TYPE_DATA then DataDelivery(payload, rxBufFree)
        else Ignored;
      Received(next, delivery)
  }

  /**
    The header checks reject exactly the inconsistent frames, and a
    rejected frame leaves the runner state as it was: no credit is taken
    from a frame that failed them.
   */
  lemma RxRejectsInconsistentHeader(s: Runner, packet: seq<u8>, rxBufFree: bool)
    requires RxDefined(s.ioctlId, packet, rxBufFree)
    ensures var r := Rx(s, packet, rxBufFree);
            (|| |packet| < SDPCM_SIZE
             || DecodeSdpcm(packet).lenInv != Not16(DecodeSdpcm(packet).len)
             || DecodeSdpcm(packet).len != |packet|)
            <==>
            (r.state == s && r.delivery.Dropped? && r.delivery.why in {TooShort, LenInvMismatch, LenMismatch})
  {
  }

  /**
    A control frame completes the pending ioctl exactly when its CDC id is
    the current ioctl id; the response is the `len` bytes behind the CDC
    header.
   */
  lemma RxCompletesIoctlIff(s: Runner, packet: seq<u8>, rxBufFree: bool)
    requires RxDefined(s.ioctlId, packet, rxBufFree)
    ensures var r := Rx(s, packet, rxBufFree);
            r.delivery.IoctlDone?
            <==>
            && ValidateSdpcm(packet).Success?
            && var h := ValidateSdpcm(packet).value;
               var payload := packet[h.headerLength..];
               && Channel(h) == CHANNEL_TYPE_CONTROL
               && |payload| >= CDC_SIZE
               && DecodeCdc(payload).id == s.ioctlId
    ensures var r := Rx(s, packet, rxBufFree);
            r.delivery.IoctlDone? ==>
              var h := ValidateSdpcm(packet).value;
              var payload := packet[h.headerLength..];
              && |r.delivery.response| == DecodeCdc(payload).len
              && r.delivery.response == payload[CDC_SIZE..CDC_SIZE + DecodeCdc(payload).len]
  {
  }

  /**
    An event is published exactly when the frame passes every check of the
    event filter and names AUTH or JOIN; what is published is its status
    and type.
   */
  lemma RxPublishesIff(s: Runner, packet: seq<u8>, rxBufFree: bool)
    requires RxDefined(s.ioctlId, packet, rxBufFree)
    ensures var r := Rx(s, packet, rxBufFree);
            r.delivery.EventPublished?
            <==>
            && ValidateSdpcm(packet).Success?
            && var h := ValidateSdpcm(packet).value;
               var payload := packet[h.headerLength..];
               && Channel(h) == CHANNEL_TYPE_EVENT
               && PacketStart(payload) + EVENT_PACKET_SIZE <= |payload|
               && var ev := DecodeEventPacket(payload[PacketStart(payload)..]);
                  && ev.etherType == 0x886c
                  && ev.oui == (0x00, 0x10, 0x18)
                  && ev.subtype == 32769
                  && ev.userSubtype == 1
                  && ev.datalen < |payload| - PacketStart(payload) - EVENT_MESSAGE_SIZE
                  && ev.eventType % 0x100 in {EVENT_AUTH, EVENT_JOIN}
                  && r.delivery == EventPublished(EventStatus(ev.status, ev.eventType % 0x100))
  {
  }

  /**
    A data frame is forwarded exactly when its packet start lies inside
    the frame and the network channel has room; the forwarded packet is
    the whole rest of the frame.
   */
  lemma RxForwardsIff(s: Runner, packet: seq<u8>, rxBufFree: bool)
    requires RxDefined(s.ioctlId, packet, rxBufFree)
    ensures var r := Rx(s, packet, rxBufFree);
            r.delivery.Forwarded?
            <==>
            && ValidateSdpcm(packet).Success?
            && var h := ValidateSdpcm(packet).value;
               var payload := packet[h.headerLength..];
               && Channel(h) == CHANNEL_TYPE_DATA
               && PacketStart(payload) <= |payload|
               && rxBufFree
               && r.delivery == Forwarded(payload[PacketStart(payload)..])
  {
  }
}

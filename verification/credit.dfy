/**
  The runner's link state and the SDPCM credit window.

  The host numbers its outbound frames with an 8-bit sequence counter
  `sdpcmSeq`; the chip grants credit by reporting, in every frame it sends,
  the sequence number `sdpcmSeqMax` at which the host must stop. The host
  may send while `sdpcmSeqMax` is 1..127 steps ahead of `sdpcmSeq` on the
  256-step circle.
 */
module Credit {
  import opened Bytes
  import opened Structs

  /** `ioctl_id`, `sdpcm_seq` and `sdpcm_seq_max` of the runner. */
  datatype Runner = Runner(ioctlId: u16, sdpcmSeq: u8, sdpcmSeqMax: u8)

  /** How many sequence numbers `sdpcmSeqMax` is ahead of `sdpcmSeq`, modulo 256. */
  function Window(s: Runner): (d: nat)
    ensures d < 0x100
    ensures (s.sdpcmSeq + d) % 0x100 == s.sdpcmSeqMax
  {
    (s.sdpcmSeqMax - s.sdpcmSeq) % 0x100
  }

  /** The state `Runner::new` starts from: one frame of credit. */
  function Init(): (r: Runner)
    ensures Window(r) == 1
    ensures HasCredit(r)
  {
    Runner(0, 0, 1)
  }

  /**
    `has_credit`: the window is non-empty and the wrapped distance has its
    top bit clear (`& 0x80 == 0`, i.e. it is below 0x80).
   */
  function HasCredit(s: Runner): (b: bool)
    ensures b <==> 1 <= Window(s) <= 0x7F
  {
    s.sdpcmSeq != s.sdpcmSeqMax && WrappingSub8(s.sdpcmSeqMax, s.sdpcmSeq) < 0x80
  }

  /** Consuming one sequence number for an outbound frame. */
  function Advance(s: Runner): (r: Runner)
    ensures r.sdpcmSeq == (s.sdpcmSeq + 1) % 0x100
    ensures r.sdpcmSeqMax == s.sdpcmSeqMax && r.ioctlId == s.ioctlId
    ensures Window(s) >= 1 ==> Window(r) == Window(s) - 1
    ensures Window(s) == 0 ==> Window(r) == 0xFF
  {
    s.(sdpcmSeq := WrappingAdd8(s.sdpcmSeq, 1))
  }

  /** Whether the credit field of a frame is implausibly far ahead (> 0x40). */
  predicate Implausible(s: Runner, credit: u8)
  {
    WrappingSub8(credit, s.sdpcmSeq) > 0x40
  }

  /**
    `update_credit`, with the clamp `sdpcm_seq + 2` taken modulo 256 (see
    `UpdateCreditAsWritten` for the unchecked addition of the source).
    Frames on channels 0..2 carry credit; everything else leaves the state
    alone. Only `sdpcmSeqMax` ever changes.
   */
  function UpdateCredit(s: Runner, h: SdpcmHeader): (r: Runner)
    ensures r.sdpcmSeq == s.sdpcmSeq && r.ioctlId == s.ioctlId
    ensures Channel(h) >= 3 ==> r == s
    ensures Channel(h) < 3 && !Implausible(s, h.busDataCredit) ==> r.sdpcmSeqMax == h.busDataCredit
    ensures Channel(h) < 3 && Implausible(s, h.busDataCredit) ==> Window(r) == 2 && HasCredit(r)
    ensures Channel(h) < 3 ==> Window(r) <= 0x40
  {
    if Channel(h) < 3 then
      var sdpcmSeqMax := if Implausible(s, h.busDataCredit) then WrappingAdd8(s.sdpcmSeq, 2) else h.busDataCredit;
      s.(sdpcmSeqMax := sdpcmSeqMax)
    else
      s
  }

  /**
    `update_credit` exactly as written: `self.sdpcm_seq + 2` is a plain `u8`
    addition, which overflows (a panic in a build with overflow checks) when
    the clamp fires with `sdpcmSeq` at 254 or 255. `None` stands for that panic.
   */
  function UpdateCreditAsWritten(s: Runner, h: SdpcmHeader): (r: Option<Runner>)
    ensures r.None? <==> Channel(h) < 3 && Implausible(s, h.busDataCredit) && s.sdpcmSeq >= 254
    ensures r.Some? ==> r.value == UpdateCredit(s, h)
  {
    if Channel(h) < 3 then
      if Implausible(s, h.busDataCredit) then
        if s.sdpcmSeq + 2 < 0x100 then Some(s.(sdpcmSeqMax := s.sdpcmSeq + 2)) else None
      else
        Some(s.(sdpcmSeqMax := h.busDataCredit))
    else
      Some(s)
  }

  /**
    A concrete witness of the overflow: with `sdpcmSeq` = 254 a credit field of
    100 is 102 steps ahead, the clamp fires, and `254 + 2` does not fit a
    `u8`; the wrapping clamp instead leaves a two-frame window.
   */
  lemma ClampOverflowWitness()
    ensures var s := Runner(0, 254, 0);
            var h := SdpcmHeader(12, Not16(12), 0, CHANNEL_TYPE_CONTROL, 0, 12, 0, 100, (0, 0));
            UpdateCreditAsWritten(s, h).None? && HasCredit(UpdateCredit(s, h))
  {
  }
}

/**
  The effect of the runner's main loop on the link, with the scheduling
  left abstract: each pass either serves the wake-up `select3` returned
  (an ioctl to send, an Ethernet packet to send, or a bus event) when the
  host has credit, or only drains the bus when it has none, and then hands
  every frame `check_status` reads to `rx`.
 */
module Run {
  import opened Bytes
  import opened Structs
  import opened Credit
  import opened Outbound
  import opened Inbound

  /** What the runner woke up for. */
  datatype Wake = IoctlPending(req: IoctlRequest) | TxPending(packet: seq<u8>) | BusEvent

  /** A frame read from the bus, and whether the network channel had a free receive buffer. */
  datatype Incoming = Incoming(bytes: seq<u8>, rxBufFree: bool)

  /** One pass of the loop: the wake-up and the frames drained from the bus after it. */
  datatype Iteration = Iteration(wake: Wake, incoming: seq<Incoming>)

  /** The state reached, the frames written to the bus, and what became of each frame read. */
  datatype Outcome = Outcome(state: Runner, written: seq<seq<u8>>, deliveries: seq<Delivery>)

  predicate DrainDefined(id: u16, incoming: seq<Incoming>)
  {
    forall i :: 0 <= i < |incoming| ==> RxDefined(id, incoming[i].bytes, incoming[i].rxBufFree)
  }

  /** `check_status`: every frame read from the bus goes through `rx`, in order. */
  function Drain(s: Runner, incoming: seq<Incoming>): (r: Outcome)
    requires DrainDefined(s.ioctlId, incoming)
    ensures r.state.sdpcmSeq == s.sdpcmSeq && r.state.ioctlId == s.ioctlId
    ensures r.written == [] && |r.deliveries| == |incoming|
    ensures incoming == [] ==> r.state == s
    decreases |incoming|
  {
    if incoming == [] then Outcome(s, [], [])
    else
      var first := Rx(s, incoming[0].bytes, incoming[0].rxBufFree);
      var rest := Drain(first.state, incoming[1..]);
      Outcome(rest.state, [], [first.delivery] + rest.deliveries)
  }

  /** The ioctl id in force when the frames after a wake-up are read. */
  function IdAfterWake(s: Runner, w: Wake): u16
  {
    if HasCredit(s) && w.IoctlPending? then WrappingAdd16(s.ioctlId, 1) else s.ioctlId
  }

  /**
    A pass that does not panic: a wake-up that is served (only with
    credit) fits the transmit buffer, and `rx` handles every frame read.
   */
  predicate IterationDefined(s: Runner, it: Iteration)
  {
    && (HasCredit(s) && it.wake.IoctlPending? ==> SDPCM_SIZE + CDC_SIZE + |it.wake.req.data| <= TX_BUF_BYTES)
    && (HasCredit(s) && it.wake.TxPending? ==> SDPCM_SIZE + BCD_SIZE + |it.wake.packet| <= TX_BUF_BYTES)
    && DrainDefined(IdAfterWake(s, it.wake), it.incoming)
  }

  /** The frame a served wake-up writes: an ioctl frame or a data frame. */
  method Serve(s: Runner, w: Wake) returns (r: Sent)
    requires !w.BusEvent?
    requires w.IoctlPending? ==> SDPCM_SIZE + CDC_SIZE + |w.req.data| <= TX_BUF_BYTES
    requires w.TxPending? ==> SDPCM_SIZE + BCD_SIZE + |w.packet| <= TX_BUF_BYTES
    ensures r.state.sdpcmSeq == (s.sdpcmSeq + 1) % 0x100 && r.state.sdpcmSeqMax == s.sdpcmSeqMax
    ensures r.state.ioctlId == if w.IoctlPending? then WrappingAdd16(s.ioctlId, 1) else s.ioctlId
    ensures |r.frame| >= SDPCM_SIZE && DecodeSdpcm(r.frame).sequence == s.sdpcmSeq
  {
    match w
    case IoctlPending(req) => r := SendIoctl(s, req);
    case TxPending(packet) => r := TxData(s, packet);
  }

  /**
    One pass of `run`: with credit, the wake-up is served and at most one
    frame is written, carrying the current sequence number; without
    credit ("TX stalled") nothing is written and only the bus is drained.
   */
  method RunIteration(s: Runner, it: Iteration) returns (r: Outcome)
    requires IterationDefined(s, it)
    ensures |r.written| <= 1
    ensures |r.written| == 1 <==> HasCredit(s) && !it.wake.BusEvent?
    ensures r.state.sdpcmSeq == (s.sdpcmSeq + |r.written|) % 0x100
    ensures NumberedFrom(r.written, s.sdpcmSeq)
    ensures |r.deliveries| == |it.incoming|
    ensures it.incoming == [] ==> r.state.sdpcmSeqMax == s.sdpcmSeqMax
  {
    if HasCredit(s) && !it.wake.BusEvent? {
      var sent := Serve(s, it.wake);
      var drained := Drain(sent.state, it.incoming);
      NumberedSingle(sent.frame, s.sdpcmSeq);
      r := Outcome(drained.state, [sent.frame], drained.deliveries);
    } else {
      r := Drain(s, it.incoming);
    }
  }

  /** What the credit window still allows the host to write. */
  function Allowance(s: Runner): nat
  {
    if HasCredit(s) then Window(s) else 0
  }

  /**
    A run of the loop over the passes `its`, or `None` if some pass hits
    one of the panics the preconditions of `RunIteration` exclude, which
    ends the runner. The frames written carry consecutive sequence numbers
    starting at the initial `sdpcmSeq`, and the counter ends as many steps
    further on as there were frames. When no frame arrives from the chip
    during the run, no credit is granted, and the host writes at most as
    many frames as the window it started with allowed.
   */
  method RunTrace(s: Runner, its: seq<Iteration>) returns (r: Option<Outcome>)
    ensures r.Some? ==> r.value.state.sdpcmSeq == (s.sdpcmSeq + |r.value.written|) % 0x100
    ensures r.Some? ==> NumberedFrom(r.value.written, s.sdpcmSeq)
    ensures r.Some? ==> |r.value.written| <= |its|
    ensures r.Some? && Starved(its) ==> |r.value.written| <= Allowance(s)
    ensures its == [] ==> r == Some(Outcome(s, [], []))
    ensures (forall i, t :: 0 <= i < |its| ==> IterationDefined(t, its[i])) ==> r.Some?
  {
    var state := s;
    var written: seq<seq<u8>> := [];
    var deliveries: seq<Delivery> := [];
    for i := 0 to |its|
      invariant state.sdpcmSeq == (s.sdpcmSeq + |written|) % 0x100
      invariant NumberedFrom(written, s.sdpcmSeq)
      invariant |written| <= i
      invariant i == 0 ==> state == s && written == [] && deliveries == []
      invariant Starved(its) ==> state.sdpcmSeqMax == s.sdpcmSeqMax
      invariant Starved(its) ==> |written| + Allowance(state) <= Allowance(s)
    {
      if !IterationDefined(state, its[i]) {
        return None;
      }
      var step := RunIteration(state, its[i]);
      SequencesConcatenate(written, step.written, s.sdpcmSeq, state.sdpcmSeq);
      WrapAdd(s.sdpcmSeq, |written|, |step.written|);
      if Starved(its) {
        StarvedStep(state, step.state, |step.written|);
      }
      state := step.state;
      written := written + step.written;
      deliveries := deliveries + step.deliveries;
    }
    return Some(Outcome(state, written, deliveries));
  }

  /**
    A pass without incoming frames keeps `sdpcmSeqMax`; writing a frame
    takes one from the window, which the host had to have.
   */
  lemma StarvedStep(before: Runner, after: Runner, n: nat)
    requires n <= 1 && after.sdpcmSeqMax == before.sdpcmSeqMax
    requires after.sdpcmSeq == (before.sdpcmSeq + n) % 0x100
    requires n == 1 ==> HasCredit(before)
    ensures n + Allowance(after) <= Allowance(before)
  {
  }

  /** Frames numbered from `a0` on, followed by frames numbered on from where they stopped. */
  predicate NumberedFrom(frames: seq<seq<u8>>, a0: u8)
  {
    forall i :: 0 <= i < |frames| ==>
      |frames[i]| >= SDPCM_SIZE && DecodeSdpcm(frames[i]).sequence == (a0 + i) % 0x100
  }

  /** Counting `j` steps on from `i` steps on is counting `i + j` steps on, modulo 256. */
  lemma WrapAdd(a: int, i: nat, j: nat)
    ensures ((a + i) % 0x100 + j) % 0x100 == (a + i + j) % 0x100
  {
  }

  lemma NumberedSingle(f: seq<u8>, a0: u8)
    requires |f| >= SDPCM_SIZE && DecodeSdpcm(f).sequence == a0
    ensures NumberedFrom([f], a0)
  {
  }

  lemma SequencesConcatenate(a: seq<seq<u8>>, b: seq<seq<u8>>, a0: u8, b0: u8)
    requires NumberedFrom(a, a0) && b0 == (a0 + |a|) % 0x100 && NumberedFrom(b, b0)
    ensures NumberedFrom(a + b, a0)
  {
    forall i | 0 <= i < |a + b|
      ensures |(a + b)[i]| >= SDPCM_SIZE && DecodeSdpcm((a + b)[i]).sequence == (a0 + i) % 0x100
    {
      if i >= |a| {
        assert (a + b)[i] == b[i - |a|];
        assert (b0 + (i - |a|)) % 0x100 == (a0 + i) % 0x100;
      }
    }
  }

  /** No frame arrives from the chip during the whole run, so no credit is granted. */
  predicate Starved(its: seq<Iteration>)
  {
    forall i :: 0 <= i < |its| ==> its[i].incoming == []
  }
}

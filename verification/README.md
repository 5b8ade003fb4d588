# cyw43 runner: protocol model

This project models the runner of the `cyw43` driver for the Infineon
CYW43439 WLAN chip (`src/runner.rs`). The runner is the task that owns the
gSPI bus. It frames host requests for the chip and parses the chip's
frames, and it does so with only the arithmetic and byte-level logic of
that task:

- **Credit** (`credit.dfy`): the 8-bit SDPCM sequence counter, the
  credit window the chip grants through `bus_data_credit`, `has_credit`,
  and `update_credit` with its clamp.
- **Outbound** (`tx.dfy`): the frames `send_ioctl` and the transmit arm of
  `run` build. Each is an SDPCM header, then a CDC or BDC header, then the
  payload, zero-padded to whole 32-bit words.
- **Inbound** (`rx.dfy`): `rx`. It checks the SDPCM header, updates the
  credit, and dispatches on the channel nibble:
  - control frames complete the pending ioctl;
  - event frames go through the Broadcom event filter, and only AUTH and
    JOIN are published;
  - data frames are forwarded to the network channel.
- **Loopback** (`loopback.dfy`): round trips between the outbound framing
  and `rx`.
- **Run** (`run.dfy`): the main loop with its scheduling left abstract.
  Each pass either serves the wake-up (when the host has credit) or only
  drains the bus ("TX stalled").
- **Boot** (`boot.dfy`): the arithmetic in `init` that does not touch the
  bus. This covers the NVRAM length word and where the image goes, and the
  register test of `core_is_up`.
- **FwLog** (`fwlog.dfy`): `log_read`, the walk over the firmware's 1 KiB
  console ring that assembles 256-byte lines.

Wire integers (`u8`, `u16`, `u32`) are subset types of `int`. Each
wrapping add, truncating cast and bitwise NOT is written out as the
modular arithmetic it performs. The NVRAM length word and the core
registers are bit-vectors, because the source computes them with shifts
and masks. A panic in the source becomes a precondition: the caller must
not supply input that leads to it. The one exception is the overflow at
line 479, where the model follows the wrapping clamp (see Findings). Frames the source drops with a
warning become `Dropped` results that say why.

The header layouts and constants come from files that are not part of
this model: `structs.rs`, `consts.rs`, `events.rs` and `lib.rs`. The
model reconstructs them from how `runner.rs` uses them:

- the SDPCM header is 12 bytes, in the field order of the struct literals
  at lines 259-269;
- the CDC header is 16 bytes and the BDC header 4, both little-endian;
- the event packet is 72 bytes: an Ethernet header, a 10-byte Broadcom
  header and a 48-byte event message, read big-endian after `byteswap`;
- channels are control 0, event 1 and data 2; the BDC flags for version 2
  are 0x20;
- event codes are JOIN 1 and AUTH 3; ioctl kinds are GET 0 and SET 2;
- MTU is 1514;
- the AI register bits are FGC 2, CLOCK_EN 1 and RESET 1.

## Model

| member | source | states |
|---|---|---|
| Bytes.RoundUp4 | src/runner.rs:284 | `(n + 3) & !3` is the least multiple of four that is at least `n` |
| Structs.Channel | src/runner.rs:358 | the channel is the low nibble of `channel_and_flags`, below 16, differs from the field by a multiple of 16, and equals the field when it has no flag bits |
| Structs.EncodeSdpcm | src/runner.rs:280 | the 12 bytes `to_bytes` writes decode back, through the reader `rx` uses at line 344, to the same header |
| Structs.EncodeCdc | src/runner.rs:522 | the 16-byte CDC encoding decodes back to the same header |
| Structs.EncodeBcd | src/runner.rs:281 | the 4-byte BDC encoding decodes back to the same header |
| Credit.Init | src/runner.rs:69-71 | a new runner has a window of exactly one frame and has credit |
| Credit.HasCredit | src/runner.rs:485-487 | `has_credit` holds exactly when `sdpcm_seq_max` is 1 to 127 steps ahead of `sdpcm_seq` modulo 256 |
| Credit.Advance | src/runner.rs:495-496 | consuming a sequence number advances the counter modulo 256 and shrinks a non-empty window by one; an empty window wraps to 255 |
| Credit.UpdateCredit | src/runner.rs:475-483 | frames on channels 0-2 set `sdpcm_seq_max` to the granted credit unless it is more than 0x40 ahead, in which case it becomes a two-frame window; other channels change nothing; the counter and the ioctl id never change; afterwards the window is at most 0x40 |
| Credit.UpdateCreditAsWritten | src/runner.rs:475-483 | the unchecked `sdpcm_seq + 2` overflows exactly when the clamp fires with the counter at 254 or 255; in every other case it agrees with `UpdateCredit` |
| Credit.ClampOverflowWitness | src/runner.rs:478-479 | with the counter at 254 and a credit of 100, the source overflows, while the wrapping clamp leaves the host with credit |
| Outbound.Frame | src/runner.rs:280-286 | the written bytes are the SDPCM header, the channel header and the payload, zero-padded to a multiple of four, with fewer than four pad bytes |
| Outbound.CdcFlags | src/runner.rs:514 | the ioctl kind sits in the low twelve bits and the low four bits of `iface` in the top four |
| Outbound.SendIoctl | src/runner.rs:489-530 | one sequence number and one ioctl id are consumed; the frame carries the old sequence number, the control channel, a consistent length pair, the CDC header with the new id, and the request data |
| Outbound.TxData | src/runner.rs:248-290 | one sequence number is consumed and the ioctl id is kept; the frame carries the old sequence number, the data channel, a consistent length pair, a BDC header with no offset, and the packet |
| Inbound.ValidateSdpcm | src/runner.rs:338-355 | a header is accepted exactly when the frame holds 12 bytes, `len` is the NOT of `len_inv` and `len` is the frame length; a frame shorter than the header is rejected as too short |
| Inbound.ControlDelivery | src/runner.rs:362-384 | a control frame either completes the ioctl, is ignored, or is dropped as too short |
| Inbound.EventDelivery | src/runner.rs:385-450 | only AUTH and JOIN events are ever published |
| Inbound.DataDelivery | src/runner.rs:451-470 | nothing is forwarded without a free receive buffer; a forwarded packet is a suffix of the payload and fits the MTU |
| Inbound.Rx | src/runner.rs:338-473 | a frame that fails the header checks leaves the state unchanged; an accepted frame updates only the credit, through `update_credit` |
| Inbound.RxRejectsInconsistentHeader | src/runner.rs:339-355 | a frame is dropped for its header exactly when it is short, has inconsistent lengths, or disagrees with the bus length; such a frame takes no credit |
| Inbound.RxCompletesIoctlIff | src/runner.rs:362-384 | the pending ioctl completes exactly for an accepted control frame whose CDC id is the current id; the response is the `len` bytes after the CDC header |
| Inbound.RxPublishesIff | src/runner.rs:385-450 | an event is published exactly when the frame passes the ether type, OUI, subtype, user subtype and data-length checks and names AUTH or JOIN; its status and type are what is published |
| Inbound.RxForwardsIff | src/runner.rs:451-470 | a data frame is forwarded exactly when its packet start lies inside the payload and the channel has room; what is forwarded is the rest of the payload |
| Loopback.ValidateEncodedIff | src/runner.rs:344-355 | an encoded header followed by a body passes the header checks exactly when its length pair is complementary and counts the whole frame, and the header read back is the one encoded |
| Loopback.IoctlEchoCompletes | src/runner.rs:497-515 | the ioctl id `send_ioctl` stamps is the id `rx` completes: the echoed frame, cut to its stated length, completes the ioctl with the request data |
| Loopback.DataFrameRoundTrip | src/runner.rs:254-284 | a data frame the host builds, cut to its stated length, is forwarded by `rx` as exactly the packet sent |
| Run.Drain | src/runner.rs:322-336 | draining the bus hands every frame to `rx` in order: one delivery per frame, with the counter and the ioctl id unchanged |
| Run.Serve | src/runner.rs:238-291 | serving a wake-up consumes one sequence number, keeps `sdpcm_seq_max`, stamps the old number on the frame, and bumps the ioctl id only for an ioctl |
| Run.RunIteration | src/runner.rs:233-302 | a pass writes one frame exactly when the host has credit and the wake-up was not a bus event; that frame carries the current sequence number; without incoming frames the window limit is kept |
| Run.RunTrace | src/runner.rs:227-302 | across a run, the frames written carry consecutive sequence numbers; the counter advances by the number of frames; without credit from the chip, the host writes no more frames than its starting window allowed; a run whose passes cannot panic in any state always produces an outcome |
| Run.StarvedStep | src/runner.rs:233 | a pass without incoming frames keeps the limit; a frame written comes out of the window the host had |
| Boot.NvramLen | src/runner.rs:104-105 | the image length rounded up to whole words is the same rounding the framing uses: a multiple of four less than four above the length |
| Boot.NvramAddress | src/runner.rs:106-113 | the image ends where the length word begins; the length word fills the last four bytes of chip RAM; a word-aligned RAM end gives a word-aligned image |
| Boot.MagicLowHalfIsWords | src/runner.rs:110-111 | a word count below 2^16 reads back from the low half of the length word |
| Boot.MagicHighHalfIsComplement | src/runner.rs:110-111 | the high half of the length word is the complement of a 16-bit word count |
| Boot.MagicWideWordsSpill | src/runner.rs:110-111 | a count of 2^16 words or more no longer reads back from the low half |
| Boot.LengthWordHalves | src/runner.rs:104-111 | the length word behind an image holds the image's word count in its low half and the complement in its high half, as long as the count fits 16 bits; a larger count no longer reads back from the low half |
| Boot.CoreIsUp | src/runner.rs:576-592 | a core is up exactly when its clock is enabled, its forced gated clock is off and its reset bit is clear |
| Boot.CoreResetBringsCoreUp | src/runner.rs:555-574 | the register values `core_reset` leaves pass `core_is_up`; those of the disabled core and of the forced-clock step do not |
| FwLog.Cap | src/runner.rs:215-217 | the line buffer keeps a prefix of at most 256 bytes: all of a text that fits, and exactly 256 bytes of a longer one |
| FwLog.Wrap | src/runner.rs:220-223 | resetting the index to 0 at 0x400 is reduction modulo the ring size |
| FwLog.Distance | src/runner.rs:207-223 | the walk reaches the write index after a number of steps below the ring size, and after none exactly when nothing moved |
| FwLog.RingWindow | src/runner.rs:204-223 | the bytes walked are the ring bytes at consecutive positions modulo the ring size: without wrapping a slice of the ring, with wrapping the ring's tail and then its head |
| FwLog.LogRead | src/runner.rs:189-225 | the walk stops at the write index; the lines emitted and the line kept are those of feeding the walked bytes in order; an unmoved index reads nothing |
| FwLog.Consume | src/runner.rs:208-218 | one loop pass on one byte either keeps the emitted lines or, on a CR or LF after a non-empty line, emits that line and empties the buffer; a buffer of at most 256 bytes without line ends stays so, and a line it emits is non-empty, at most 256 bytes and free of CR and LF |
| FwLog.WindowStep | src/runner.rs:207-223 | each further step of the walk feeds the next ring byte |
| FwLog.RingAdvance | src/runner.rs:220-223 | the stepped and wrapped index is one step further on and one step closer to the write index |
| FwLog.ScanAppend | src/runner.rs:207-224 | reading two stretches in one call is reading them in two calls, the second continuing from the first's line |
| FwLog.NoLineEndAppends | src/runner.rs:215-218 | bytes with no line end emit nothing and join the line as far as 256 bytes allow |
| FwLog.LineEndFlushes | src/runner.rs:209-214 | a CR or LF emits the buffered line, unless it is empty, and restarts the line |
| FwLog.ScanEmitsWellFormedLines | src/runner.rs:209-218 | every emitted line is non-empty, at most 256 bytes and free of CR and LF, and so is the line kept |

## Left out

- Bus I/O is left out: gSPI transfers, backplane reads and writes, `wlan_read` and `wlan_write`. The bytes read are parameters, and the bytes written are the frames returned.
- Most of the `init` bring-up sequence is left out: clock requests, busy-waits, firmware download, the shared-memory lookup of `log_init`, and the delays in `core_disable` and `core_reset`. These are register traffic and timing. Only their arithmetic (`Boot`) is modelled.
- The scheduling of `run` is left abstract. The `select3` outcome is a `Wake` parameter. The frames `check_status` reads after a wake-up, and the interrupt bits that decide whether `handle_irq` reads any, are the `incoming` list.
- The event queue, the ioctl state and the network channel are shared with other tasks. They become the `Delivery` each frame produces, and a flag saying whether `try_rx_buf` had a free buffer.
- Logging (`trace!`, `debug!`, `warn!`, `info!`) is left out, including the event data slice at line 436 that is only logged. That slice starts at `EventMessage::SIZE` (48) into the event packet, where the event data actually follows the 72-byte packet. The length check at line 430 uses the same offset. The model keeps the check exactly as written.
- Inbound.Rx: panics are preconditions (`RxDefined`). The excluded frames are:
  - a header length beyond the frame;
  - an ioctl response with a non-zero status;
  - a response longer than the frame;
  - an event or data payload shorter than the 4-byte BDC header;
  - a packet longer than the receive buffer (MTU).
- Inbound.Rx: the `sdpcm_seq + 2` overflow at line 479 is not a precondition. `Rx` and `Run` use the wrapping clamp `UpdateCredit`, which is how a build without overflow checks behaves; the panicking version is `UpdateCreditAsWritten` (see Findings).
- Outbound.SendIoctl: requires the frame to fit the 2048-byte buffer, because the copy panics otherwise.
- Outbound.TxData: requires the frame to fit the 2048-byte buffer, because the copy panics otherwise.
- Run.Serve: its contract gives the frame's sequence number and the state change, not the whole frame. The frame layout is stated on `SendIoctl` and `TxData`, which it calls.
- Run.Drain: its contract counts the deliveries but does not describe each one. Each is the `Rx` of that frame in the state reached so far, which the lemmas on `Rx` describe.
- Run.RunTrace: `None` stands for a pass that would panic in the state it is reached in. The contract does not say which pass panicked; it promises an outcome only when every pass is defined in every state, not when each is defined in the state the run actually reaches.
- FwLog.LogRead: requires the firmware's write index to lie inside the 1 KiB ring. The walk never reaches an index outside it, so the source would spin forever (a hang, not a panic); the firmware keeps the index inside. The line buffer is modelled as the sequence `buf[..buf_count]`.
- Boot.NvramLen and Boot.NvramAddress: require the `usize`/`u32` arithmetic not to overflow, with `usize` taken as 32 bits.
- Boot.NvramMagic: the link between the integer word count and the bit-vector count is a plain conversion; `LengthWordHalves` states its facts about the converted count, not about the integer one.
- The `firmware-logs` feature switch, and the `Core` base addresses, are left out.

## Findings

| source | as written | input that shows it | evidently intended | confidence | as-written member | corrected member |
|---|---|---|---|---|---|---|
| src/runner.rs:479 | the clamp sets `sdpcm_seq_max = self.sdpcm_seq + 2` with an unchecked `u8` add, which panics in a build with overflow checks when the counter is 254 or 255 | `sdpcm_seq` = 254 and a control frame granting credit 100 (102 steps ahead, more than 0x40) | `self.sdpcm_seq.wrapping_add(2)`, a two-frame window on the 256-step circle like every other counter operation in the runner | medium; not executed | Credit.UpdateCreditAsWritten, Credit.ClampOverflowWitness | Credit.UpdateCredit |

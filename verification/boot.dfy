/**
  The arithmetic of `init` that does not touch the bus: the length word
  that follows the NVRAM image in chip RAM, where the image is placed, and
  the bit test of `core_is_up`. These quantities are 32- and 8-bit
  registers on the chip, so the length word and the register values are
  bit-vectors here; `usize` is 32 bits wide on the targets the driver
  runs on.
 */
module Boot {

  import opened Bytes

  /**
    `(NVRAM.len() + 3) / 4 * 4`: the image length rounded up to whole
    words, the same number the transmit path pads its frames to. The
    `usize` addition must not overflow.
   */
  function NvramLen(len: u32): (r: u32)
    requires len + 3 < 0x1_0000_0000
    ensures r == RoundUp4(len)
    ensures r % 4 == 0 && len <= r < len + 4
  {
    (len + 3) / 4 * 4
  }

  /**
    Where `init` writes the image: the image ends exactly where the length
    word begins, and the length word occupies the last four bytes of chip
    RAM. The `u32` subtraction must not underflow.
   */
  function NvramAddress(ramBase: u32, ramSize: u32, len: u32): (addr: u32)
    requires len + 3 < 0x1_0000_0000
    requires ramBase + ramSize < 0x1_0000_0000
    requires ramSize >= 4 + NvramLen(len)
    ensures addr + NvramLen(len) + 4 == ramBase + ramSize
    ensures ramBase <= addr
    ensures (ramBase + ramSize) % 4 == 0 ==> addr % 4 == 0
  {
    ramBase + ramSize - 4 - NvramLen(len)
  }

  /**
    `(!nvram_len_words << 16) | nvram_len_words`: the word count in the low
    half and its complement in the high half, so that the chip can tell a
    valid length word from stray RAM contents.
   */
  function NvramMagic(words: bv32): bv32
  {
    (!words << 16) | words
  }

  /** The length word `init` writes behind an image of `len` bytes. */
  function NvramLengthWord(len: u32): bv32
    requires len + 3 < 0x1_0000_0000
  {
    NvramMagic((NvramLen(len) / 4) as bv32)
  }

  /** A count that fits sixteen bits reads back from the low half. */
  lemma MagicLowHalfIsWords(words: bv32)
    requires words < 0x1_0000
    ensures NvramMagic(words) & 0xFFFF == words
  {
  }

  /** A count that fits sixteen bits has its complement in the high half. */
  lemma MagicHighHalfIsComplement(words: bv32)
    requires words < 0x1_0000
    ensures NvramMagic(words) >> 16 == !words & 0xFFFF
  {
  }

  /**
    Conversely, an image of 256 KiB or more has a count that does not fit:
    the low half no longer equals the count.
   */
  lemma MagicWideWordsSpill(words: bv32)
    requires words >= 0x1_0000
    ensures NvramMagic(words) & 0xFFFF != words
  {
  }

  /**
    The length word behind an image of `len` bytes: while the image's word
    count fits sixteen bits, the low half is that count and the high half
    its complement; past that, the low half is no longer the count.
   */
  lemma LengthWordHalves(len: u32)
    requires len + 3 < 0x1_0000_0000
    ensures var words := (NvramLen(len) / 4) as bv32;
            words < 0x1_0000 ==>
              && NvramLengthWord(len) & 0xFFFF == words
              && NvramLengthWord(len) >> 16 == !words & 0xFFFF
    ensures var words := (NvramLen(len) / 4) as bv32;
            words >= 0x1_0000 ==> NvramLengthWord(len) & 0xFFFF != words
  {
  }

  const AI_IOCTRL_BIT_FGC: bv8 := 0x02
  const AI_IOCTRL_BIT_CLOCK_EN: bv8 := 0x01
  const AI_RESETCTRL_BIT_RESET: bv8 := 0x01

  /**
    `core_is_up` on the two register values it reads: the clock is
    enabled, the forced gated clock is off, and the core is out of reset.
   */
  function CoreIsUp(ioctrl: bv8, resetctrl: bv8): (up: bool)
    ensures up <==> ioctrl & 1 == 1 && ioctrl & 2 == 0 && resetctrl & 1 == 0
  {
    if ioctrl & (AI_IOCTRL_BIT_FGC | AI_IOCTRL_BIT_CLOCK_EN) != AI_IOCTRL_BIT_CLOCK_EN then false
    else if resetctrl & AI_RESETCTRL_BIT_RESET != 0 then false
    else true
  }

  /**
    The register values `core_reset` leaves behind pass `core_is_up`, which
    `init` asserts; those of the steps before (core disabled and held in
    reset, then the forced gated clock still on) do not.
   */
  lemma CoreResetBringsCoreUp(anyIoctrl: bv8)
    ensures !CoreIsUp(anyIoctrl, AI_RESETCTRL_BIT_RESET)
    ensures !CoreIsUp(AI_IOCTRL_BIT_FGC | AI_IOCTRL_BIT_CLOCK_EN, 0)
    ensures CoreIsUp(AI_IOCTRL_BIT_CLOCK_EN, 0)
  {
  }
}

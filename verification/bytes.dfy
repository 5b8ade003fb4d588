/**
  Fixed-width wire integers and the small helpers shared by the framing code.

  Rust's `u8`/`u16`/`u32` are subset types of `int`; every wrapping
  operation, truncating cast and bitwise NOT the runner performs is written
  out as the modular arithmetic it amounts to, next to the Rust expression.
 */
module Bytes {

  type u8 = x: int | 0 <= x < 0x100
  type u16 = x: int | 0 <= x < 0x1_0000
  type u32 = x: int | 0 <= x < 0x1_0000_0000

  /** The optional value used for partial results. */
  datatype Option<T> = None | Some(value: T)

  /** A value, or the reason it could not be produced. */
  datatype Result<T, E> = Success(value: T) | Failure(error: E)

  /** `a.wrapping_add(b)` on `u8`. */
  function WrappingAdd8(a: u8, b: u8): u8
  {
    (a + b) % 0x100
  }

  /** `a.wrapping_sub(b)` on `u8`. */
  function WrappingSub8(a: u8, b: u8): u8
  {
    (a - b) % 0x100
  }

  /** `a.wrapping_add(b)` on `u16`. */
  function WrappingAdd16(a: u16, b: u16): u16
  {
    (a + b) % 0x1_0000
  }

  /** `!x` on `u16`: flipping all sixteen bits is subtraction from 0xFFFF. */
  function Not16(x: u16): u16
  {
    0xFFFF - x
  }

  /** `n as u16` for a `usize` length: keeps the low sixteen bits. */
  function Trunc16(n: nat): (t: u16)
    ensures n < 0x1_0000 ==> t == n
  {
    n % 0x1_0000
  }

  /** Little-endian encoding of a 16-bit field. */
  function Le16(x: u16): (b: seq<u8>)
    ensures |b| == 2
    ensures ReadLe16(b, 0) == x
  {
    [x % 0x100, x / 0x100]
  }

  /** The little-endian 16-bit field stored at `b[at..at + 2]`. */
  function ReadLe16(b: seq<u8>, at: nat): u16
    requires at + 2 <= |b|
  {
    (b[at] as int) + (b[at + 1] as int) * 0x100
  }

  /** Little-endian encoding of a 32-bit field. */
  function Le32(x: u32): (b: seq<u8>)
    ensures |b| == 4
    ensures ReadLe32(b, 0) == x
  {
    [x % 0x100, (x / 0x100) % 0x100, (x / 0x1_0000) % 0x100, x / 0x100_0000]
  }

  /** The little-endian 32-bit field stored at `b[at..at + 4]`. */
  function ReadLe32(b: seq<u8>, at: nat): u32
    requires at + 4 <= |b|
  {
    (b[at] as int)
    + (b[at + 1] as int) * 0x100
    + (b[at + 2] as int) * 0x1_0000
    + (b[at + 3] as int) * 0x100_0000
  }

  /** The big-endian (network order) 16-bit field stored at `b[at..at + 2]`. */
  function ReadBe16(b: seq<u8>, at: nat): u16
    requires at + 2 <= |b|
  {
    (b[at] as int) * 0x100 + (b[at + 1] as int)
  }

  /** The big-endian (network order) 32-bit field stored at `b[at..at + 4]`. */
  function ReadBe32(b: seq<u8>, at: nat): u32
    requires at + 4 <= |b|
  {
    (b[at] as int) * 0x100_0000
    + (b[at + 1] as int) * 0x1_0000
    + (b[at + 2] as int) * 0x100
    + (b[at + 3] as int)
  }

  /** `n` zero bytes: the untouched tail of a freshly zeroed transmit buffer. */
  function Zeros(n: nat): (z: seq<u8>)
    ensures |z| == n
    ensures forall i :: 0 <= i < n ==> z[i] == 0
  {
    seq(n, _ => 0)
  }

  /**
    `(n + 3) & !3`: clearing the two low bits of `n + 3` subtracts
    `(n + 3) % 4`, giving the smallest multiple of four that is at least `n`.
   */
  function RoundUp4(n: nat): (r: nat)
    ensures r % 4 == 0
    ensures n <= r < n + 4
  {
    (n + 3) - (n + 3) % 4
  }
}

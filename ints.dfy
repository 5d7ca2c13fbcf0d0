/** Machine integer types of the kernel, as subset types of the unbounded integers. */
module Ints {
  /** Rust `u8`. */
  type U8 = x: int | 0 <= x < 0x100

  /** Rust `u16`. */
  type U16 = x: int | 0 <= x < 0x1_0000

  /** Rust `u32`. */
  type U32 = x: int | 0 <= x < 0x1_0000_0000

  /** Number of values of a 64-bit `usize`; arithmetic on it wraps modulo this. */
  const USIZE_MODULUS: nat := 0x1_0000_0000_0000_0000

  /** Rust `usize` on x86-64. */
  type Usize = x: int | 0 <= x < USIZE_MODULUS

  /** `u16::MAX`. */
  const U16_MAX: U16 := 0xFFFF
}

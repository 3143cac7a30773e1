/** Machine integers. */
module Bytes {
  type Byte = n: int | 0 <= n < 256

  /** A `u16` or `u16_t`. */
  type Half = n: int | 0 <= n < 0x1_0000

  /** A `u32` or `u32_t`. */
  type Word = n: int | 0 <= n < 0x1_0000_0000
}

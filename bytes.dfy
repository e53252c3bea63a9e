/** Python `bytes` values. */
module Bytes {

  /** One octet. */
  type Byte = x: int | 0 <= x < 256

  /** The byte is a 7-bit ASCII code. */
  predicate IsAscii(x: Byte) {
    x < 0x80
  }
}

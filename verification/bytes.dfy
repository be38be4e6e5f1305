/** Octets. */
module Bytes {
  type byte = n: int | 0 <= n < 0x100
}

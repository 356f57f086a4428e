/** The bytes of buffers and of the wire. */
module Octets {
  type byte = x: int | 0 <= x < 0x100
}

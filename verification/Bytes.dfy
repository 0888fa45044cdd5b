/** Bytes of a buffer. */
module Bytes {
  type Byte = b: int | 0 <= b < 256
}

/** What lines, packets and buffers are made of. */
module Bytes {
  type byte = x: int | 0 <= x < 256
}

/** Byte strings, with bytes as small integers so that length arithmetic stays in `int`. */
module Bytes {
  type byte = x: int | 0 <= x < 256
  type Bytes = seq<byte>
}

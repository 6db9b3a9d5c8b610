/** Bytes as the unsigned values they stand for. */
module Bytes {
  type Byte = b: int | 0 <= b < 256
}

/** Bytes, as in a `Uint8Array` or a Node `Buffer`. */
module Bytes {
  newtype byte = x: int | 0 <= x < 256
}

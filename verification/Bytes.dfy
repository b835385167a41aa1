/** Bytes of files and images. */
module Bytes {
  type byte = x: int | 0 <= x < 256
}

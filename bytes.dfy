/** Byte strings, as Python's `bytes` values appear in the responder. */
module Bytes {

  /** One octet. */
  type Byte = b: int | 0 <= b < 256

  type Bytes = seq<Byte>
}

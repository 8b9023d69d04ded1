/** Small types shared by every module: optional values and byte strings. */
module Wrappers {

  datatype Option<+T> = None | Some(value: T)

  newtype byte = x: int | 0 <= x < 256

  /** A Go string that holds a secret is handled as its bytes. */
  type Bytes = seq<byte>
}

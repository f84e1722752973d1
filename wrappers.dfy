/** Option and Result, used wherever the server can answer "nothing" or catch a thrown error. */
module Wrappers {

  datatype Option<+T> = None | Some(value: T)

  datatype Result<+T, +E> = Success(value: T) | Failure(error: E)

  /** Bytes as Node's `Buffer` holds them. */
  newtype byte = b: int | 0 <= b < 256

  type Bytes = seq<byte>
}

/** Option and Result, used for nullable state and for settled promises. */
module Wrappers {

  /** A value that may be absent (the source's `string | null`). */
  datatype Option<+T> = None | Some(value: T)

  /** A settled asynchronous call: either its value or the message it failed with. */
  datatype Result<+R, +E> = Success(value: R) | Failure(error: E)
}

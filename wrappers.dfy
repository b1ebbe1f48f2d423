/** Option and Result types shared by the store lookup and the handlers. */
module Wrappers {

  /** A value that may be absent, as `None` stands for a missing row. */
  datatype Option<+T> = None | Some(value: T)

  /** Either a computed value or the error that stopped the computation. */
  datatype Result<+R, +E> = Success(value: R) | Failure(error: E)
}

/** Option and Result values used for the source's `undefined` returns and thrown errors. */
module Wrappers {

  datatype Option<+T> = None | Some(value: T)

  /** `Failure` carries the message of the Error the source throws. */
  datatype Result<+R, +E> = Success(value: R) | Failure(error: E)
}

/** Failure-carrying datatypes shared by the other modules. */
module Wrappers {

  /** A value that may be absent; `None` stands for pandas' NaN marker. */
  datatype Option<+T> = None | Some(value: T)

  /** The outcome of an operation that may raise. */
  datatype Result<+R, +E> = Success(value: R) | Failure(error: E)
}

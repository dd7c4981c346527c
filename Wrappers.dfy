/** The Option and Result types shared by the other modules. */
module Wrappers {

  datatype Option<+T> = None | Some(value: T)

  /** The outcome of a call that may fail, such as one extraction request. */
  datatype Result<+T, +E> = Success(value: T) | Failure(error: E)
}

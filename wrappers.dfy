/** Option and Result, the two failure-carrying shapes the model uses. */
module Wrappers {

  /** An optional value: a JavaScript argument that may be `undefined`. */
  datatype Option<+T> = None | Some(value: T)

  /** The outcome of a computation that returns a value or throws an error. */
  datatype Result<+R, +E> = Success(value: R) | Failure(error: E)
}

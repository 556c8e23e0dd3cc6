/** Option and Result, the shapes in which the model reports a missing value or a thrown error. */
module Wrappers {

  /** A value that may be absent: JavaScript `undefined`, a missing key, a failed decode. */
  datatype Option<+T> = None | Some(value: T)

  /** The outcome of an operation that either returns a value or throws an error. */
  datatype Result<+T, +E> = Success(value: T) | Failure(error: E)
}

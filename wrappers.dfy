/** Option and Result values standing for Go's `(value, ok)` and `(value, error)` returns. */
module Wrappers {

  datatype Option<T> = None | Some(value: T)

  /** A Go `(value, error)` pair: either a value, or the text of the error. */
  datatype Result<T> = Success(value: T) | Failure(error: string)
}

/** The two failure-carrying shapes the model uses: a Go pointer that may be nil,
    and a Go `(value, error)` pair. */
module Wrappers {

  /** A value that may be absent (a nil pointer in the source). */
  datatype Option<+T> = None | Some(value: T)

  /** A value or an error (the source's `(T, error)` results). */
  datatype Result<+R, +E> = Success(value: R) | Failure(error: E)
}

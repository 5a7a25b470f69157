/** Failure-carrying results shared by the other modules. */
module Wrappers {

  /** An optional value: Go's `(bool, *T)` return pairs and nil pointers. */
  datatype Option<+T> = None | Some(value: T)

  /** A value or the reason it could not be produced. */
  datatype Result<+T, +E> = Success(value: T) | Failure(error: E)
}

/** Failure-carrying results shared by every module of the model. */
module Outcomes {

  /** An optional value: Go's `nil` pointer or `nil` error. */
  datatype Option<+T> = None | Some(value: T)

  /** A value or the error that replaced it, as a Go `(T, error)` pair is used. */
  datatype Result<+T, +E> = Ok(value: T) | Err(error: E)
}

/** Failure-compatible wrappers used across the model. */
module Wrappers {

  /** An optional value (Go's nil-able function field). */
  datatype Option<+T> = None | Some(value: T)

  /** A value or a Go `error`, carried as its message. */
  datatype Result<+T> = Ok(value: T) | Err(msg: string)
}

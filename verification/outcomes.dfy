/** Failure-carrying values shared by the emitter and the name resolver. */
module Outcomes {

  /** A value that may be absent (Go's variadic or nil-able arguments). */
  datatype Option<+T> = None | Some(value: T)

  /** A computed value or an error (Go's `(T, error)` return pair). */
  datatype Result<+T, +E> = Ok(value: T) | Err(error: E)

  /** An error or its absence (Go's bare `error` return). */
  datatype Outcome<+E> = Pass | Fail(error: E)
}

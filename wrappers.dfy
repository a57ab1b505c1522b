/** Failure-carrying values shared by every module: Go's `(*T, error)` pairs and
    nil-able `*T` fields become `Result` and `Option`. */
module Wrappers {

  /** A Go `*T` that may be nil, or a TypeScript value that may be null. */
  datatype Option<+T> = None | Some(value: T)

  /** A Go `(value, error)` return: exactly one of the two is meaningful.
      The error is kept as the text `err.Error()` would print. */
  datatype Result<+T> = Ok(value: T) | Err(error: string)
}

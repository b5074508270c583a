/** Failure-carrying wrappers shared by the model: Go's `nil`-able values and
    its `(value, error)` pairs. */
module Base {

  /** A value that may be absent (a Go `nil`). */
  datatype Option<+T> = None | Some(value: T)

  /** A value or the text of the `error` that was returned instead. */
  datatype Result<+T> = Ok(value: T) | Err(msg: string)
}

/** Results of operations that may have nothing to return, or may fail. */
module Wrappers {

  datatype Option<+T> = None | Some(value: T)

  /** A Go `(value, error)` return; the error is kept as the message text. */
  datatype Result<+T> = Ok(value: T) | Err(message: string)
}

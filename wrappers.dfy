/** Go's multi-value error returns, in Dafny's terms. */
module Wrappers {

  /** A Go `error` is represented by its message; `None` in an `Option<Error>` is Go's `nil`. */
  type Error = string

  datatype Option<+T> = None | Some(value: T)

  /** The outcome of a library call that yields a value or an error, such as `url.Parse`. */
  datatype Result<+T> = Ok(value: T) | Err(error: Error)
}

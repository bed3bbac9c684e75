/** Failure-carrying values: Go's `(T, error)` pairs become `Result`, a bare `error` becomes `Option<Error>`. */
module Wrappers {

  datatype Option<+T> = None | Some(value: T)

  datatype Result<+T, +E> = Ok(value: T) | Err(error: E)
}

/** Failure-carrying values shared by the registry and the pagination model. */
module Wrappers {

  /** A value that may be missing; Python's `None` return. */
  datatype Option<+T> = None | Some(value: T)

  /** The outcome of a request: a value, or the error the endpoint raises. */
  datatype Result<+R, +E> = Ok(value: R) | Err(error: E)
}

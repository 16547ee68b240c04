/** Failure-carrying values used across the model: the Python code's `None`
    results and raised exceptions become explicit `Option`, `Result` and
    `Outcome` values. */
module Wrappers {

  datatype Option<+T> = None | Some(value: T)

  datatype Result<+T, +E> = Ok(value: T) | Err(error: E)

  /** The result of an operation that returns nothing but may fail. */
  datatype Outcome<+E> = Pass | Fail(error: E)
}

/** Failure-carrying return values: `Option` for JavaScript's `null`/`undefined`,
    `Result` for an operation that can throw, `Outcome` for one that only throws. */
module Wrappers {

  datatype Option<+T> = None | Some(value: T)

  datatype Result<+R, +E> = Ok(value: R) | Err(error: E)

  datatype Outcome<+E> = Pass | Fail(error: E)
}

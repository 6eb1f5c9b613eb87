/** Option, Result and Outcome values used for the source's `Option`, `Result`
    and thrown errors. */
module Wrappers {

  datatype Option<+T> = None | Some(value: T)

  datatype Result<+T, +E> = Ok(value: T) | Err(error: E)

  /** The outcome of a step that produces no value: it passes or fails with an error. */
  datatype Outcome<+E> = Pass | Fail(error: E)
}

/** Outcome types shared by the model: an optional value, and a value or an error. */
module Outcomes {

  /** A value that may be absent, such as a page's continuation token. */
  datatype Option<+T> = None | Some(value: T)

  /** The result of an operation that may raise instead of returning. */
  datatype Result<+T, +E> = Ok(value: T) | Err(error: E)
}

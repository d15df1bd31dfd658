/** Failure-carrying wrappers, named after the Rust types the tool uses. */
module Types {

  /** An optional value: `Some(value)` or nothing. */
  datatype Option<+T> = None | Some(value: T)

  /** The outcome of a fallible step: a value or an error. */
  datatype Result<+T, +E> = Ok(value: T) | Err(error: E)
}

/** Results that may be missing or may be errors, for the source's zero-and-false and
    value-and-error returns. */
module Wrappers {

  datatype Option<+T> = None | Some(value: T)

  datatype Result<+T, +E> = Ok(value: T) | Err(error: E)
}

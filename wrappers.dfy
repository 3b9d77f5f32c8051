/** Python's `Optional[...]` and raised exceptions, as values. */
module Wrappers {

  /** `None` or a value: Python's `Optional[T]`. */
  datatype Option<+T> = None | Some(value: T)

  /** A returned value or a raised exception. */
  datatype Result<+T, +E> = Ok(value: T) | Err(error: E)
}

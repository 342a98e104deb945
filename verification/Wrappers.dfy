/** Option and Result, the latter in the place of the repository's `expected<T>`. */
module Wrappers {
  datatype Option<+T> = None | Some(value: T)

  datatype Result<+T, +E> = Ok(value: T) | Err(error: E)

  /** An `expected<void>` has nothing to return. */
  datatype Unit = Unit
}

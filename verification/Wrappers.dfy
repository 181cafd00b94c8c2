/** Option and Result, the project's stand-ins for Python's None and for a raised StoreError. */
module Wrappers {
  datatype Option<+T> = None | Some(value: T)

  datatype Result<+T, +E> = Ok(value: T) | Err(error: E)
}

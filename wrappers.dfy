/** Optional values and results with an error, for the application's
    "not found" and thrown-error paths. */
module Wrappers {
  datatype Option<T> = None | Some(value: T)
  datatype Result<T, E> = Ok(value: T) | Err(error: E)
}

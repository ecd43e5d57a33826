/** Option and Result, the two wrappers every other module uses for absent values and raised exceptions. */
module Wrappers {

  datatype Option<T> = None | Some(value: T)

  /** A Python call that either returns a value or raises an exception. */
  datatype Result<T, E> = Ok(value: T) | Err(error: E)
}

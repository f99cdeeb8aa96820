/** Optional values and the outcome of a call that may raise. */
module Wrappers {

  datatype Option<+T> = None | Some(value: T)

  /** A service call either returns a value or raises, in which case nothing it wrote is kept. */
  datatype Result<+T, +E> = Ok(value: T) | Err(error: E)
}

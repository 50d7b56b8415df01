/** Optional values and call outcomes shared by the other modules. */
module Wrappers {

  /** A value that may be absent: PHP's `false`/`null` results. */
  datatype Option<+T> = None | Some(value: T)

  /** The outcome of a call that either returns a value or raises an exception. */
  datatype Result<+T, +E> = Ok(value: T) | Err(error: E)
}

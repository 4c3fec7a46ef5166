/** Optional values and results with an error notice, used by the pricing
    fallback and by the handlers that can refuse an action. */
module Wrappers {

  /** A value that may be absent (JavaScript's `undefined` / `null`). */
  datatype Option<+T> = None | Some(value: T)

  /** Either the new value or the reason the action was refused. */
  datatype Result<+T, +E> = Ok(value: T) | Err(error: E)
}

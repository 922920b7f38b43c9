/** Optional values and results: JavaScript's `null`/`undefined` and the success-or-message
    shapes the application returns. */
module Wrappers {

  datatype Option<+T> = None | Some(value: T)

  datatype Result<+T, +E> = Ok(value: T) | Err(error: E)
}

/** Optional values and results with an error, used for the scheduler's
    "may be absent" values and for the errors its parsers raise. */
module Wrappers {

  datatype Option<+T> = None | Some(value: T)

  datatype Result<+T, +E> = Ok(value: T) | Err(error: E)
}

/** Optional values, and results that carry an error message instead. */
module Wrappers {

  /** A value that may be absent. */
  datatype Option<+T> = None | Some(value: T)

  /** A value, or the message of the error that prevented it. */
  datatype Result<+T> = Ok(value: T) | Err(error: string)
}

/** Optional values and results with an error case. */
module Opt {
  /** A JSON key that may be absent, a lookup that may raise. */
  datatype Option<+T> = None | Some(value: T)

  /** An outcome that is either a value or the error the command reports. */
  datatype Result<+T, +E> = Ok(value: T) | Err(error: E)
}

/** Failure-carrying values used where the modelled code throws or may have nothing to return. */
module Wrappers {

  /** A value that may be absent. */
  datatype Option<+T> = None | Some(value: T)

  /** Either a computed value or the error the modelled code raises instead. */
  datatype Result<+T, +E> = Ok(value: T) | Err(error: E)
}

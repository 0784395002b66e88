/** The optional and fallible results that the other modules share. */
module Wrappers {

  /** A value the source types as `T | undefined` (or `T | None`). */
  datatype Option<+T> = None | Some(value: T)

  /** A call that either returns or throws. */
  datatype Result<+T, +E> = Ok(value: T) | Err(error: E)
}

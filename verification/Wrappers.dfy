/** Result types shared by the other modules. */
module Wrappers {

  /** Python's `None` or a value. */
  datatype Option<+T> = None | Some(value: T)

  /** A normal return or a raised exception. */
  datatype Result<+T, +E> = Ok(value: T) | Raised(error: E)
}

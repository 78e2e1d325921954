/** Small option and result types shared by the other modules. */
module Wrappers {

  /** A value that may be absent (JavaScript's `null` / `undefined`). */
  datatype Option<+T> = None | Some(value: T)

  /** Either a value or an error (a thrown JavaScript exception). */
  datatype Result<+T, +E> = Ok(value: T) | Err(error: E)
}

/** Shared result types. */
module Prelude {

  datatype Option<+T> = None | Some(value: T)

  /** A service call either returns a value or raises, and then its transaction is rolled back. */
  datatype Result<+T, +E> = Ok(value: T) | Err(error: E)
}

/** Option and Result: Kotlin's nullable return and the service's thrown exceptions, as values. */
module Wrappers {

  /** A value that may be absent, as Kotlin's `T?`. */
  datatype Option<+T> = None | Some(value: T)

  /** Either a successful value or an error the source would have thrown. */
  datatype Result<+R, +E> = Success(value: R) | Failure(error: E)
}

/** Option and Result, standing for Java's nullable references and thrown exceptions. */
module Wrappers {

  /** `None` is Java's `null`. */
  datatype Option<+T> = None | Some(value: T)

  /** `Failure` is an exception the operation throws instead of returning. */
  datatype Result<+T, +E> = Success(value: T) | Failure(error: E)
}

/** Java's `null` and thrown exceptions, as values. */
module Wrappers {

  /** A reference that may be `null`. */
  datatype Option<T> = None | Some(value: T)

  /** A call that returns normally or throws. */
  datatype Result<T, E> = Success(value: T) | Failure(error: E)

  /** The exceptions the modelled code can throw. */
  datatype Exception = NullPointerException | IllegalArgumentException
}

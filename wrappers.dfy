/** Failure-carrying values returned by the workflows in place of JavaScript exceptions. */
module Wrappers {

  datatype Option<T> = None | Some(value: T)

  datatype Result<T, E> = Success(value: T) | Failure(error: E)

  /** Success or failure of a workflow that returns nothing on success. */
  datatype Outcome<E> = Pass | Fail(error: E)
}

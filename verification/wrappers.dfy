/** Failure-carrying values shared by the model.
    - Option<T> stands for a floating-point field that may be NaN: None is the undefined marker.
    - Result<T, E> stands for a computation that may raise a Python exception instead of returning.
 */
module Wrappers {

  /** A value that may be undefined (NaN in the original program). */
  datatype Option<+T> = None | Some(value: T)

  /** Either a returned value or the exception that was raised instead. */
  datatype Result<+T, +E> = Success(value: T) | Failure(error: E)
}

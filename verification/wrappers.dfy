/** The two wrapper types the model shares: an optional value and a
    success-or-error result. */
module Wrappers {

  /** A value that may be missing: JavaScript's `null`, `undefined` or `NaN`. */
  datatype Option<+T> = None | Some(value: T)

  /** The outcome of a step that either produces a value or is refused with an error. */
  datatype Result<+R, +E> = Success(value: R) | Failure(error: E)
}

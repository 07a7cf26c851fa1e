/** Option and Result, used where the script works with `null`/`undefined`
    values and with exceptions. */
module Wrappers {

  /** `None` stands for JavaScript's `null` (or a missing value). */
  datatype Option<+T> = None | Some(value: T)

  /** `Failure` stands for an exception thrown by the computation. */
  datatype Result<+R, +E> = Success(value: R) | Failure(error: E)
}

/** The two exception kinds the containers throw, and the result shapes used
    in place of C++ exceptions. */
module Wrappers {

  /** `out_of_range` (bad size at construction, bad index in `at`) and
      `invalid_argument` (operand sizes that do not match). */
  datatype Error = OutOfRange | InvalidArgument

  /** The value of an operation that either returns a value or throws. */
  datatype Result<+T> = Ok(value: T) | Err(error: Error)

  /** The outcome of an operation that returns nothing, or throws. */
  datatype Outcome = Pass | Fail(error: Error)
}

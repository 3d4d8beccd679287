/** Shared result types. */
module Wrappers {

  datatype Option<+T> = None | Some(value: T)

  /** A value, or an exception whose message does not matter. */
  datatype Result<+T> = Ok(value: T) | Failed

  /** How an operation without a result ended. */
  datatype Outcome = Done | Raised(error: string)
}

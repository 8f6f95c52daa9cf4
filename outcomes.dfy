/** Optional values and results that carry either a value or an error. */
module Outcomes {

  datatype Option<+T> = None | Some(value: T)

  /** A computation that either produces a value or stops with an error
      (the model of a raised Python exception). */
  datatype Result<+T, +E> = Ok(value: T) | Err(error: E)

  /** A computation run for its effect that either completes or stops with an error. */
  datatype Outcome<+E> = Pass | Fail(error: E)
}

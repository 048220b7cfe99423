/** Optional values and the error results of the pipeline. */
module Outcomes {

  datatype Option<T> = None | Some(value: T)

  /** The faults the pipeline can raise on valid-looking input. */
  datatype Error =
    | DivisionByZero        // a zero divisor in a float or int division
    | MissingCriticalValue  // the critical-value table has no entry for the degrees of freedom

  datatype Result<T> = Ok(value: T) | Err(error: Error)
}

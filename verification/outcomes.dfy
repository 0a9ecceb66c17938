/** Failure-carrying results. A `require` in the factor layer aborts the
    operation with a message; here that abort is an explicit `Fail` value. */
module Outcomes {

  /** A value, or the message of the precondition check that failed. */
  datatype Result<T> = Ok(value: T) | Fail(msg: string)

  /** The result of an operation that returns nothing on success. */
  datatype Outcome = Pass | Abort(msg: string)

  datatype Option<T> = None | Some(value: T)
}

/**
 Optional values and success/failure results shared by the coupon model.
 */
module Outcomes {

  /** A value that may be absent, as an omitted field of a JSON request body is. */
  datatype Option<+T> = None | Some(value: T) {

    /** The value, or `default` when absent (the schema's field defaults). */
    function GetOr(default: T): T {
      match this
      case Some(v) => v
      case None => default
    }
  }

  /** The outcome of a controller operation: a value or the kind of error response sent. */
  datatype Result<+T, +E> = Ok(value: T) | Err(error: E)
}

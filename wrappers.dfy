/** Option and Result values used for the authenticator's partial collaborators and its raised errors. */
module Wrappers {

  datatype Option<+T> = None | Some(value: T) {
    /** The value, or `default` when absent (Python's `x or default` on an optional argument). */
    function GetOr(default: T): T {
      match this
      case Some(v) => v
      case None => default
    }
  }

  /** `Ok` is a normal return, `Err` an exception raised to the caller. */
  datatype Result<+R, +E> = Ok(value: R) | Err(error: E)
}

/** Absence and failure as values. */
module Wrappers {

  /** A value that may be missing: an optional field, or a "not found" result. */
  datatype Option<+T> = None | Some(value: T) {

    /** The present value, or `fallback` when absent: JavaScript's `x || fallback` on an optional field. */
    function GetOr(fallback: T): (r: T)
      ensures Some? ==> r == value
      ensures None? ==> r == fallback
    {
      if Some? then value else fallback
    }
  }

  /** The outcome of an operation that may fail with an error `E`. */
  datatype Result<+T, +E> = Ok(value: T) | Err(error: E)
}

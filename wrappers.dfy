/** The failure-compatible wrapper used across the model for values the source
    treats as `null`/`undefined` (a missing cache entry, a nullable column). */
module Wrappers {

  datatype Option<+T> = None | Some(value: T) {

    /** The value, or `default` when there is none. */
    function GetOr(default: T): (r: T)
      ensures Some? ==> r == value
      ensures None? ==> r == default
    {
      match this
      case Some(v) => v
      case None => default
    }
  }

  /** The outcome of an awaited call that may reject: its value, or a
      rejection (whose reason is not modelled). */
  datatype Settled<+T> = Resolved(value: T) | Rejected
}

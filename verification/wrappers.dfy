/** Option and Result, the two failure-carrying datatypes the rest of the model uses. */
module Wrappers {

  /** A value that may be missing: a SQL NULL, an absent header, an omitted field. */
  datatype Option<+T> = None | Some(value: T) {

    /** The carried value, or `default` when there is none. */
    function GetOr(default: T): T {
      match this
      case Some(v) => v
      case None => default
    }
  }

  /** The outcome of a request handler: the record it answers with, or the error it reports. */
  datatype Result<+T, +E> = Ok(value: T) | Err(error: E)
}

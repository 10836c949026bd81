/** Failure-carrying datatypes shared by every module of the model. */
module Wrappers {

  /** A value that may be absent: a missing cookie, query parameter or body field. */
  datatype Option<+T> = None | Some(value: T) {

    /** The value, or `default` when absent. */
    function GetOr(default: T): T {
      match this
      case Some(v) => v
      case None => default
    }
  }

  /** The value as a list of zero or one elements. */
  function AsList<T>(o: Option<T>): (r: seq<T>)
    ensures o.None? ==> r == []
    ensures o.Some? ==> r == [o.value]
  {
    match o case Some(v) => [v] case None => []
  }

  /** The outcome of a validation step: a value, or the reasons it was refused. */
  datatype Result<+T, +E> = Ok(value: T) | Err(error: E)
}

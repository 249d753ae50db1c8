/** Small failure-carrying datatypes shared by the rest of the model. */
module Wrappers {

  /** An optional value: a missing header field, an absent cookie, a document field that may not be stored. */
  datatype Option<+T> = None | Some(value: T) {

    /** The carried value, or `default` when there is none. */
    function GetOr(default: T): T {
      match this
      case Some(v) => v
      case None => default
    }
  }

  /** The outcome of an operation that either produces a value or fails with an error. */
  datatype Result<+T, +E> = Ok(value: T) | Err(error: E)
}

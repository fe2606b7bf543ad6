/** Option and Result values used for Java's nulls and exceptions. */
module Wrappers {

  /** A possibly-null reference: `None` stands for Java's `null`. */
  datatype Option<+T> = None | Some(value: T) {
    function GetOr(default: T): T {
      match this
      case Some(v) => v
      case None => default
    }
  }

  /** The outcome of a call that may end in a thrown exception. */
  datatype Result<+T, +E> = Ok(value: T) | Err(error: E)
}

/** Option and Result: a nullable column or an optional request field, and a
    handler outcome that is either a value or one error kind. */
module Wrappers {

  datatype Option<+T> = None | Some(value: T) {
    /** The stored value when this is None: SQL COALESCE($x, column). */
    function Coalesce(stored: T): T {
      match this
      case Some(v) => v
      case None => stored
    }

    /** This value when present, else the stored one: COALESCE of two nullables. */
    function Or(stored: Option<T>): Option<T> {
      if Some? then this else stored
    }
  }

  datatype Result<+T, +E> = Success(value: T) | Failure(error: E)
}

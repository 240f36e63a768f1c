/** Failure-carrying values: Java's Optional and the exceptions the parsers and commands throw. */
module Wrappers {

  /** Java's Optional (and a nullable field read through Optional.ofNullable). */
  datatype Option<+T> = None | Some(value: T) {

    /** Optional.orElse */
    function GetOr(default: T): T {
      match this
      case Some(v) => v
      case None => default
    }

    /** This value if present, else the other one: the first of two outcomes that is present. */
    function OrElse(other: Option<T>): Option<T> {
      if Some? then this else other
    }
  }

  /** A value, or the exception the Java code throws instead of returning one. */
  datatype Result<+T, +E> = Ok(value: T) | Err(error: E)
}

/** Optional values and success-or-error results, standing in for Java's
    nullable references and thrown RuntimeExceptions. */
module Wrappers {

  /** A nullable reference: None plays the part of Java's null. */
  datatype Option<+T> = None | Some(value: T) {

    /** The wrapped value, or the default when this is None. */
    function GetOr(default: T): T {
      match this
      case Some(v) => v
      case None => default
    }
  }

  /** The outcome of a service call: a value, or the error it would throw. */
  datatype Result<+T, +E> = Ok(value: T) | Err(error: E) {

    predicate IsFailure() {
      Err?
    }

    function PropagateFailure<U>(): Result<U, E>
      requires Err?
    {
      Err(error)
    }

    function Extract(): T
      requires Ok?
    {
      value
    }
  }
}

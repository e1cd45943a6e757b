/** Option and Result, the failure-compatible wrappers the rest of the model uses. */
module Wrappers {

  datatype Option<+T> = None | Some(value: T)

  /** A Python call either returns a value or raises; `Failure` carries what it raises. */
  datatype Result<+T, +E> = Success(value: T) | Failure(error: E) {

    predicate IsFailure() {
      Failure?
    }

    function PropagateFailure<U>(): Result<U, E>
      requires Failure?
    {
      Failure(error)
    }

    function Extract(): T
      requires Success?
    {
      value
    }
  }
}

/** The exceptions the core raises, one constructor per distinguishable cause. */
module Errors {

  datatype Error =
    /** `ValueError("Invalid identifier provided: ...")` from the identifier sanitizer */
    | InvalidIdentifier(candidate: string)
    /** `ValueError` raised when an exchange filter is asked of a repository without an exchange column */
    | ExchangeFilterUnavailable
    /** any exception the database driver raises while executing a statement */
    | DataAccess
    /** an unresolved global name */
    | NameError(name: string)
    /** a missing dictionary key */
    | KeyError(key: string)
    /** `fromisoformat` applied to something that is not a string */
    | TypeError
}

/** Failure-compatible wrappers used across the model: Java's nullable
    references become `Option`, thrown exceptions become `Result`. */
module Wrappers {

  datatype Option<+T> = None | Some(value: T) {
    predicate IsFailure() { None? }

    function PropagateFailure<U>(): Option<U>
      requires None?
    {
      None
    }

    function Extract(): T
      requires Some?
    {
      value
    }
  }

  datatype Result<+R, +E> = Success(value: R) | Failure(error: E) {
    predicate IsFailure() { Failure? }

    function PropagateFailure<U>(): Result<U, E>
      requires Failure?
    {
      Failure(error)
    }

    function Extract(): R
      requires Success?
    {
      value
    }
  }

  /** Java's `NoSuchElementException`: `Optional.get` on an empty optional,
      as the enums' `find` methods do when no constant matches. */
  datatype NoSuchElementException = NoSuchElementException

  /** A computation that returns nothing (Java `void`) or throws. */
  datatype Outcome<+E> = Pass | Fail(error: E)
}

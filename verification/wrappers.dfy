/** The outcome of a library call that may throw. The library has one error path: an
    argument that is neither a Set nor an Array. */
module Wrappers {

  /** Either a computed value or an error; usable with `:-`. */
  datatype Result<+R, +E> = Success(value: R) | Failure(error: E) {

    /** A thrown error: `:-` stops at it. */
    predicate IsFailure() {
      Failure?
    }

    /** The same error, as the result of the enclosing operation. */
    function PropagateFailure<U>(): Result<U, E>
      requires Failure?
    {
      Failure(error)
    }

    /** The value `:-` binds when no error was thrown. */
    function Extract(): R
      requires Success?
    {
      value
    }
  }
}

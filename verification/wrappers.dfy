/** A failure-compatible result type, so that the engine's error paths are
    ordinary values rather than preconditions. */
module Wrappers {

  datatype Result<+T, +E> = Success(value: T) | Failure(error: E) {

    /** Whether `:-` should stop here and hand the error on */
    predicate IsFailure() {
      Failure?
    }

    /** The same error, now typed as a result of whatever the enclosing
        function returns */
    function PropagateFailure<U>(): Result<U, E>
      requires Failure?
    {
      Failure(error)
    }

    /** What `:-` binds when the computation went through */
    function Extract(): T
      requires Success?
    {
      value
    }
  }
}

/** Optional values and results with an error, used for the lookups and
    parses of the batch planner that can fail. A `Result` can be used with
    `:-`, which hands its error on to the caller as a raised exception
    propagates. */
module Results {

  datatype Option<+T> = None | Some(value: T)

  datatype Result<+T, +E> = Success(value: T) | Failure(error: E) {

    predicate IsFailure()
    {
      Failure?
    }

    function PropagateFailure<U>(): Result<U, E>
      requires Failure?
    {
      Failure(error)
    }

    function Extract(): T
      requires Success?
    {
      value
    }
  }
}

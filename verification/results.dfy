/** Failure-compatible wrappers used throughout the model: `Option` stands in
    for Java's nullable references, `Result` for a value or a thrown exception. */
module Results {

  /** A value that may be absent; `None` plays the role of Java's `null`. */
  datatype Option<+T> = None | Some(value: T)

  /** Either a computed value or the error that aborted the computation. */
  datatype Result<+T, +E> = Success(value: T) | Failure(error: E) {

    predicate IsFailure() {
      Failure?
    }

    function PropagateFailure<U>(): Result<U, E>
      requires Failure?
    {
      Failure(error)
    }

    function Extract(): T
      requires Success?
    {
      value
    }
  }
}

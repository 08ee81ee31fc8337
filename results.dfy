/** Failure-compatible wrappers used by the expense store model.
    `Option` stands for a value that SQL may leave NULL (and JavaScript's
    `??` for its fallback); `Result` and `Outcome` stand for a promise that
    resolves with a value, or resolves, or is rejected with an error. */
module Results {

  datatype Option<+T> = None | Some(value: T) {

    predicate IsFailure() {
      None?
    }

    function PropagateFailure<U>(): Option<U>
      requires None?
    {
      None
    }

    function Extract(): T
      requires Some?
    {
      value
    }

    /** `x ?? default` in JavaScript: the value when present, the default when NULL. */
    function GetOr(default: T): T {
      match this
      case Some(v) => v
      case None => default
    }
  }

  datatype Result<+T, +E> = Success(value: T) | Failure(error: E)

  datatype Outcome<+E> = Pass | Fail(error: E)
}

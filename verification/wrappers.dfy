/** Rust's two ways of saying "maybe": `Option` for a field or lookup that
    can come back empty, and `Result` for a step that can fail. Errors are
    plain messages, as `anyhow` reports them. */
module Wrappers {

  datatype Option<+T> = None | Some(value: T) {
    /** `unwrap_or`: the held value, or `fallback` when there is none. */
    function UnwrapOr(fallback: T): T {
      match this
      case Some(v) => v
      case None => fallback
    }
  }

  /** The three members below let a method write `var x :- step;`, which
      stops at the first failed step and passes its message on, as the `?`
      operator does in the program. */
  datatype Result<+R> = Success(value: R) | Failure(error: string) {
    predicate IsFailure() {
      Failure?
    }

    /** The same failure, retyped for the caller's result. */
    function PropagateFailure<U>(): Result<U>
      requires Failure?
    {
      Failure(error)
    }

    function Extract(): R
      requires Success?
    {
      value
    }
  }
}

/** Failure-compatible result types shared by both halves of the model. */
module Wrappers {

  datatype Option<+T> = None | Some(value: T)

  /** A service's answer: a value, or an error that `:-` hands on to the caller. */
  datatype Result<+T, +E> = Success(value: T) | Failure(error: E) {
    predicate IsFailure() {
      Failure?
    }

    function PropagateFailure<U>(): Result<U, E>
      requires Failure?
    {
      Failure(error)
    }

    function Extract(): T
      requires Success?
    {
      value
    }
  }

  /** Whether `s` contains `pattern` as a contiguous piece. */
  predicate Contains(s: string, pattern: string) {
    exists k | 0 <= k <= |s| - |pattern| :: OccursAt(s, pattern, k)
  }

  predicate OccursAt(s: string, pattern: string, k: nat)
    requires k + |pattern| <= |s|
  {
    s[k..k + |pattern|] == pattern
  }
}

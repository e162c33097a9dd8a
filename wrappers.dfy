/**
 * Failure-compatible wrappers shared by every module of the model, and the
 * three kinds of error apio distinguishes.
 */
module Wrappers {

  datatype Option<+T> = None | Some(value: T)

  /**
   * DeclarationError: a programming error in a declared type (duplicate lookup
   *   key, a facet type that is not a struct, an unsupported kind); in the
   *   Go code these are panics or plain errors raised while building a plan.
   * BadRequest: a caller-controlled failure (missing, repeated or malformed value).
   * InternalError: a failure the caller cannot provoke (a marshal error, a
   *   reflective operation that cannot succeed).
   */
  datatype Error =
    | DeclarationError(message: string)
    | BadRequest(message: string)
    | InternalError(message: string)

  datatype Result<+T> = Success(value: T) | Failure(error: Error) {

    predicate IsFailure() {
      Failure?
    }

    function PropagateFailure<U>(): Result<U>
      requires Failure?
    {
      Failure(error)
    }

    function Extract(): T
      requires Success?
    {
      value
    }
  }
}

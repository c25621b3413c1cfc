/** Failure-carrying results shared by every module of the model. */
module Wrappers {

  datatype Option<+T> = None | Some(value: T) {
    function GetOr(default: T): T {
      match this
      case Some(v) => v
      case None => default
    }
  }

  /** Why a step of the pipeline throws (every kind surfaces as an HTTP 500 at the route). */
  datatype Error =
    | TypeError            // a property read or write on undefined/null, a missing `.map`, ...
    | NotAnObject          // translateJson given a non-object or null
    | TranslationFailed    // the remote translator failed or gave no payload
    | LineMismatch         // the reply's line count differs from the number of strings
    | OutsideModel         // a write the JSON-tree model cannot express (a new array slot, a Buffer)
    | MergeThrew           // mergeObject stopped part-way (a TypeError, or a write the model cannot express)

  datatype Result<+T> = Success(value: T) | Failure(error: Error) {
    predicate IsFailure() { Failure? }
    function PropagateFailure<U>(): Result<U> requires Failure? { Failure(error) }
    function Extract(): T requires Success? { value }
  }
}

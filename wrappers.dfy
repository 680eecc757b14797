/** Failure-compatible wrappers shared by every module of the model. */
module Wrappers {

  datatype Option<+T> = None | Some(value: T) {
    function GetOr(default: T): T {
      match this
      case Some(v) => v
      case None => default
    }
  }

  datatype Result<+R, +E> = Success(value: R) | Failure(error: E) {
    predicate IsFailure() {
      Failure?
    }

    function PropagateFailure<U>(): Result<U, E>
      requires Failure?
    {
      Failure(error)
    }

    function Extract(): R
      requires Success?
    {
      value
    }
  }

  /**
   * A loop that builds a sequence piece by piece from what is left of its
   * input keeps its total: adding the piece for the next element moves it
   * from the remaining part to the accumulated part.
   */
  lemma AppendPiece<T>(acc: seq<T>, piece: seq<T>, rest: seq<T>, remaining: seq<T>, total: seq<T>)
    requires remaining == piece + rest && acc + remaining == total
    ensures (acc + piece) + rest == total
  {
  }
}

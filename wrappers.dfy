/** Optional values and results with an error branch, shared by every module of the model. */
module Wrappers {

  /** A value that may be absent: JavaScript's `undefined`, or a lookup that found nothing. */
  datatype Option<+T> = None | Some(value: T) {

    /** The carried value, or `default` when there is none. */
    function GetOr(default: T): T
    {
      match this
      case Some(v) => v
      case None => default
    }
  }

  /** The outcome of a request handler: a reply, or the error the handler sends. */
  datatype Result<+R, +E> = Success(value: R) | Failure(error: E)
}

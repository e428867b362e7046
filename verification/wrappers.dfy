/** Optional values and results with an error, used wherever the analytics
    service meets a Java `null` or an exception. */
module Wrappers {

  /** A Java reference that may be `null`. */
  datatype Option<+T> = None | Some(value: T) {

    /** The value, or `default` when absent. */
    function GetOr(default: T): T {
      match this
      case Some(v) => v
      case None => default
    }
  }

  /** The outcome of a step of the service that can throw. */
  datatype Result<+R, +E> = Success(value: R) | Failure(error: E)

  /** The runtime exceptions the service can throw on a model it does not expect. */
  datatype JavaException = NullPointerException | ClassCastException
}

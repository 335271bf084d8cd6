/** Option and Result wrappers used across the model. */
module Wrappers {

  /** Python's `None` versus a present value. */
  datatype Option<+T> = None | Some(value: T)

  /** A computation that either succeeds or is rejected for a stated reason. */
  datatype Result<+T, +E> = Success(value: T) | Failure(error: E) {

    /** Forgets the reason of a failure, as a caller that only sees `None` does. */
    function ToOption(): (o: Option<T>)
      ensures o.Some? <==> Success?
      ensures Success? ==> o.value == value
    {
      match this
      case Success(v) => Some(v)
      case Failure(_) => None
    }
  }
}

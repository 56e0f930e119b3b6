/** Optional values and fallible results, standing in for Java's `null` and for
    checked exceptions. */
module Results {

  /** A Java reference that may be `null`: `None` is `null`. */
  datatype Option<+T> = None | Some(value: T)

  /** The outcome of a call that either returns a value or throws an exception. */
  datatype Result<+T, +E> = Success(value: T) | Failure(error: E) {

    /** Replaces whatever error this result carries by `e`, keeping a success as it is. */
    function WrapError<F>(e: F): (r: Result<T, F>)
      ensures Success? <==> r.Success?
      ensures Success? ==> r.value == value
      ensures Failure? ==> r.error == e
    {
      match this
      case Success(v) => Success(v)
      case Failure(_) => Failure(e)
    }
  }
}

/** Optional values and results with an error message. */
module Results {

  /** A value that may be absent (`null`/`undefined` in the program). */
  datatype Option<T> = None | Some(value: T)
  {
    /** The `??` operator: the value, or `default` when it is absent. */
    function OrElse(default: T): (r: T)
      ensures Some? ==> r == value
      ensures None? ==> r == default
    {
      match this
      case Some(v) => v
      case None => default
    }
  }

  /** A value, or the message of the `Error` the program throws. */
  datatype Result<T> = Ok(value: T) | Err(message: string)
}

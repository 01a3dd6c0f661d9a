/** Swift optionals (`T?`) and the nil-coalescing operator `??`. */
module Options {

  /** `T?`: either nil or a wrapped value. */
  datatype Option<+T> = None | Some(value: T) {

    /** `x ?? default`: the wrapped value, or `default` when this is nil. */
    function GetOr(default: T): (r: T)
      ensures Some? ==> r == value
      ensures None? ==> r == default
    {
      match this
      case Some(v) => v
      case None => default
    }
  }
}

/** The optional value that Swift writes `T?`. */
module Options {

  datatype Option<+T> = None | Some(value: T) {

    /** Swift's `??`: the wrapped value, or `default` for `nil`. */
    function GetOr(default: T): T {
      match this
      case Some(v) => v
      case None => default
    }
  }
}

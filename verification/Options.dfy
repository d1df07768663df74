/** An optional value: the source's Option, a failed decimal parse, a missing map entry. */
module Options {
  datatype Option<+T> = None | Some(value: T) {
    /** The value, or a default when there is none. */
    function GetOr(default: T): T {
      match this
      case Some(v) => v
      case None => default
    }
  }
}

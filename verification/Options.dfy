/** The optional values that the Go code writes as nil pointers and `value, ok` pairs. */
module Options {
  datatype Option<+T> = None | Some(value: T) {
    /** The zero-value default that the code applies to a missing optional field. */
    function GetOr(default: T): T {
      match this
      case None => default
      case Some(v) => v
    }
  }
}

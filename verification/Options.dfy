/** The optional value the modules below share. */
module Options {
  datatype Option<+T> = None | Some(value: T) {
    /** `value ?? default`. */
    function GetOr(default: T): T {
      match this
      case Some(v) => v
      case None => default
    }
  }
}

/** The usual Some/None wrapper, standing for JavaScript's `undefined`/`null`
    alongside a present value. */
module Optional {

  datatype Option<+T> = None | Some(value: T) {

    /** The value if present, otherwise the given default (JavaScript's `v || d` on non-empty values). */
    function GetOr(default: T): T {
      match this
      case Some(v) => v
      case None => default
    }
  }
}

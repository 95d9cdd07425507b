module Options {
  /** A value that may be `null` or `undefined`. */
  datatype Option<+T> = None | Some(value: T) {
    function GetOr(default: T): T {
      if Some? then value else default
    }

    /** This value, or the other one if this is absent; both may be. */
    function OrElse(other: Option<T>): Option<T> {
      if Some? then this else other
    }
  }
}

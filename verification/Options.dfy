/** The absent-or-present value used wherever the source has `undefined` or NULL. */
module Options {
  datatype Option<+T> = None | Some(value: T) {
    function Or(default: T): T {
      if Some? then value else default
    }

    function OrElse(other: Option<T>): Option<T> {
      if Some? then this else other
    }
  }
}

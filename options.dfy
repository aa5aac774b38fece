/** An optional value: JavaScript's `null`/`undefined` and a failed match. */
module Options {
  datatype Option<T> = None | Some(value: T) {
    function GetOr(default: T): T {
      if Some? then value else default
    }
  }
}

/** A value that may be missing: null, undefined, or a row that was not found. */
module Options {
  datatype Option<+T> = None | Some(value: T) {
    function Or(otherwise: T): T {
      if Some? then value else otherwise
    }
  }
}

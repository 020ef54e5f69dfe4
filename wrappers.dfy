/** The optional value returned by `Array.prototype.find` and by the overlap test. */
module Wrappers {
  datatype Option<+T> = None | Some(value: T)
}

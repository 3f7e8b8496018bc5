/** The JavaScript `undefined` result of `Array.prototype.find` and of optional fields. */
module Wrappers {

  datatype Option<+T> = None | Some(value: T)
}

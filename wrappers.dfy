/** The optional value used for JavaScript's `undefined` fields and for NaN results. */
module Wrappers {
  datatype Option<+T> = None | Some(value: T)
}

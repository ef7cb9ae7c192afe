/** The optional value used for "not found" scans and for JavaScript's NaN. */
module Wrappers {
  datatype Option<+T> = None | Some(value: T)
}

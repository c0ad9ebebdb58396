/** The optional value used where the scanner either produces something or skips it. */
module Wrappers {
  datatype Option<+T> = None | Some(value: T)
}

/** The optional value used wherever the source has a lookup, parse or decode that may fail. */
module Wrappers {
  datatype Option<+T> = None | Some(value: T)
}

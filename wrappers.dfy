/** The optional value used by the parsers of this model. */
module Wrappers {
  datatype Option<+T> = None | Some(value: T)
}

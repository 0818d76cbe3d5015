/** The optional-value datatype shared by the other modules. */
module Wrappers {

  /** A value that may be absent; used for "not set" fields and for parsers that may fail. */
  datatype Option<+T> = None | Some(value: T)
}

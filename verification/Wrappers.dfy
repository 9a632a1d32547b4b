/** The one shared datatype: a value that may be missing. */
module Wrappers {

  datatype Option<+T> = None | Some(value: T)
}

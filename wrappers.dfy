/** The optional value used for parse results. */
module Wrappers {

  datatype Option<+T> = None | Some(value: T)
}

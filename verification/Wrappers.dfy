/** The usual optional value. */
module Wrappers {

  datatype Option<+T> = None | Some(value: T)
}

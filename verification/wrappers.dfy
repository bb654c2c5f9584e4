/** The optional value used wherever the source has a `T | undefined`. */
module Wrappers {

  datatype Option<+T> = None | Some(value: T)
}

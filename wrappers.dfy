/** The optional value used wherever the client can fail without raising an error. */
module Wrappers {

  datatype Option<+T> = None | Some(value: T)
}

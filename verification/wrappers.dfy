/** The optional value used throughout the model for "no reply" and "not found". */
module Wrappers {

  datatype Option<+T> = None | Some(value: T)
}

/** Option datatype shared by the modules of the model. */
module Wrappers {

  /** A value that may be absent: the model's stand-in for a null reference. */
  datatype Option<+T> = None | Some(value: T)
}

/** The Option datatype used for the nullable references of the model. */
module Wrappers {
  datatype Option<+T> = None | Some(value: T)
}

/** The optional-value datatype used by the model for values that may be absent. */
module Wrappers {

  datatype Option<+T> = None | Some(value: T)
}

/** The optional-value datatype the rest of the model uses. */
module Wrappers {

  datatype Option<+T> = None | Some(value: T)
}

/** The optional-value datatype used for every parse in this model. */
module Wrappers {

  datatype Option<+T> = None | Some(value: T)

}

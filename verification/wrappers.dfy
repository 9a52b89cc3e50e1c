/** The optional-value datatype shared by the model ("None" in the source). */
module Wrappers {

  datatype Option<+T> = None | Some(value: T)
}

/** The one optional-value type the model needs: a value that is present or absent. */
module Wrappers {

  datatype Option<+T> = None | Some(value: T)
}

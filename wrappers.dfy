/** The optional values that the scripts' argument parser leaves as `None`. */
module Wrappers {

  datatype Option<+T> = None | Some(value: T)
}

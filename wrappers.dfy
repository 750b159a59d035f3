/** The conventional optional value, used for the partial inverse functions. */
module Wrappers {

  datatype Option<+T> = None | Some(value: T)
}

/** The optional value returned by the partial inverses of the register codec. */
module Wrappers {

  datatype Option<+T> = None | Some(value: T)
}

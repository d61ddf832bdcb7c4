/** The optional value used wherever cognition-synthesis returns a value or `None`. */
module Wrappers {

  datatype Option<+T> = None | Some(value: T)
}

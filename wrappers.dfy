/** The usual optional value, standing in for a null pointer or a missing match. */
module Wrappers {

  datatype Option<+T> = None | Some(value: T)

}

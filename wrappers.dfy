/** The optional value shared by the modules. */
module Wrappers {

  /** A value that may be absent. */
  datatype Option<T> = None | Some(value: T)
}

/** The optional value used wherever the Python code may raise or return nothing. */
module Wrappers {

  datatype Option<+T> = None | Some(value: T)
}

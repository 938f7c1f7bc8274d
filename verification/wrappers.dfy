/** The optional value used wherever the server's Java code uses null or an exception. */
module Wrappers {
  datatype Option<+T> = None | Some(value: T)
}

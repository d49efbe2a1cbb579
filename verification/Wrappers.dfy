/** A value that may be missing, used where the C sources use a null pointer or an error code. */
module Wrappers {
  datatype Option<+T> = None | Some(value: T)
}

/** The optional value used across the model: a field that may be absent,
    an attribute that may be missing, a server message that may be left out. */
module Wrappers {
  datatype Option<+T> = None | Some(value: T)
}

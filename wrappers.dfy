/** The optional value used where the Python code returns or holds `None`. */
module Wrappers {

  datatype Option<+T> = None | Some(value: T)
}

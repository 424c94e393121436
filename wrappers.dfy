/** The optional value used wherever the Python code returns or reads `None`. */
module Wrappers {

  datatype Option<+T> = None | Some(value: T)
}

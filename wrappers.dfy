/** The optional value used throughout the model for a dictionary lookup that
    may miss, or a library call that may raise. */
module Wrappers {

  datatype Option<+T> = None | Some(value: T)
}

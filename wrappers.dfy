/** The optional-value datatype used for state that may be absent:
    an unset environment variable, a file that does not exist. */
module Wrappers {

  datatype Option<+T> = None | Some(value: T)
}

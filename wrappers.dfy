/** The optional-value datatype used wherever the script can yield `undefined`. */
module Wrappers {
  datatype Option<+T> = None | Some(value: T)
}

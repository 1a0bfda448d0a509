/** The one failure-compatible datatype the model needs: a value that may be missing. */
module Wrappers {

  datatype Option<+T> = None | Some(value: T)
}

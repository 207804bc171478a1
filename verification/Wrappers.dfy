/** A value that may be absent. */
module Wrappers {
  datatype Option<X> = None | Some(value: X)
}

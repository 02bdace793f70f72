/** The optional value used for faults and parse results. */
module Wrappers {
  datatype Option<+T> = None | Some(value: T)
}

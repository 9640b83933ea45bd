/** The Some/None datatype that stands in for Python's `None` sentinel. */
module Wrappers {

  datatype Option<+T> = None | Some(value: T)
}

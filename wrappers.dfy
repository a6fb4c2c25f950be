/** The optional value the detector returns: Python's `None` or a value. */
module Wrappers {

  datatype Option<+T> = None | Some(value: T)
}

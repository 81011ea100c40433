/** The optional values the helper works with: Python's `None` or a present value. */
module Wrappers {

  datatype Option<+T> = None | Some(value: T)
}

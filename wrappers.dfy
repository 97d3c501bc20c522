/** Python's optional values: a present value, or `None`. */
module Wrappers {

  datatype Option<+T> = None | Some(value: T)
}

/** The optional value used wherever the source tests an attribute or a slot for `None`. */
module Wrappers {

  datatype Option<+T> = None | Some(value: T)
}

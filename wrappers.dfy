/** The optional value used wherever the source has `None` or an error return. */
module Wrappers {

  datatype Option<+T> = None | Some(value: T)
}

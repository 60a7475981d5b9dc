/** The optional value used for a pending heading that may be absent. */
module Wrappers {

  datatype Option<+T> = None | Some(value: T)
}

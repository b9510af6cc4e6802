/** The optional value used for JavaScript properties that may be absent or null. */
module Wrappers {

  datatype Option<+T> = None | Some(value: T)
}

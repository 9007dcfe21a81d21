/** The optional value used for the viewer's nullable fields. */
module Wrappers {

  datatype Option<+T> = None | Some(value: T)
}

/** The optional value used for the nullable fields of the page's state. */
module Wrappers {

  datatype Option<+T> = None | Some(value: T)
}

/** The optional value used for nullable fields and lookups that can fail. */
module Wrappers {

  datatype Option<+T> = None | Some(value: T)

}

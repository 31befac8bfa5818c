/** The optional value used for fields a document may lack and for lookups that may fail. */
module Wrappers {

  datatype Option<+T> = None | Some(value: T)

}

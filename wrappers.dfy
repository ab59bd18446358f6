/** The optional value used for "the source returned nothing / raised and was caught". */
module Wrappers {

  datatype Option<+T> = None | Some(value: T)
}

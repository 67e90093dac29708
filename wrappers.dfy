/** The optional value used wherever a Go function returns "found or not". */
module Wrappers {

  datatype Option<+T> = None | Some(value: T)
}

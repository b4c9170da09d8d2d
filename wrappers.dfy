/** The optional value used where the original returns `undefined` or `null`. */
module Wrappers {

  datatype Option<+T> = None | Some(value: T)
}

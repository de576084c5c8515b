/** The optional value used where the script works with `null`/`undefined`. */
module Wrappers {

  datatype Option<+T> = None | Some(value: T)
}

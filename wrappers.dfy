/** The optional value the pages use for `undefined` / `null`. */
module Wrappers {

  datatype Option<+T> = None | Some(value: T)
}

/** The optional value the screens use for `null`-able state and storage reads. */
module Wrappers {

  datatype Option<+T> = None | Some(value: T)
}

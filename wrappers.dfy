/** The optional value the scripts express with `None`. */
module Wrappers {

  datatype Option<+T> = None | Some(value: T)
}

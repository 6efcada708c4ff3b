/** The Some/None datatype used for inputs that may fail to parse. */
module Wrappers {

  datatype Option<+T> = None | Some(value: T)
}

/** Option, shared by the server and client modules. */
module Wrappers {

  datatype Option<+T> = None | Some(value: T)
}

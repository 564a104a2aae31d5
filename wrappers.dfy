/** The optional value returned where Python returns `None` or a value. */
module Wrappers {

  datatype Option<+T> = None | Some(value: T)
}

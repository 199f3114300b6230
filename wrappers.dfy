/** Option, used wherever the plugin works with a value that may be missing. */
module Wrappers {

  datatype Option<+T> = None | Some(value: T)
}

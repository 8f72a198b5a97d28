/** Option, used wherever the sources use null, undefined or a missing map entry. */
module Wrappers {
  datatype Option<+T> = None | Some(value: T)
}

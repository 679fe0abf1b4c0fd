/** The optional value used where the watcher's Python code uses `None`. */
module Wrappers {

  datatype Option<+T> = None | Some(value: T)
}

/** The optional value used wherever the plugin returns `None` or reads a
    field that may be absent. */
module Wrappers {

  datatype Option<+T> = None | Some(value: T)
}

/** The optional value used wherever the widget's code can come up empty. */
module Wrappers {
  datatype Option<+T> = None | Some(value: T)
}

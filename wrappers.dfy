/** The optional value returned by a dictionary lookup that may miss (Python's `dict.get`). */
module Wrappers {
  datatype Option<+T> = None | Some(value: T)
}

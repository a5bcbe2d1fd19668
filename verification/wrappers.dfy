/** The optional value used for a stored collection that may be absent and a
    draft that may not be loaded yet (JavaScript's `null`). */
module Wrappers {

  datatype Option<+T> = None | Some(value: T)
}

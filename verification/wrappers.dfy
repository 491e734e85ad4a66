/** A value that may be absent. Used for Python operations that can raise
    (an out-of-range subscript) and for optional request fields. */
module Wrappers {

  datatype Option<+T> = None | Some(value: T)
}

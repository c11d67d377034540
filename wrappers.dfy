/** The optional result the selection and the projection return. */
module Wrappers {

  /** `None` is the Python function falling off its end (or returning
      early) without a value; `Some(v)` is a returned value. */
  datatype Option<+T> = None | Some(value: T)
}

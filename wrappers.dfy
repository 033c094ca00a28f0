/** The optional value used wherever the source has `undefined`, a missing
    field or a call that throws. */
module Wrappers {

  datatype Option<+T> = None | Some(value: T)
}

/** The absent-or-present value used wherever the source leaves a field `None`. */
module Wrappers {

  datatype Option<+T> = None | Some(value: T)

}

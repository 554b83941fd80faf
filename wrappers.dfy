/** The absent-or-present value shared by the backend and the frontend model. */
module Wrappers {

  datatype Option<+T> = None | Some(value: T)
}

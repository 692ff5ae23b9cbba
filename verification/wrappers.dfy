/** The optional-value datatype used wherever the source has a nullable value
    or a lookup that can fail. */
module Wrappers {

  datatype Option<+T> = None | Some(value: T)
}

/** The optional-value wrapper used for absent or unreadable stored data and for blank URLs. */
module Wrappers {
  datatype Option<+T> = None | Some(value: T)
}

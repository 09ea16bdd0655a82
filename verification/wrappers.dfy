/** The optional value used by the parsers of this model. */
module Wrappers {

  /** `None` is a failed parse; `Some(v)` carries the parsed value. */
  datatype Option<+T> = None | Some(value: T)
}

/** Small failure-carrying datatypes shared by the other modules. */
module Wrappers {

  /** A value that may be absent: a failed lookup, a rejected decode. */
  datatype Option<+T> = None | Some(value: T)
}

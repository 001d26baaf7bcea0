/** Small shared value types: an optional value and the byte type of captured records. */
module Wrappers {

  /** A value that may be absent; Python's `None` becomes `None`. */
  datatype Option<+T> = None | Some(value: T)

  /** One octet of a captured record, as Python yields it when iterating over `bytes`. */
  newtype byte = b: int | 0 <= b < 256
}

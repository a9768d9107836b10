/** Small optional-value datatype shared by the ledger modules. */
module Wrappers {

  /** An argument that may be absent (Python's `None`) or a parse that may fail. */
  datatype Option<+T> = None | Some(value: T)
}

/** The optional value used wherever the ledger may find nothing. */
module Wrappers {
  datatype Option<+T> = None | Some(value: T)
}

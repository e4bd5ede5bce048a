/** The absent-or-present value the editor's `null` checks stand for. */
module Wrappers {
  datatype Option<+T> = None | Some(value: T)
}

/** The optional value used wherever a source operation may fail or a field may be absent. */
module Wrappers {
  datatype Option<+T> = None | Some(value: T)
}

/** The optional value used wherever the source keeps `null` for "not yet computed". */
module Wrappers {

  datatype Option<+T> = None | Some(value: T)
}

/** The optional value used wherever the userscript returns `null` or "not found". */
module Wrappers {

  datatype Option<+T> = None | Some(value: T)

}

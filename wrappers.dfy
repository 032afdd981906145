/** The optional value used where the Python code returns `None` or a dict lookup can miss. */
module Wrappers {

  datatype Option<+T> = None | Some(value: T)
}

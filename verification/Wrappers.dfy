/** The success-or-nothing datatype shared by every module: `None` stands for a thrown error
    or an `undefined` result, as each use says. */
module Wrappers {
  datatype Option<+T> = None | Some(value: T)
}

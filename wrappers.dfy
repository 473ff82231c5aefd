/** The optional-value datatype used for Python's `None`-or-value results
    and for operations that raise. */
module Wrappers {

  datatype Option<T> = None | Some(value: T)
}

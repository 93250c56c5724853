/** Optional values: the model's stand-in for Python's `None` results and
    for operations that can raise. */
module Wrappers {

  datatype Option<+T> = None | Some(value: T)
}

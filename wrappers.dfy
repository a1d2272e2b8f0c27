/** Optional values, used for the absent error of a validation, the absent
    transport error of an outcome and the flags a command line leaves unset. */
module Wrappers {

  datatype Option<+T> = None | Some(value: T)
}

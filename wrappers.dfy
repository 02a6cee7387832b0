/** The optional value used wherever the plugin reads `x.get(key, None)` or a
    request may fail. */
module Wrappers {

  datatype Option<+T> = None | Some(value: T)
}

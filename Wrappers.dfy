/** Small option type shared by the modules of the switch-synchroniser model. */
module Wrappers {

  datatype Option<T> = None | Some(value: T)
}

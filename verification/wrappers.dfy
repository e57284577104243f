/** Optional values: `None` stands for an absent value or, where a
    conversion can panic, for the panic. */
module Wrappers {

  datatype Option<+T> = None | Some(value: T)

}

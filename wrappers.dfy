/** Optional values. `None` stands for a pandas mean that is NaN because no row was selected. */
module Wrappers {

  datatype Option<+T> = None | Some(value: T)
}

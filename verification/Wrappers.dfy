/** Optional values, used where the program uses `Option`. */
module Wrappers {

  datatype Option<+T> = None | Some(value: T)

}

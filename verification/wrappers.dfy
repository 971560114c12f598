/** Optional values. Unity's null, missing and destroyed objects are all `None` in this model. */
module Wrappers {

  datatype Option<+T> = None | Some(value: T)

}

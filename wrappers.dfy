/** Optional values, used for the message an error response may carry. */
module Wrappers {

  datatype Option<+T> = None | Some(value: T)
}

/** Optional values, used for the detector's "no results" answer, a result without boxes,
    and the alert-image pixel (if any) that covers a frame pixel. */
module Wrappers {

  datatype Option<+T> = None | Some(value: T)
}

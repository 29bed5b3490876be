/** An optional value: the pose estimator's `poseLandmarks` field is either
    present (Some) or absent/null (None). */
module Wrappers {

  datatype Option<+T> = None | Some(value: T)
}

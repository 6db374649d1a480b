/** The one failure-carrying type the model needs: the sampler's `null` result. */
module Wrappers {
  datatype Option<+T> = None | Some(value: T)
}

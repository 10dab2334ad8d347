/** Optional values, for the "maybe a hit" and "maybe a scattered ray" results
    the scene and material capabilities return. */
module Wrappers {

  datatype Option<+T> = None | Some(value: T)
}

/** Optional values and fallible results, used for the optional stages of the
    compositing pipeline and for the errors those stages return. */
module Wrappers {

  datatype Option<+T> = None | Some(value: T)

  /** A stage either yields an image or fails with a description of what went wrong. */
  datatype Result<+T> = Ok(value: T) | Err(error: string)
}

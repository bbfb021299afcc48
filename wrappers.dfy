/** Optional values and success-or-exception results, standing for Java's
    nullable references and thrown exceptions. */
module Wrappers {

  /** `None` plays Java's `null`. */
  datatype Option<+T> = None | Some(value: T)

  /** `Failure(e)` plays "the call throws `e`". */
  datatype Result<+T, +E> = Success(value: T) | Failure(error: E)
}

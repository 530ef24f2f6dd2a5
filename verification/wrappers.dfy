/** Optional values and success/failure results, used where the Java code
    returns `null` or throws. */
module Wrappers {

  /** `None` stands for a Java `null`. */
  datatype Option<+T> = None | Some(value: T)

  /** `Failure` stands for a thrown exception. */
  datatype Result<+T, +E> = Success(value: T) | Failure(error: E)
}

/** Option, Result and Outcome: the model's stand-ins for Java's null and exceptions. */
module Wrappers {

  /** A value that Java may leave null. */
  datatype Option<+T> = None | Some(value: T) {
    /** `x != null ? x : default` */
    function GetOr(default: T): T {
      if Some? then value else default
    }
  }

  /** A value returned normally, or the exception that was thrown instead. */
  datatype Result<+R, +E> = Success(value: R) | Failure(error: E)

  /** A void method that either returns or throws. */
  datatype Outcome<+E> = Pass | Fail(error: E)
}

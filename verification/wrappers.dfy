/** Option type used for PHP's nullable values and `??` defaults. */
module Wrappers {

  /** `None` stands for PHP `null` (or `false` where the source uses it as "absent"). */
  datatype Option<+T> = None | Some(value: T) {

    /** The wrapped value, or `default` when absent (PHP `$x ?? $default`). */
    function GetOr(default: T): (r: T)
      ensures Some? ==> r == value
      ensures None? ==> r == default
    {
      match this
      case Some(v) => v
      case None => default
    }
  }
}

/** Small shared vocabulary: an optional value (a JavaScript field that may be
    `undefined`) and two arithmetic helpers used by several components. */
module Common {

  /** A value that may be absent. */
  datatype Option<+T> = None | Some(value: T) {

    /** The value, or `default` when absent (JavaScript's `x || default` on a
        field that is either missing or present). */
    function GetOr(default: T): T {
      match this
      case Some(v) => v
      case None => default
    }
  }

  function Min(a: int, b: int): int {
    if a <= b then a else b
  }

  /** `Math.abs` on a playback-time difference. */
  function Abs(x: real): real {
    if x < 0.0 then -x else x
  }
}

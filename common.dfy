/** Option and Result: the absent dictionary key and the exception that aborts a fetch. */
module Common {

  datatype Option<+T> = None | Some(value: T) {
    /** The value, or `default` when absent (Python's `dict.get(key, default)`). */
    function GetOr(default: T): T {
      match this
      case Some(v) => v
      case None => default
    }
  }

  datatype Result<+R, +E> = Success(value: R) | Failure(error: E)

  function Min(a: int, b: int): int {
    if a <= b then a else b
  }
}

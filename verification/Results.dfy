/** Values that may be absent, results that may be errors, and values with an index. */
module Results {

  datatype Option<+T> = None | Some(value: T) {
    function GetOr(default: T): T {
      match this
      case Some(v) => v
      case None => default
    }
  }

  datatype Result<+T, +E> = Success(value: T) | Failure(error: E)

  datatype Indexed<+T> = Indexed(value: T, index: int)
}

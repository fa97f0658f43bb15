/** Null-able values and error returns shared by every module of the model.
    Java's `null` and JavaScript's `null`/`undefined` become `None`; a thrown
    exception becomes `Err` carrying the kind of exception. */
module Base {

  datatype Option<+T> = None | Some(value: T) {
    function GetOr(default: T): T {
      match this
      case Some(v) => v
      case None => default
    }
  }

  datatype Result<+T, +E> = Ok(value: T) | Err(error: E)
}

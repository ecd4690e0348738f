/** Values shared by the front end and the back end models. */
module Common {

  /** A value that may be absent: JavaScript's `null`/`undefined`, Java's `null`. */
  datatype Option<+T> = None | Some(value: T) {
    function GetOr(default: T): T {
      match this
      case Some(v) => v
      case None => default
    }
  }

  /** What a REST handler answers: a body with status 200, or one of the empty statuses it uses. */
  datatype Response<+T> = Ok(body: T) | NoContent | NotFound | BadRequest
}

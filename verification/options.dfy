/** A value that may be absent: a missing query parameter, a JSON field
    left out of a request body, an ORM lookup that found nothing. */
module Options {

  datatype Option<+T> = None | Some(value: T) {

    /** The carried value, or `default` when absent. */
    function GetOr(default: T): T {
      match this
      case Some(v) => v
      case None => default
    }
  }
}

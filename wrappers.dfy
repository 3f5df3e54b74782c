/** Option values for the handler's "maybe" results: a content type that is
    not accepted, a step that fails, a JavaScript value that is null. */
module Wrappers {

  datatype Option<+T> = None | Some(value: T) {

    /** The carried value, or `default` when there is none. */
    function GetOr(default: T): T {
      match this
      case Some(v) => v
      case None => default
    }
  }
}

/** The optional values the controller meets: a `null` result set, an absent
    `data` field in a response, a radio group with nothing checked. */
module Wrappers {

  datatype Option<+T> = None | Some(value: T) {

    /** The wrapped value, or `default` when there is none. */
    function GetOr(default: T): T {
      match this
      case Some(v) => v
      case None => default
    }
  }
}

/** An optional value: Ruby's `nil`-or-something, and Hash#fetch with a default. */
module Wrappers {

  datatype Option<+T> = None | Some(value: T) {

    /** The carried value, or `default` when there is none (`fetch(key) { default }`). */
    function GetOr(default: T): T {
      match this
      case Some(v) => v
      case None => default
    }
  }
}

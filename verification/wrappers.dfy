/** Values that a message may or may not carry (a reply address, a
    correlation id, a property). */
module Wrappers {

  datatype Option<T> = None | Some(value: T) {

    /** The carried value, or `default` when there is none (the behaviour of
        a Python `dict.get` with a default). */
    function GetOr(default: T): T {
      if Some? then value else default
    }
  }
}

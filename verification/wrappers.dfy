/** Optional values for the model's nullable Java references. */
module Wrappers {

  /** A reference the deploy goal tests against null: the `muleVersion`
      parameter, a dependency's version, a property lookup, the deploy-call
      properties map. `None` is the null case. */
  datatype Option<+T> = None | Some(value: T) {

    /** The held value, or `fallback` for the null case. */
    function GetOr(fallback: T): T
    {
      if Some? then value else fallback
    }
  }
}

/** Optional values: `None` stands for JavaScript's `null` / `undefined`. */
module Wrappers {
  datatype Option<T> = None | Some(value: T)
  {
    /** `x ?? d`: the value when present, the default otherwise. */
    function GetOr(d: T): T
    {
      if Some? then value else d
    }

    /** `x ?? y` on two optional values. */
    function Or(other: Option<T>): Option<T>
    {
      if Some? then this else other
    }
  }
}

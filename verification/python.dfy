/** The Python values the scripts pass around: a value that may be `None`,
    a call that returns or raises, and a dictionary read with `dict.get`. */
module Py {

  /** A value that may be `None`. */
  datatype Option<+T> = None | Some(value: T) {

    /** `x or default`, for a value whose only falsy state is `None`. */
    function Or(default: T): T {
      if Some? then value else default
    }
  }

  /** A call that returned `value` or raised `error`. */
  datatype Outcome<+R, +E> = Returned(value: R) | Raised(error: E)

  /** An optional integer used as a limit is in force when it is truthy:
      given and not 0. */
  predicate Truthy(n: Option<int>) {
    n.Some? && n.value != 0
  }

  /** `dict.get(key)` on a dictionary whose null values are left out, so a null
      and a missing key read alike. */
  function Get<V>(m: map<string, V>, key: string): (r: Option<V>)
    ensures r.Some? <==> key in m
    ensures r.Some? ==> r.value == m[key]
  {
    if key in m then Some(m[key]) else None
  }
}

/** Optional values: the model of TypeScript's `?:` fields and `undefined`. */
module Wrappers {

  datatype Option<+T> = None | Some(value: T) {

    /** TypeScript's `x ?? d`: the field when it is set, `d` when it is not. */
    function GetOr(default: T): T {
      match this
      case Some(v) => v
      case None => default
    }
  }

  /** Lookup in a map that may miss: `entities[key]` read as possibly undefined. */
  function Get<K, V>(m: map<K, V>, k: K): (r: Option<V>)
    ensures r.Some? <==> k in m
    ensures r.Some? ==> r.value == m[k]
  {
    if k in m then Some(m[k]) else None
  }
}

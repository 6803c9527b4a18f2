/** Optional values: a missing cell, an absent dictionary key, a failed step. */
module Options {

  datatype Option<+T> = None | Some(value: T)

  /** Python's `dict.get`: the value under `k`, or `None` when `k` is absent. */
  function Get<K, V>(m: map<K, V>, k: K): (r: Option<V>)
    ensures r.Some? <==> k in m
    ensures r.Some? ==> r.value == m[k]
  {
    if k in m then Some(m[k]) else None
  }
}

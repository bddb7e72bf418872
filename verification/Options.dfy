/** The optional value used wherever a nullable column or a failed dictionary lookup is tested with `is None`. */
module Options {
  datatype Option<+T> = None | Some(value: T)

  /** A dictionary's `get`. */
  function Get<K, V>(m: map<K, V>, k: K): (o: Option<V>)
    ensures o.Some? <==> k in m
  {
    if k in m then Some(m[k]) else None
  }
}

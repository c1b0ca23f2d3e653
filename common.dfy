/** Small shared vocabulary: optional values and network addresses. */
module Common {

  /** Python's `None` or a present value. */
  datatype Option<T> = None | Some(value: T)

  /** A UDP endpoint, Python's `(host, port)` tuple. */
  datatype Addr = Addr(host: string, port: int)

  /** Python's `d.get(k, default)`. */
  function GetOr<K, V>(d: map<K, V>, k: K, default: V): V {
    if k in d then d[k] else default
  }
}

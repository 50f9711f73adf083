/** Values that may be absent, as `null` and `undefined` are in the modelled services. */
module Wrappers {
  datatype Option<+T> = None | Some(value: T) {
    function GetOr(default: T): T {
      match this
      case Some(v) => v
      case None => default
    }
  }

  /** The row stored under `k`, if any: what a repository's `findOne` answers. */
  function Find<K, V>(table: map<K, V>, k: K): Option<V> {
    if k in table then Some(table[k]) else None
  }

  /** The table after row `k` was saved (`Some`) or deleted (`None`). */
  function Store<K, V>(table: map<K, V>, k: K, row: Option<V>): map<K, V> {
    match row
    case Some(v) => table[k := v]
    case None => table - {k}
  }

  lemma FindAfterStore<K, V>(table: map<K, V>, k: K, row: Option<V>, other: K)
    ensures Find(Store(table, k, row), other) == if other == k then row else Find(table, other)
  {
  }

  lemma StoreUnchanged<K, V>(table: map<K, V>, k: K)
    ensures Store(table, k, Find(table, k)) == table
  {
  }
}

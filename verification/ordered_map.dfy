/**
 An insertion-ordered finite map, the behaviour of a Python `dict`: lookups go
 through `entries`, iteration follows `keys`, and a key keeps the position of
 its first insertion when its value is later replaced.
 */
module OrderedMap {

  datatype OMap<K, V> = OMap(keys: seq<K>, entries: map<K, V>)

  /** Keys are listed once each, and exactly the mapped keys are listed. */
  ghost predicate Valid<K(!new), V>(m: OMap<K, V>) {
    && (forall i, j :: 0 <= i < j < |m.keys| ==> m.keys[i] != m.keys[j])
    && (forall k :: k in m.entries <==> k in m.keys)
  }

  function Empty<K(!new), V>(): (m: OMap<K, V>)
    ensures Valid(m)
    ensures m.entries == map[]
  {
    OMap([], map[])
  }

  /**
   Binds `k` to `v`. A key already present keeps its position; a new key goes
   last; the order of the other keys is untouched.
   */
  function Put<K(!new), V>(m: OMap<K, V>, k: K, v: V): (r: OMap<K, V>)
    ensures Valid(m) ==> Valid(r)
    ensures r.entries == m.entries[k := v]
    ensures m.keys <= r.keys
    ensures |r.keys| == if k in m.entries then |m.keys| else |m.keys| + 1
  {
    if k in m.entries then OMap(m.keys, m.entries[k := v])
    else OMap(m.keys + [k], m.entries[k := v])
  }
}

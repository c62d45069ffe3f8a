/** `util.GetOrDefault`: a map lookup that falls back to a given value. */
module MapUtil {

  function GetOrDefault<K, V>(m: map<K, V>, key: K, defaultValue: V): (r: V)
    ensures key in m ==> r == m[key]
    ensures key !in m ==> r == defaultValue
  {
    if key in m then m[key] else defaultValue
  }

  /** Go's plain index expression `m[key]`, which yields the value type's zero
      value for a missing key. */
  function Index<K, V>(m: map<K, V>, key: K, zero: V): V {
    if key in m then m[key] else zero
  }

  /** With the zero value as default, `GetOrDefault` is the plain lookup; and
      a present key ignores the default altogether. */
  lemma GetOrDefaultIsIndex<K, V>(m: map<K, V>, key: K, zero: V, other: V)
    ensures GetOrDefault(m, key, zero) == Index(m, key, zero)
    ensures key in m ==> GetOrDefault(m, key, other) == GetOrDefault(m, key, zero)
  {
  }
}

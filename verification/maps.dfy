/** Algebraic facts about map union (the right operand wins on shared keys). */
module Maps {

  lemma UnionAssoc<K, V>(a: map<K, V>, b: map<K, V>, c: map<K, V>)
    ensures a + b + c == a + (b + c)
  {
  }

  lemma UpdateIsUnion<K, V>(m: map<K, V>, k: K, v: V, r: map<K, V>)
    ensures m[k := v] + r == m + (map[k := v] + r)
  {
  }

  lemma UnionEmpty<K, V>(m: map<K, V>)
    ensures m + map[] == m && map[] + m == m
  {
  }
}

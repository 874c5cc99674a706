/**
 * A JavaScript `Map`: a finite map that iterates its entries in insertion
 * order. `keys` is the iteration order, `table` the entries.
 */
module OrderedMaps {
  import opened Wrappers
  import opened Sequences

  datatype OrderedMap<K(==), V> = OrderedMap(keys: seq<K>, table: map<K, V>) {

    /** Every key occurs once in the order, and the order lists exactly the stored keys. */
    predicate Valid() {
      && NoDuplicates(keys)
      && (forall k | k in table :: k in keys)
      && (forall k | k in keys :: k in table)
    }

    /** `new Map()`. */
    static function Empty(): (m: OrderedMap<K, V>)
      ensures m.Valid() && m.table == map[] && m.keys == []
    {
      OrderedMap([], map[])
    }

    /** `m.get(k)`: the entry under `k`, `None` in place of `undefined`. */
    function Get(k: K): (r: Option<V>)
      ensures r.Some? <==> k in table
      ensures r.Some? ==> r.value == table[k]
    {
      if k in table then Some(table[k]) else None
    }

    /**
     * `m.set(k, v)`: a new key goes to the end of the order; an existing key
     * keeps its place and has its entry replaced.
     */
    function Set(k: K, v: V): (m: OrderedMap<K, V>)
      requires Valid()
      ensures m.Valid()
      ensures m.table == table[k := v]
      ensures m.keys == if k in table then keys else keys + [k]
    {
      if k in table then OrderedMap(keys, table[k := v])
      else
        AppendFresh(keys, k);
        OrderedMap(keys + [k], table[k := v])
    }

    /** `m.delete(k)`: the entry goes, the other keys keep their relative order. */
    function Delete(k: K): (m: OrderedMap<K, V>)
      requires Valid()
      ensures m.Valid()
      ensures m.table == table - {k}
      ensures k in table ==> m.keys == RemoveAt(keys, IndexOf(keys, k))
      ensures k !in table ==> m == this
    {
      if k in table then
        var i := IndexOf(keys, k);
        RemoveAtWithoutDuplicates(keys, i);
        OrderedMap(RemoveAt(keys, i), table - {k})
      else this
    }

    /** `Array.from(m.values())`: the entries in iteration order. */
    function Values(): (vs: seq<V>)
      requires Valid()
      ensures |vs| == |keys|
      ensures forall i :: 0 <= i < |keys| ==> vs[i] == table[keys[i]]
    {
      seq(|keys|, i requires 0 <= i < |keys| => table[keys[i]])
    }
  }

  /** Replacing an entry and then deleting its key is the same as deleting the key. */
  lemma SetThenDelete<K, V>(m: OrderedMap<K, V>, k: K, v: V)
    requires m.Valid() && k in m.table
    ensures m.Set(k, v).Delete(k) == m.Delete(k)
  {
    assert m.table[k := v] - {k} == m.table - {k};
  }

  /** Putting back the entry a key had before undoes a `set` of that key. */
  lemma SetRestores<K, V>(m: OrderedMap<K, V>, k: K, v: V)
    requires m.Valid() && k in m.table
    ensures m.Set(k, v).Set(k, m.table[k]) == m
  {
    assert m.table[k := v][k := m.table[k]] == m.table;
  }

  /**
   * The values after `set`: a new key appends its entry to the end, an
   * existing key has its entry replaced in place.
   */
  lemma ValuesAfterSet<K, V>(m: OrderedMap<K, V>, k: K, v: V)
    requires m.Valid()
    ensures k !in m.table ==> m.Set(k, v).Values() == m.Values() + [v]
    ensures k in m.table ==> m.Set(k, v).Values() == m.Values()[IndexOf(m.keys, k) := v]
  {
    var i := IndexOf(m.keys, k);
    if k in m.table {
      forall j | 0 <= j < |m.keys| ensures m.Set(k, v).Values()[j] == m.Values()[i := v][j] {
        if j != i {
          assert m.keys[j] != k;
        }
      }
    }
  }

  /** The values after `delete`: the deleted key's entry drops out, the rest keep their order. */
  lemma ValuesAfterDelete<K, V>(m: OrderedMap<K, V>, k: K)
    requires m.Valid() && k in m.table
    ensures m.Delete(k).Values() == RemoveAt(m.Values(), IndexOf(m.keys, k))
  {
    var i := IndexOf(m.keys, k);
    var u := m.Delete(k);
    var lhs, rhs := u.Values(), RemoveAt(m.Values(), i);
    forall j | 0 <= j < |lhs| ensures lhs[j] == rhs[j] {
      if j < i { assert u.keys[j] == m.keys[j]; } else { assert u.keys[j] == m.keys[j + 1]; }
    }
  }
}

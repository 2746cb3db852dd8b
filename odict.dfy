/**
 * Python's `collections.OrderedDict` as a value: the keys in insertion
 * order plus the key-to-value map.  Assigning to an existing key replaces
 * its value and keeps its position; a new key goes to the end.
 */
module OrderedDicts {
  import opened Seqs

  datatype ODict<K(!new), V> = ODict(keys: seq<K>, items: map<K, V>)
  {
    /** Every key is listed exactly once, and only keys are listed. */
    ghost predicate Valid()
    {
      NoDups(keys) && forall k :: k in items <==> k in keys
    }

    /** `d[k] = v`. */
    function Put(k: K, v: V): (r: ODict<K, V>)
      ensures Valid() ==> r.Valid()
      ensures r.items == items[k := v]
      ensures k in items ==> r.keys == keys
      ensures k !in items ==> r.keys == keys + [k]
    {
      if k in items then ODict(keys, items[k := v]) else ODict(keys + [k], items[k := v])
    }
  }

  /** `OrderedDict()`. */
  function Empty<K(!new), V>(): (r: ODict<K, V>)
    ensures r.Valid() && r.keys == [] && r.items == map[]
  {
    ODict([], map[])
  }
}

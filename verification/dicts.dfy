/**
 Python dictionaries remember insertion order, and several registries of the shell
 (bound variables, commands, literal prefixes) are iterated in that order.  A `Dict`
 is a map together with the order in which its keys were first inserted.
 */
module Dicts {

  datatype Dict<K(!new), V> = Dict(keys: seq<K>, entries: map<K, V>)
  {
    /** Keys are distinct and are exactly the keys of the map. */
    ghost predicate Valid()
    {
      && (forall i, j :: 0 <= i < j < |keys| ==> keys[i] != keys[j])
      && (forall k :: k in entries <==> k in keys)
    }

    predicate Has(k: K)
    {
      k in entries
    }

    /**
     `d[k] = v`: an existing key keeps its position and gets the new value, a new key
     goes to the end.
     */
    function Put(k: K, v: V): (d: Dict<K, V>)
      ensures Valid() ==> d.Valid()
      ensures d.Has(k) && d.entries[k] == v
      ensures forall k' :: k' != k ==> (d.Has(k') <==> Has(k')) && (Has(k') ==> d.entries[k'] == entries[k'])
      ensures Has(k) ==> d.keys == keys
      ensures !Has(k) ==> d.keys == keys + [k]
    {
      if k in entries then Dict(keys, entries[k := v])
      else Dict(keys + [k], entries[k := v])
    }
  }

  function Empty<K(!new), V>(): (d: Dict<K, V>)
    ensures d.Valid() && |d.keys| == 0
  {
    Dict([], map[])
  }
}

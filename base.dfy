/** Small value types shared by the model: an option type standing for a
    Python lookup that may raise, and an insertion-ordered dictionary
    standing for Python's `dict`, whose iteration order is the order in
    which keys were first inserted. */
module Base {

  datatype Option<+T> = None | Some(value: T)

  /** A dictionary keyed by strings that remembers insertion order.
      `keys` is the iteration order, `values` the contents. */
  datatype OrderedMap<V> = OrderedMap(keys: seq<string>, values: map<string, V>) {

    /** Every key is listed exactly once, and only present keys are listed. */
    ghost predicate Valid() {
      && (forall i, j :: 0 <= i < j < |keys| ==> keys[i] != keys[j])
      && (forall k :: k in values <==> k in keys)
    }

    /** `d[k] = v`: an existing key keeps its place, a new key goes last. */
    function Put(k: string, v: V): (r: OrderedMap<V>)
      ensures Valid() ==> r.Valid()
      ensures r.values == values[k := v]
      ensures k in values ==> r.keys == keys
      ensures k !in values ==> r.keys == keys + [k]
    {
      if k in values then OrderedMap(keys, values[k := v])
      else OrderedMap(keys + [k], values[k := v])
    }

    /** The values in iteration order. */
    function Items(): (items: seq<V>)
      requires Valid()
      ensures |items| == |keys|
      ensures forall i :: 0 <= i < |keys| ==> items[i] == values[keys[i]]
    {
      seq(|keys|, i requires 0 <= i < |keys| => values[keys[i]])
    }
  }

  function EmptyMap<V>(): (d: OrderedMap<V>)
    ensures d.Valid() && d.keys == [] && d.values == map[]
  {
    OrderedMap([], map[])
  }
}

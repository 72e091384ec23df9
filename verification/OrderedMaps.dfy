/** Insertion-ordered maps: the platform's `Map` with text keys. */
module OrderedMaps {
  import opened Prelude

  datatype OrderedMap<V> = OrderedMap(keys: seq<string>, vals: map<string, V>)
  {
    ghost predicate Valid() {
      && (forall k :: k in keys <==> k in vals)
      && Distinct(keys)
    }

    /** `map.set(k, v)`: an existing key keeps its place. */
    function Put(k: string, v: V): OrderedMap<V> {
      OrderedMap(if k in vals then keys else keys + [k], vals[k := v])
    }

    /** `map.delete(k)`. */
    function Without(k: string): OrderedMap<V> {
      OrderedMap(Others(keys, k), vals - {k})
    }

    /** `Array.from(map.values())`. */
    function Values(): (r: seq<V>)
      requires forall k :: k in keys ==> k in vals
      ensures |r| == |keys|
    {
      seq(|keys|, i requires 0 <= i < |keys| => vals[keys[i]])
    }

    predicate Has(k: string) {
      k in vals
    }

    lemma {:induction false} PutValid(k: string, v: V)
      requires Valid()
      ensures Put(k, v).Valid()
    {
    }
  }

  /** The keys other than `k`, in order. */
  function Others(keys: seq<string>, k: string): seq<string> {
    if keys == [] then [] else (if keys[0] == k then [] else [keys[0]]) + Others(keys[1..], k)
  }

  lemma {:induction false} OthersMembers(keys: seq<string>, k: string)
    ensures forall x :: x in Others(keys, k) <==> x in keys && x != k
  {
    if keys != [] {
      OthersMembers(keys[1..], k);
      assert keys == [keys[0]] + keys[1..];
    }
  }

  lemma {:induction false} OthersDistinct(keys: seq<string>, k: string)
    requires Distinct(keys)
    ensures Distinct(Others(keys, k))
  {
    if keys != [] {
      OthersDistinct(keys[1..], k);
      OthersMembers(keys[1..], k);
      assert keys[0] !in keys[1..];
    }
  }

  lemma {:induction false} WithoutValid<V>(m: OrderedMap<V>, k: string)
    requires m.Valid()
    ensures m.Without(k).Valid()
  {
    OthersMembers(m.keys, k);
    OthersDistinct(m.keys, k);
  }

  function Empty<V>(): OrderedMap<V> {
    OrderedMap([], map[])
  }
}

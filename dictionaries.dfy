/**
 * A `Dictionary<int, int>` that is only ever added to, as the overlay code
 * uses it: the keys in insertion order (which is the order a .NET dictionary
 * without removals enumerates them in) and the key-to-value map.
 */
module Dictionaries {
  import opened Outcomes

  datatype Dict = Dict(keys: seq<int>, values: map<int, int>) {

    /** Keys are distinct and are exactly the keys of the value map. */
    ghost predicate Valid() {
      && (forall i, j :: 0 <= i < j < |keys| ==> keys[i] != keys[j])
      && (forall i :: 0 <= i < |keys| ==> keys[i] in values)
      && (forall k :: k in values ==> k in keys)
    }

    predicate ContainsKey(k: int) {
      k in values
    }

    /** Dictionary.Add: fails on a key that is already present, else appends the key. */
    function Add(k: int, v: int): (r: Result<Dict>)
      ensures r.Ok? <==> k !in values
      ensures r.Ok? ==> r.value.keys == keys + [k] && r.value.values == values[k := v]
      ensures r.Ok? && Valid() ==> r.value.Valid()
    {
      if k in values then Err(DuplicateKey) else Ok(Dict(keys + [k], values[k := v]))
    }

    /** A valid dictionary's Count (the length of its key sequence) is the number of its keys. */
    lemma {:induction false} CountIsKeys()
      requires Valid()
      ensures |keys| == |values.Keys|
      decreases |keys|
    {
      if keys != [] {
        var last := keys[|keys| - 1];
        var rest := Dict(keys[..|keys| - 1], values - {last});
        forall k | k in rest.values ensures k in rest.keys {
          var i :| 0 <= i < |keys| && keys[i] == k;
          assert i != |keys| - 1;
          assert rest.keys[i] == k;
        }
        rest.CountIsKeys();
        assert values.Keys == rest.values.Keys + {last};
      } else {
        forall k ensures k !in values.Keys {}
        assert values.Keys == {};
      }
    }

    /** The Dictionary indexer: fails on a missing key. */
    function Get(k: int): (r: Result<int>)
      ensures r.Ok? <==> k in values
      ensures r.Ok? ==> r.value == values[k]
      ensures r.Err? ==> r.error == KeyNotFound
    {
      if k in values then Ok(values[k]) else Err(KeyNotFound)
    }
  }

  /** No key occurs twice among the pairs. */
  ghost predicate DistinctKeys(es: seq<(int, int)>) {
    forall i, j :: 0 <= i < j < |es| ==> es[i].0 != es[j].0
  }

  /** A freshly constructed, empty dictionary. */
  const Empty: Dict := Dict([], map[])
}

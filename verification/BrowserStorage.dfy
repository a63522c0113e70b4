/** The key/value storage of a browser session: an ordered list of keys, indexed from 0, and a value for each. */
module BrowserStorage {
  import opened Common

  function Drop(keys: seq<string>, key: string): seq<string> {
    Filter((k: string) => k != key, keys)
  }

  class SessionStorage<V> {
    var keys: seq<string>
    var values: map<string, V>

    ghost predicate Valid()
      reads this
    {
      Distinct(keys) && forall k :: k in keys <==> k in values
    }

    constructor ()
      ensures Valid() && values == map[] && keys == []
    {
      keys, values := [], map[];
    }

    function GetItem(key: string): Option<V>
      reads this
    {
      if key in values then Some(values[key]) else None
    }

    /** `key(index)`: null outside the range. */
    function Key(index: int): Option<string>
      reads this
    {
      if 0 <= index < |keys| then Some(keys[index]) else None
    }

    method SetItem(key: string, value: V)
      requires Valid()
      modifies this
      ensures Valid()
      ensures values == old(values)[key := value]
      ensures keys == if key in old(values) then old(keys) else old(keys) + [key]
    {
      if key !in values {
        keys := keys + [key];
      }
      values := values[key := value];
    }

    /** The keys after the removed one move down by one. */
    method RemoveItem(key: string)
      requires Valid()
      modifies this
      ensures Valid()
      ensures values == old(values) - {key}
      ensures keys == Drop(old(keys), key)
    {
      keys := Drop(keys, key);
      values := values - {key};
      DropKeepsOthers(old(keys), key);
    }
  }

  lemma {:induction false} DropKeepsOthers(keys: seq<string>, key: string)
    requires Distinct(keys)
    ensures Distinct(Drop(keys, key))
    ensures forall k :: k in Drop(keys, key) <==> k in keys && k != key
  {
    FilterDistinct((k: string) => k != key, keys);
    forall k
      ensures k in Drop(keys, key) <==> k in keys && k != key
    {
      FilterMembers((j: string) => j != key, keys, k);
    }
  }

  lemma {:induction false} DropAbsent(keys: seq<string>, key: string)
    requires key !in keys
    ensures Drop(keys, key) == keys
  {
    FilterAll((k: string) => k != key, keys);
  }

  /** Removing the key at a place joins what stood before and after it. */
  lemma {:induction false} DropAt(keys: seq<string>, i: nat)
    requires Distinct(keys) && i < |keys|
    ensures Drop(keys, keys[i]) == keys[..i] + keys[i + 1..]
  {
    var p := (k: string) => k != keys[i];
    assert keys == keys[..i] + ([keys[i]] + keys[i + 1..]);
    FilterAppend(p, keys[..i], [keys[i]] + keys[i + 1..]);
    FilterCons(p, keys[i], keys[i + 1..]);
    DropAbsent(keys[..i], keys[i]);
    DropAbsent(keys[i + 1..], keys[i]);
  }
}

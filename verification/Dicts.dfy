/** Python's dict as the sequence of its entries, in insertion order. */
module Dicts {
  import opened Wrappers

  type Dict<V> = seq<(string, V)>

  /** `dict.get(key)` */
  function Lookup<V>(dict: Dict<V>, key: string): Option<V> {
    if dict == [] then None
    else if dict[0].0 == key then Some(dict[0].1)
    else Lookup(dict[1..], key)
  }

  /** `dict[key] = value`: in place if the key is there, at the end if not. */
  function Put<V>(dict: Dict<V>, key: string, value: V): Dict<V> {
    if dict == [] then [(key, value)]
    else if dict[0].0 == key then [(key, value)] + dict[1..]
    else [dict[0]] + Put(dict[1..], key, value)
  }

  /** Every key occurs once, as in any dict. */
  ghost predicate UniqueKeys<V>(dict: Dict<V>) {
    forall i, j :: 0 <= i < j < |dict| ==> dict[i].0 != dict[j].0
  }

  lemma {:induction false} LookupPut<V>(dict: Dict<V>, key: string, value: V, other: string)
    ensures Lookup(Put(dict, key, value), other) == if other == key then Some(value) else Lookup(dict, other)
  {
    if dict != [] && dict[0].0 != key {
      LookupPut(dict[1..], key, value, other);
      assert Put(dict, key, value)[1..] == Put(dict[1..], key, value);
    } else if dict != [] {
      assert Put(dict, key, value)[1..] == dict[1..];
    }
  }

  lemma {:induction false} PutPut<V>(dict: Dict<V>, key: string, value: V, value': V)
    ensures Put(Put(dict, key, value), key, value') == Put(dict, key, value')
  {
    if dict != [] && dict[0].0 != key {
      PutPut(dict[1..], key, value, value');
      assert Put(dict, key, value)[1..] == Put(dict[1..], key, value);
    } else if dict != [] {
      assert Put(dict, key, value)[1..] == dict[1..];
    }
  }

  lemma {:induction false} LookupFindsEntry<V>(dict: Dict<V>, key: string)
    ensures Lookup(dict, key).Some? ==> (key, Lookup(dict, key).value) in dict
    ensures Lookup(dict, key).None? <==> forall e :: e in dict ==> e.0 != key
  {
    if dict != [] {
      LookupFindsEntry(dict[1..], key);
      assert forall e :: e in dict <==> e == dict[0] || e in dict[1..];
    }
  }

  lemma {:induction false} UniqueLookup<V>(dict: Dict<V>, key: string, value: V)
    requires UniqueKeys(dict) && (key, value) in dict
    ensures Lookup(dict, key) == Some(value)
  {
    if dict[0] != (key, value) {
      UniqueLookup(dict[1..], key, value);
      var i :| 0 <= i < |dict| && dict[i] == (key, value);
    }
  }

  lemma {:induction false} PutKeys<V>(dict: Dict<V>, key: string, value: V)
    ensures |Put(dict, key, value)| >= |dict|
    ensures forall i :: 0 <= i < |dict| ==> Put(dict, key, value)[i].0 == dict[i].0
    ensures if Lookup(dict, key).Some? then |Put(dict, key, value)| == |dict|
            else Put(dict, key, value) == dict + [(key, value)]
  {
    if dict != [] && dict[0].0 != key {
      PutKeys(dict[1..], key, value);
    }
  }

  lemma {:induction false} PutKeepsUnique<V>(dict: Dict<V>, key: string, value: V)
    requires UniqueKeys(dict)
    ensures UniqueKeys(Put(dict, key, value))
  {
    PutKeys(dict, key, value);
    LookupFindsEntry(dict, key);
    var r := Put(dict, key, value);
    hide Put, Lookup;
    forall i, j | 0 <= i < j < |r| ensures r[i].0 != r[j].0 {
      if j == |dict| {
        assert dict[i] in dict;
      }
    }
  }

  lemma {:induction false} PutSame<V>(dict: Dict<V>, key: string)
    requires Lookup(dict, key).Some?
    ensures Put(dict, key, Lookup(dict, key).value) == dict
  {
    if dict[0].0 == key {
      assert dict == [dict[0]] + dict[1..];
    } else {
      PutSame(dict[1..], key);
    }
  }

  lemma {:induction false} PutEntries<V>(dict: Dict<V>, key: string, value: V, e: (string, V))
    requires e in Put(dict, key, value)
    ensures e == (key, value) || e in dict
  {
    if dict != [] && dict[0].0 != key && e != dict[0] {
      assert Put(dict, key, value)[1..] == Put(dict[1..], key, value);
      PutEntries(dict[1..], key, value, e);
    }
  }

  /** Put, position by position. */
  lemma {:induction false} PutIndex<V>(dict: Dict<V>, key: string, value: V)
    requires UniqueKeys(dict)
    ensures var r := Put(dict, key, value);
            && (forall i :: 0 <= i < |dict| ==> i < |r| && r[i] == if dict[i].0 == key then (key, value) else dict[i])
            && (if Lookup(dict, key).Some? then |r| == |dict| else |r| == |dict| + 1 && r[|dict|] == (key, value))
  {
    if dict != [] && dict[0].0 != key {
      PutIndex(dict[1..], key, value);
      assert Put(dict, key, value)[1..] == Put(dict[1..], key, value);
      assert forall i :: 1 <= i < |dict| ==> dict[i] == dict[1..][i - 1];
    }
  }
}

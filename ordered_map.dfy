/** A JavaScript object used as a dictionary: string keys in the order they
    were first assigned, each with one value. */
module OrderedMap {
  import opened Wrappers

  type Entries<V> = seq<(string, V)>

  /** `obj[key] = value`: an existing key keeps its place and takes the new
      value, a new key is added at the end. */
  function Put<V>(obj: Entries<V>, key: string, value: V): (r: Entries<V>)
    ensures |r| == |obj| || |r| == |obj| + 1
  {
    if obj == [] then [(key, value)]
    else if obj[0].0 == key then [(key, value)] + obj[1..]
    else [obj[0]] + Put(obj[1..], key, value)
  }

  /** `obj[key]`, None when the key is absent. */
  function Get<V>(obj: Entries<V>, key: string): Option<V>
  {
    if obj == [] then None
    else if obj[0].0 == key then Some(obj[0].1)
    else Get(obj[1..], key)
  }

  predicate HasKey<V>(obj: Entries<V>, key: string)
  {
    exists i :: 0 <= i < |obj| && obj[i].0 == key
  }

  predicate DistinctKeys<V>(obj: Entries<V>)
  {
    forall i, j :: 0 <= i < j < |obj| ==> obj[i].0 != obj[j].0
  }

  /** Assigning a key makes it map to the new value, leaves every other key
      as it was, keeps the keys distinct, and adds no entry other than the
      assigned one. */
  lemma {:induction false} PutFacts<V>(obj: Entries<V>, key: string, value: V, other: string)
    requires DistinctKeys(obj)
    ensures DistinctKeys(Put(obj, key, value))
    ensures Get(Put(obj, key, value), key) == Some(value)
    ensures other != key ==> Get(Put(obj, key, value), other) == Get(obj, other)
    ensures forall i :: 0 <= i < |Put(obj, key, value)| ==>
      Put(obj, key, value)[i].0 == key || exists j :: 0 <= j < |obj| && obj[j] == Put(obj, key, value)[i]
  {
    if obj != [] && obj[0].0 != key {
      PutFacts(obj[1..], key, value, other);
      var r := Put(obj, key, value);
      var rest := Put(obj[1..], key, value);
      assert r == [obj[0]] + rest;
      forall i, j | 0 <= i < j < |r| ensures r[i].0 != r[j].0 {
        if i == 0 && r[j].0 != key {
          var k :| 0 <= k < |obj[1..]| && obj[1..][k] == rest[j - 1];
          assert obj[k + 1] == r[j];
        }
      }
      forall i | 0 <= i < |r| && r[i].0 != key
        ensures exists j :: 0 <= j < |obj| && obj[j] == r[i]
      {
        if i == 0 {
          assert obj[0] == r[0];
        } else {
          var k :| 0 <= k < |obj[1..]| && obj[1..][k] == rest[i - 1];
          assert obj[k + 1] == r[i];
        }
      }
    } else if obj != [] {
      var r := Put(obj, key, value);
      forall i | 0 <= i < |r| && r[i].0 != key
        ensures exists j :: 0 <= j < |obj| && obj[j] == r[i]
      {
        assert obj[i] == r[i];
      }
      if other != key {
        assert Get(r, other) == Get(obj[1..], other);
      }
    }
  }

  /** A key is present exactly when looking it up finds a value. */
  lemma {:induction false} GetHasKey<V>(obj: Entries<V>, key: string)
    ensures Get(obj, key).Some? <==> HasKey(obj, key)
  {
    if obj != [] {
      GetHasKey(obj[1..], key);
      if HasKey(obj, key) && obj[0].0 != key {
        var i :| 0 <= i < |obj| && obj[i].0 == key;
        assert obj[1..][i - 1].0 == key;
      }
      if HasKey(obj[1..], key) {
        var i :| 0 <= i < |obj[1..]| && obj[1..][i].0 == key;
        assert obj[i + 1].0 == key;
      }
    }
  }

  /** In an object with distinct keys, looking up the key of entry `i`
      finds entry `i`'s value. */
  lemma {:induction false} GetEntry<V>(obj: Entries<V>, i: int)
    requires DistinctKeys(obj) && 0 <= i < |obj|
    ensures Get(obj, obj[i].0) == Some(obj[i].1)
  {
    if i > 0 {
      assert obj[0].0 != obj[i].0;
      GetEntry(obj[1..], i - 1);
    }
  }

  /** After an assignment the keys are the old keys and the assigned one. */
  lemma {:induction false} PutHasKey<V>(obj: Entries<V>, key: string, value: V, other: string)
    ensures HasKey(Put(obj, key, value), other) <==> other == key || HasKey(obj, other)
  {
    GetHasKey(Put(obj, key, value), other);
    GetHasKey(obj, other);
    GetPut(obj, key, value, other);
  }

  /** Looking up after an assignment, without assuming distinct keys. */
  lemma {:induction false} GetPut<V>(obj: Entries<V>, key: string, value: V, other: string)
    ensures Get(Put(obj, key, value), other) == if other == key then Some(value) else Get(obj, other)
  {
    if obj != [] && obj[0].0 != key {
      GetPut(obj[1..], key, value, other);
    }
  }

  /** Every entry after an assignment is the assigned one or an old one. */
  lemma {:induction false} PutEntries<V>(obj: Entries<V>, key: string, value: V)
    ensures forall x :: x in Put(obj, key, value) ==> x == (key, value) || x in obj
  {
    if obj != [] && obj[0].0 != key {
      PutEntries(obj[1..], key, value);
    }
  }
}

/** A Python dictionary: unique keys, kept in the order of their first insertion. */
module Dict {
  import opened Common

  datatype Entry<V> = Entry(key: string, value: V)

  predicate HasKey<V>(d: seq<Entry<V>>, key: string) {
    exists i :: 0 <= i < |d| && d[i].key == key
  }

  predicate UniqueKeys<V>(d: seq<Entry<V>>) {
    forall i, j :: 0 <= i < j < |d| ==> d[i].key != d[j].key
  }

  /** `d.get(key)` */
  function Find<V>(d: seq<Entry<V>>, key: string): Option<V> {
    if d == [] then None
    else if d[0].key == key then Some(d[0].value)
    else Find(d[1..], key)
  }

  /** `d[key] = value`: an existing key keeps its place. */
  function Store<V>(d: seq<Entry<V>>, key: string, value: V): seq<Entry<V>> {
    if d == [] then [Entry(key, value)]
    else if d[0].key == key then [Entry(key, value)] + d[1..]
    else [d[0]] + Store(d[1..], key, value)
  }

  /** `d.pop(key, None)` */
  function Drop<V>(d: seq<Entry<V>>, key: string): seq<Entry<V>> {
    if d == [] then []
    else if d[0].key == key then d[1..]
    else [d[0]] + Drop(d[1..], key)
  }

  lemma {:induction false} FindIsHasKey<V>(d: seq<Entry<V>>, key: string)
    ensures Find(d, key) == None <==> !HasKey(d, key)
  {
    if d != [] {
      FindIsHasKey(d[1..], key);
      if HasKey(d[1..], key) {
        var i :| 0 <= i < |d[1..]| && d[1..][i].key == key;
        assert d[i + 1].key == key;
      }
      if d[0].key != key && HasKey(d, key) {
        var i :| 0 <= i < |d| && d[i].key == key;
        assert d[1..][i - 1].key == key;
      }
    }
  }

  lemma {:induction false} FindAt<V>(d: seq<Entry<V>>, i: nat)
    requires UniqueKeys(d) && i < |d|
    ensures Find(d, d[i].key) == Some(d[i].value)
  {
    if i > 0 {
      FindAt(d[1..], i - 1);
    }
  }

  lemma {:induction false} StoreKeeps<V>(d: seq<Entry<V>>, key: string, value: V, other: string)
    ensures Find(Store(d, key, value), other) == if other == key then Some(value) else Find(d, other)
    ensures HasKey(Store(d, key, value), other) <==> HasKey(d, other) || other == key
  {
    if d != [] {
      StoreKeeps(d[1..], key, value, other);
    }
    FindIsHasKey(d, other);
    FindIsHasKey(Store(d, key, value), other);
  }

  lemma {:induction false} StoreUnique<V>(d: seq<Entry<V>>, key: string, value: V)
    requires UniqueKeys(d)
    ensures UniqueKeys(Store(d, key, value))
  {
    if d != [] && d[0].key != key {
      StoreUnique(d[1..], key, value);
      StoreKeeps(d[1..], key, value, d[0].key);
      var rest := Store(d[1..], key, value);
      assert !HasKey(d[1..], d[0].key) by {
        assert forall i :: 0 <= i < |d[1..]| ==> d[1..][i] == d[i + 1];
      }
      assert forall i :: 0 <= i < |rest| ==> rest[i].key != d[0].key;
    }
  }

  lemma {:induction false} DropKeeps<V>(d: seq<Entry<V>>, key: string, other: string)
    requires UniqueKeys(d)
    ensures UniqueKeys(Drop(d, key))
    ensures Find(Drop(d, key), other) == if other == key then None else Find(d, other)
    ensures forall e :: e in Drop(d, key) ==> e in d
  {
    if d != [] {
      DropKeeps(d[1..], key, other);
      if d[0].key == key {
        FindIsHasKey(d[1..], key);
      } else {
        var rest := Drop(d[1..], key);
        forall i | 0 <= i < |rest| ensures rest[i].key != d[0].key {
          assert rest[i] in d[1..];
          var j :| 0 <= j < |d[1..]| && d[1..][j] == rest[i];
          assert d[j + 1] == rest[i];
        }
        assert Drop(d, key) == [d[0]] + rest;
      }
    }
  }

  lemma {:induction false} StoreElements<V>(d: seq<Entry<V>>, key: string, value: V, e: Entry<V>)
    requires e in Store(d, key, value)
    ensures e in d || e == Entry(key, value)
  {
    if d != [] && d[0].key != key && e != d[0] {
      StoreElements(d[1..], key, value, e);
    }
  }

  // ---------- the keys in their order ----------

  function Keys<V>(d: seq<Entry<V>>): (ks: seq<string>)
    ensures |ks| == |d|
    ensures forall i :: 0 <= i < |d| ==> ks[i] == d[i].key
  {
    seq(|d|, i requires 0 <= i < |d| => d[i].key)
  }

  lemma {:induction false} KeysAreFound<V>(d: seq<Entry<V>>, x: string)
    ensures x in Keys(d) <==> Find(d, x).Some?
  {
    FindIsHasKey(d, x);
    if HasKey(d, x) {
      var i :| 0 <= i < |d| && d[i].key == x;
      assert Keys(d)[i] == x;
    }
  }

  lemma KeysOfCons<V>(e: Entry<V>, d: seq<Entry<V>>)
    ensures Keys([e] + d) == [e.key] + Keys(d)
  {
  }

  /** A new key goes last. */
  lemma {:induction false} StoreOrder<V>(d: seq<Entry<V>>, key: string, value: V)
    ensures Keys(Store(d, key, value)) == if key in Keys(d) then Keys(d) else Keys(d) + [key]
  {
    if d == [] {
      assert Keys(Store(d, key, value)) == [key];
    } else {
      assert d == [d[0]] + d[1..];
      hide Keys;
      KeysOfCons(d[0], d[1..]);
      if d[0].key == key {
        KeysOfCons(Entry(key, value), d[1..]);
      } else {
        StoreOrder(d[1..], key, value);
        KeysOfCons(d[0], Store(d[1..], key, value));
      }
    }
  }

  function Without(ks: seq<string>, key: string): seq<string> {
    if ks == [] then [] else (if ks[0] == key then [] else [ks[0]]) + Without(ks[1..], key)
  }

  lemma {:induction false} WithoutAbsent(ks: seq<string>, key: string)
    requires key !in ks
    ensures Without(ks, key) == ks
  {
    if ks != [] {
      WithoutAbsent(ks[1..], key);
    }
  }

  /** The others keep their order. */
  lemma {:induction false} DropOrder<V>(d: seq<Entry<V>>, key: string)
    requires UniqueKeys(d)
    ensures Keys(Drop(d, key)) == Without(Keys(d), key)
  {
    if d != [] {
      assert d == [d[0]] + d[1..];
      var rest := Keys(d[1..]);
      KeysOfCons(d[0], d[1..]);
      assert ([d[0].key] + rest)[1..] == rest;
      if d[0].key == key {
        WithoutAbsent(rest, key);
      } else {
        DropOrder(d[1..], key);
        KeysOfCons(d[0], Drop(d[1..], key));
      }
    }
  }
}

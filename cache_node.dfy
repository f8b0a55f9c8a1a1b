/**
 * The cache node server: named maps from key to value, each created on its
 * first reference and never dropped. Every handler first looks up (and if
 * need be creates) the named map, then decodes its request; a request that
 * does not decode fails with a deserialization error after the map exists.
 * The `...Spec` functions give each handler's new state and reply; the class
 * `CacheServiceImpl` implements them in place.
 */
module CacheNode {
  import opened Wrappers
  import opened Codec
  import opened NodeKeys

  /** One named map of the node. */
  type Store = map<Value, Value>

  /** All maps of the node, by name. */
  type Maps = map<string, Store>

  /** One key/value pair of a bulk request or reply, in encoded form. */
  datatype Entry = Entry(key: Bytes, value: Bytes)

  /** `getMap(name)`: the named map, or a fresh empty map if there is none yet. */
  function Named(maps: Maps, name: string): Store {
    if name in maps then maps[name] else map[]
  }

  /** The maps after `getMap(name)`: the name is registered, nothing else changes. */
  function Touch(maps: Maps, name: string): (r: Maps)
    ensures r.Keys == maps.Keys + {name}
    ensures r[name] == Named(maps, name)
    ensures forall n :: n in maps ==> r[n] == maps[n]
  {
    maps[name := Named(maps, name)]
  }

  /** `get`: the encoded stored value, `None` on a miss (the reply is null). */
  function GetSpec(maps: Maps, name: string, key: Bytes): (Maps, Result<Option<Bytes>>) {
    var m := Named(maps, name);
    (Touch(maps, name),
     match Decode(key)
     case None => Err(DeserializationError)
     case Some(k) => Ok(if k in m then Some(Encode(m[k])) else None))
  }

  /** `put`: stores the decoded value under the decoded key of the named map. */
  function PutSpec(maps: Maps, name: string, key: Bytes, value: Bytes): (r: (Maps, Result<()>))
    ensures r.0.Keys == maps.Keys + {name}
    ensures forall n :: n in maps && n != name ==> r.0[n] == maps[n]
    ensures r.1.Err? <==> Decode(key).None? || Decode(value).None?
  {
    var m := Named(maps, name);
    match (Decode(key), Decode(value))
    case (Some(k), Some(v)) => (maps[name := m[k := v]], Ok(()))
    case _ => (Touch(maps, name), Err(DeserializationError))
  }

  /** `remove`: deletes the decoded key; an absent key is left absent. */
  function RemoveSpec(maps: Maps, name: string, key: Bytes): (r: (Maps, Result<()>))
    ensures r.0.Keys == maps.Keys + {name}
    ensures forall n :: n in maps && n != name ==> r.0[n] == maps[n]
    ensures r.1.Err? <==> Decode(key).None?
  {
    var m := Named(maps, name);
    match Decode(key)
    case Some(k) => (maps[name := m - {k}], Ok(()))
    case None => (Touch(maps, name), Err(DeserializationError))
  }

  function ContainsKeySpec(maps: Maps, name: string, key: Bytes): (Maps, Result<bool>) {
    (Touch(maps, name),
     match Decode(key)
     case None => Err(DeserializationError)
     case Some(k) => Ok(k in Named(maps, name)))
  }

  /** `ConcurrentHashMap.size()`: the number of entries, capped at the largest int. */
  function SizeSpec(maps: Maps, name: string): (Maps, Int32) {
    var n := |Named(maps, name)|;
    (Touch(maps, name), if n > Int32Max then Int32Max else n)
  }

  function IsEmptySpec(maps: Maps, name: string): (Maps, bool) {
    (Touch(maps, name), Named(maps, name) == map[])
  }

  /** `clear`: the named map becomes empty but stays registered. */
  function ClearSpec(maps: Maps, name: string): (r: Maps)
    ensures r.Keys == maps.Keys + {name}
    ensures forall n :: n in maps && n != name ==> r[n] == maps[n]
  {
    maps[name := map[]]
  }

  /**
   * `putAll`'s loop over the entries, in request order; the first entry that
   * does not decode ends it, with the earlier entries already stored.
   */
  function PutEntries(m: Store, entries: seq<Entry>): (Store, bool)
    decreases |entries|
  {
    if entries == [] then (m, true)
    else
      var (prev, ok) := PutEntries(m, entries[..|entries| - 1]);
      var e := entries[|entries| - 1];
      if !ok then (prev, false)
      else
        match (Decode(e.key), Decode(e.value))
        case (Some(k), Some(v)) => (prev[k := v], true)
        case _ => (prev, false)
  }

  function PutAllSpec(maps: Maps, name: string, entries: seq<Entry>): (Maps, Result<()>) {
    var (m, ok) := PutEntries(Named(maps, name), entries);
    (maps[name := m], if ok then Ok(()) else Err(DeserializationError))
  }

  /**
   * `getAll`'s loop over the requested keys, in request order: one entry per
   * key that has a value, re-encoded; missing keys are skipped.
   */
  function GetEntries(m: Store, keys: seq<Bytes>): Result<seq<Entry>>
    decreases |keys|
  {
    if keys == [] then Ok([])
    else
      match GetEntries(m, keys[..|keys| - 1])
      case Err(e) => Err(e)
      case Ok(prev) =>
        match Decode(keys[|keys| - 1])
        case None => Err(DeserializationError)
        case Some(k) => Ok(if k in m then prev + [Entry(Encode(k), Encode(m[k]))] else prev)
  }

  function GetAllSpec(maps: Maps, name: string, keys: seq<Bytes>): (Maps, Result<seq<Entry>>) {
    (Touch(maps, name), GetEntries(Named(maps, name), keys))
  }

  // ---------------------------------------------------------------------
  // Lemmas

  /** A value put under a key is what `get` then returns for that key. */
  lemma GetAfterPut(maps: Maps, name: string, k: Value, v: Value)
    ensures var (after, r) := PutSpec(maps, name, Encode(k), Encode(v));
      r == Ok(()) && GetSpec(after, name, Encode(k)).1 == Ok(Some(Encode(v)))
  {
    DecodeEncode(k);
    DecodeEncode(v);
  }

  /** A put leaves every other key of the named map as it was. */
  lemma PutKeepsOtherKeys(maps: Maps, name: string, k: Value, v: Value, other: Value)
    requires other != k
    ensures var after := PutSpec(maps, name, Encode(k), Encode(v)).0;
      GetSpec(after, name, Encode(other)).1 == GetSpec(maps, name, Encode(other)).1
  {
    DecodeEncode(k);
    DecodeEncode(v);
    DecodeEncode(other);
  }

  /** After `remove`, `get` misses; removing an absent key changes nothing but the registration. */
  lemma RemoveThenGet(maps: Maps, name: string, k: Value)
    ensures var (after, r) := RemoveSpec(maps, name, Encode(k));
      && r == Ok(())
      && GetSpec(after, name, Encode(k)).1 == Ok(None)
      && (k !in Named(maps, name) ==> after == Touch(maps, name))
  {
    DecodeEncode(k);
    var m := Named(maps, name);
    if k !in m {
      assert m - {k} == m;
    }
  }

  /** `containsKey` answers true exactly when `get` has a value, and false exactly when it misses. */
  lemma ContainsKeyAgreesWithGet(maps: Maps, name: string, key: Bytes)
    ensures ContainsKeySpec(maps, name, key).1 == Ok(true) <==> GetSpec(maps, name, key).1.Ok? && GetSpec(maps, name, key).1.value.Some?
    ensures ContainsKeySpec(maps, name, key).1 == Ok(false) <==> GetSpec(maps, name, key).1 == Ok(None)
    ensures ContainsKeySpec(maps, name, key).1.Err? <==> GetSpec(maps, name, key).1.Err?
  {
  }

  /** After `clear` the named map is still registered, has size 0 and is empty; other maps keep their entries. */
  lemma ClearThenSize(maps: Maps, name: string)
    ensures var after := ClearSpec(maps, name);
      && name in after
      && SizeSpec(after, name).1 == 0
      && IsEmptySpec(after, name).1
  {
  }

  /** `size` is zero exactly when `isEmpty` holds, and both leave the maps as `getMap` does. */
  lemma SizeAgreesWithIsEmpty(maps: Maps, name: string)
    ensures SizeSpec(maps, name).0 == IsEmptySpec(maps, name).0 == Touch(maps, name)
    ensures SizeSpec(maps, name).1 == 0 <==> IsEmptySpec(maps, name).1
  {
    var m := Named(maps, name);
    if m != map[] {
      var k :| k in m;
      assert k in m.Keys;
      assert |m.Keys| > 0;
    }
  }

  /** The encoded form of a sequence of pairs. */
  function EncodeEntries(pairs: seq<(Value, Value)>): (r: seq<Entry>)
    ensures |r| == |pairs|
    ensures forall i :: 0 <= i < |pairs| ==> r[i] == Entry(Encode(pairs[i].0), Encode(pairs[i].1))
  {
    seq(|pairs|, i requires 0 <= i < |pairs| => Entry(Encode(pairs[i].0), Encode(pairs[i].1)))
  }

  function PairKeys(pairs: seq<(Value, Value)>): set<Value> {
    set i | 0 <= i < |pairs| :: pairs[i].0
  }

  /**
   * `putAll` of encoded pairs stores every pair in request order: keys not
   * mentioned keep their value, new keys are added, and a key mentioned more
   * than once ends with its last value.
   */
  lemma {:induction false} PutEntriesLastWins(m: Store, pairs: seq<(Value, Value)>)
    ensures var (r, ok) := PutEntries(m, EncodeEntries(pairs));
      ok && StoredInOrder(m, pairs, r)
    decreases |pairs|
  {
    if pairs != [] {
      var init := pairs[..|pairs| - 1];
      PutEntriesLastWins(m, init);
      PutEntriesSnoc(m, pairs);
      var prev := PutEntries(m, EncodeEntries(init)).0;
      StoredInOrderSnoc(m, pairs, prev);
    }
  }

  /** `r` is `m` with `pairs` stored in order. */
  ghost predicate StoredInOrder(m: Store, pairs: seq<(Value, Value)>, r: Store) {
    && r.Keys == m.Keys + PairKeys(pairs)
    && (forall k :: k in m && k !in PairKeys(pairs) ==> r[k] == m[k])
    && (forall i :: 0 <= i < |pairs| && LastOccurrence(pairs, i) ==> r[pairs[i].0] == pairs[i].1)
  }

  /** No later pair has the key of pair i. */
  ghost predicate LastOccurrence(pairs: seq<(Value, Value)>, i: int)
    requires 0 <= i < |pairs|
  {
    forall j :: i < j < |pairs| ==> pairs[j].0 != pairs[i].0
  }

  lemma PairKeysSnoc(pairs: seq<(Value, Value)>)
    requires pairs != []
    ensures PairKeys(pairs) == PairKeys(pairs[..|pairs| - 1]) + {pairs[|pairs| - 1].0}
  {
    var init := pairs[..|pairs| - 1];
    forall k | k in PairKeys(pairs) ensures k in PairKeys(init) + {pairs[|pairs| - 1].0} {
      var i :| 0 <= i < |pairs| && pairs[i].0 == k;
      if i < |pairs| - 1 {
        assert init[i].0 == k;
      }
    }
    forall k | k in PairKeys(init) ensures k in PairKeys(pairs) {
      var i :| 0 <= i < |init| && init[i].0 == k;
      assert pairs[i].0 == k;
    }
  }

  lemma PutEntriesSnoc(m: Store, pairs: seq<(Value, Value)>)
    requires pairs != []
    ensures var init := pairs[..|pairs| - 1];
      var last := pairs[|pairs| - 1];
      var (prev, ok) := PutEntries(m, EncodeEntries(init));
      ok ==> PutEntries(m, EncodeEntries(pairs)) == (prev[last.0 := last.1], true)
  {
    var last := pairs[|pairs| - 1];
    assert EncodeEntries(pairs)[..|pairs| - 1] == EncodeEntries(pairs[..|pairs| - 1]);
    DecodeEncode(last.0);
    DecodeEncode(last.1);
  }

  lemma StoredInOrderSnoc(m: Store, pairs: seq<(Value, Value)>, prev: Store)
    requires pairs != []
    requires StoredInOrder(m, pairs[..|pairs| - 1], prev)
    ensures var last := pairs[|pairs| - 1]; StoredInOrder(m, pairs, prev[last.0 := last.1])
  {
    var init := pairs[..|pairs| - 1];
    var last := pairs[|pairs| - 1];
    var r := prev[last.0 := last.1];
    PairKeysSnoc(pairs);
    forall i | 0 <= i < |pairs| && LastOccurrence(pairs, i)
      ensures r[pairs[i].0] == pairs[i].1
    {
      if i < |pairs| - 1 {
        assert init[i] == pairs[i];
        assert pairs[i].0 != last.0;
        assert LastOccurrence(init, i) by {
          forall j | i < j < |init| ensures init[j].0 != init[i].0 {
            assert init[j] == pairs[j];
          }
        }
      }
    }
  }

  /**
   * A reference for `getAll`'s reply, written front first: walking the
   * requested keys in order, each key with a stored value contributes one
   * entry holding that key byte for byte and its stored value.
   */
  function Hits(m: Store, keys: seq<Bytes>): seq<Entry>
    decreases |keys|
  {
    if keys == [] then []
    else
      var hit := match Decode(keys[0])
        case Some(k) => if k in m then [Entry(keys[0], Encode(m[k]))] else []
        case None => [];
      hit + Hits(m, keys[1..])
  }

  lemma {:induction false} HitsSnoc(m: Store, keys: seq<Bytes>, kb: Bytes)
    ensures Hits(m, keys + [kb]) == Hits(m, keys) + Hits(m, [kb])
    decreases |keys|
  {
    if keys == [] {
      assert keys + [kb] == [kb];
    } else {
      assert (keys + [kb])[1..] == keys[1..] + [kb];
      HitsSnoc(m, keys[1..], kb);
    }
  }

  /**
   * `getAll` over well-formed keys answers exactly the requested keys that
   * have a value, each with its stored value, in request order; keys are
   * echoed byte for byte. An empty request gets an empty reply: there is no
   * "all keys" request.
   */
  lemma {:induction false} GetEntriesExact(m: Store, keys: seq<Bytes>)
    requires forall i :: 0 <= i < |keys| ==> Decode(keys[i]).Some?
    ensures GetEntries(m, keys) == Ok(Hits(m, keys))
    ensures forall e :: e in GetEntries(m, keys).value ==>
      e.key in keys && Decode(e.key).value in m && e.value == Encode(m[Decode(e.key).value])
    ensures forall i :: 0 <= i < |keys| && Decode(keys[i]).value in m ==>
      Entry(keys[i], Encode(m[Decode(keys[i]).value])) in GetEntries(m, keys).value
    ensures |GetEntries(m, keys).value| <= |keys|
    decreases |keys|
  {
    if keys != [] {
      var init := keys[..|keys| - 1];
      var kb := keys[|keys| - 1];
      GetEntriesExact(m, init);
      var k := Decode(kb).value;
      EncodeDecode(kb, k);
      assert init + [kb] == keys;
      HitsSnoc(m, init, kb);
      var last: seq<Bytes> := [kb];
      assert Hits(m, last) == (if k in m then [Entry(kb, Encode(m[k]))] else []) by {
        assert last[1..] == [];
      }
      assert keys[..|keys| - 1] == init;
      assert Encode(k) == kb;
      if k in m {
        assert GetEntries(m, keys) == Ok(Hits(m, init) + [Entry(Encode(k), Encode(m[k]))]);
      } else {
        assert GetEntries(m, keys) == Ok(Hits(m, init));
        assert Hits(m, init) + Hits(m, last) == Hits(m, init);
      }
      forall i | 0 <= i < |keys| - 1 ensures keys[i] == init[i] { }
    }
  }

  /** Entries with no value are skipped: keys that miss contribute nothing. */
  lemma {:induction false} GetEntriesOfMisses(m: Store, keys: seq<Bytes>)
    requires forall i :: 0 <= i < |keys| ==> Decode(keys[i]).Some? && Decode(keys[i]).value !in m
    ensures GetEntries(m, keys) == Ok([])
    decreases |keys|
  {
    if keys != [] {
      GetEntriesOfMisses(m, keys[..|keys| - 1]);
    }
  }

  // ---------------------------------------------------------------------
  // The server object

  class CacheServiceImpl {
    var maps: Maps

    constructor ()
      ensures maps == map[]
    {
      maps := map[];
    }

    method GetMap(name: string) returns (m: Store)
      modifies this
      ensures maps == Touch(old(maps), name)
      ensures m == Named(old(maps), name)
    {
      if name !in maps {
        maps := maps[name := map[]];
      }
      m := maps[name];
    }

    method Get(name: string, key: Bytes) returns (r: Result<Option<Bytes>>)
      modifies this
      ensures (maps, r) == GetSpec(old(maps), name, key)
    {
      var m := GetMap(name);
      var k := Decode(key);
      if k.None? {
        return Err(DeserializationError);
      }
      if k.value in m {
        r := Ok(Some(Encode(m[k.value])));
      } else {
        r := Ok(None);
      }
    }

    method Put(name: string, key: Bytes, value: Bytes) returns (r: Result<()>)
      modifies this
      ensures (maps, r) == PutSpec(old(maps), name, key, value)
    {
      var m := GetMap(name);
      var k := Decode(key);
      if k.None? {
        return Err(DeserializationError);
      }
      var v := Decode(value);
      if v.None? {
        return Err(DeserializationError);
      }
      maps := maps[name := m[k.value := v.value]];
      assert maps == old(maps)[name := m[k.value := v.value]];
      r := Ok(());
    }

    method Remove(name: string, key: Bytes) returns (r: Result<()>)
      modifies this
      ensures (maps, r) == RemoveSpec(old(maps), name, key)
    {
      var m := GetMap(name);
      var k := Decode(key);
      if k.None? {
        return Err(DeserializationError);
      }
      maps := maps[name := m - {k.value}];
      assert maps == old(maps)[name := m - {k.value}];
      r := Ok(());
    }

    method ContainsKey(name: string, key: Bytes) returns (r: Result<bool>)
      modifies this
      ensures (maps, r) == ContainsKeySpec(old(maps), name, key)
    {
      var m := GetMap(name);
      var k := Decode(key);
      if k.None? {
        return Err(DeserializationError);
      }
      r := Ok(k.value in m);
    }

    method Size(name: string) returns (size: Int32)
      modifies this
      ensures (maps, size) == SizeSpec(old(maps), name)
    {
      var m := GetMap(name);
      size := if |m| > Int32Max then Int32Max else |m|;
    }

    method IsEmpty(name: string) returns (isEmpty: bool)
      modifies this
      ensures (maps, isEmpty) == IsEmptySpec(old(maps), name)
    {
      var m := GetMap(name);
      isEmpty := m == map[];
    }

    method Clear(name: string)
      modifies this
      ensures maps == ClearSpec(old(maps), name)
    {
      var _ := GetMap(name);
      maps := maps[name := map[]];
    }

    method PutAll(name: string, entries: seq<Entry>) returns (r: Result<()>)
      modifies this
      ensures (maps, r) == PutAllSpec(old(maps), name, entries)
    {
      var m := GetMap(name);
      assert maps == old(maps)[name := m];
      var i := 0;
      while i < |entries|
        invariant 0 <= i <= |entries|
        invariant maps == old(maps)[name := m]
        invariant PutEntries(Named(old(maps), name), entries[..i]) == (m, true)
      {
        assert entries[..i + 1][..i] == entries[..i];
        var k := Decode(entries[i].key);
        var v := if k.Some? then Decode(entries[i].value) else None;
        if k.None? || v.None? {
          PutEntriesStopsAtFailure(Named(old(maps), name), entries, i + 1);
          r := Err(DeserializationError);
          return;
        }
        m := m[k.value := v.value];
        maps := maps[name := m];
        i := i + 1;
      }
      assert entries[..i] == entries;
      r := Ok(());
    }

    method GetAll(name: string, keys: seq<Bytes>) returns (r: Result<seq<Entry>>)
      modifies this
      ensures (maps, r) == GetAllSpec(old(maps), name, keys)
    {
      var m := GetMap(name);
      var reply: seq<Entry> := [];
      var i := 0;
      while i < |keys|
        invariant 0 <= i <= |keys|
        invariant GetEntries(m, keys[..i]) == Ok(reply)
      {
        assert keys[..i + 1][..i] == keys[..i];
        var k := Decode(keys[i]);
        if k.None? {
          GetEntriesStopsAtFailure(m, keys, i + 1);
          return Err(DeserializationError);
        }
        if k.value in m {
          reply := reply + [Entry(Encode(k.value), Encode(m[k.value]))];
        }
        i := i + 1;
      }
      assert keys[..i] == keys;
      r := Ok(reply);
    }
  }

  lemma {:induction false} PutEntriesStopsAtFailure(m: Store, entries: seq<Entry>, j: nat)
    requires j <= |entries| && !PutEntries(m, entries[..j]).1
    ensures PutEntries(m, entries) == PutEntries(m, entries[..j])
    decreases |entries| - j
  {
    if j < |entries| {
      assert entries[..j + 1][..j] == entries[..j];
      PutEntriesStopsAtFailure(m, entries, j + 1);
    } else {
      assert entries[..j] == entries;
    }
  }

  lemma {:induction false} GetEntriesStopsAtFailure(m: Store, keys: seq<Bytes>, j: nat)
    requires j <= |keys| && GetEntries(m, keys[..j]).Err?
    ensures GetEntries(m, keys) == GetEntries(m, keys[..j])
    decreases |keys| - j
  {
    if j < |keys| {
      assert keys[..j + 1][..j] == keys[..j];
      GetEntriesStopsAtFailure(m, keys, j + 1);
    } else {
      assert keys[..j] == keys;
    }
  }
}

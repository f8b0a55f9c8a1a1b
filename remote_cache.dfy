/**
 * The remote map client. A `RemoteCache` fetches one stub from the registry
 * when it is built and sends every request for its map name to the node that
 * stub points at. Its primitives are single requests against that node's
 * server; its compound operations (`PutIfAbsent`, the conditional `Remove`
 * and `Replace`, the `Compute...` family and `Merge`) are read-then-write
 * sequences of those primitives.
 *
 * Keys and values are not null here: the map API's null stands for "absent"
 * only, as `Option`.
 */
module Remote {
  import opened Wrappers
  import opened Codec
  import opened NodeKeys
  import opened GrpcFactory
  import opened CacheNode

  /** The map's answer for `k`: `None` for null. */
  function Lookup(m: Store, k: Value): Option<Value> {
    if k in m then Some(m[k]) else None
  }

  /**
   * The effect shared by `compute`, `computeIfPresent` and `merge` once the
   * new value is known: a null new value removes the key, any other value is
   * stored under it.
   */
  function Write(m: Store, k: Value, newValue: Option<Value>): (r: Store)
    ensures Lookup(r, k) == newValue
    ensures forall other :: other != k ==> Lookup(r, other) == Lookup(m, other)
  {
    if newValue.None? then m - {k} else m[k := newValue.value]
  }

  // ---------------------------------------------------------------------
  // Decoding the bulk reply

  /** The decoded keys of a reply, `None` when one of them does not decode. */
  function KeysOf(entries: seq<Entry>): Option<set<Value>>
    decreases |entries|
  {
    if entries == [] then Some({})
    else
      match (KeysOf(entries[..|entries| - 1]), Decode(entries[|entries| - 1].key))
      case (Some(ks), Some(k)) => Some(ks + {k})
      case _ => None
  }

  /** The decoded values of a reply, in reply order. */
  function ValuesOf(entries: seq<Entry>): Option<seq<Value>>
    decreases |entries|
  {
    if entries == [] then Some([])
    else
      match (ValuesOf(entries[..|entries| - 1]), Decode(entries[|entries| - 1].value))
      case (Some(vs), Some(v)) => Some(vs + [v])
      case _ => None
  }

  /** The decoded key/value pairs of a reply; the key is decoded before the value. */
  function PairsOf(entries: seq<Entry>): Option<set<(Value, Value)>>
    decreases |entries|
  {
    if entries == [] then Some({})
    else
      var e := entries[|entries| - 1];
      match (PairsOf(entries[..|entries| - 1]), Decode(e.key), Decode(e.value))
      case (Some(ps), Some(k), Some(v)) => Some(ps + {(k, v)})
      case _ => None
  }

  /** The pairs of a sequence as a set. */
  function PairSet(pairs: seq<(Value, Value)>): set<(Value, Value)> {
    set i | 0 <= i < |pairs| :: pairs[i]
  }

  /** The second components of a sequence of pairs, in order. */
  function Seconds(pairs: seq<(Value, Value)>): (r: seq<Value>)
    ensures |r| == |pairs| && forall i :: 0 <= i < |pairs| ==> r[i] == pairs[i].1
  {
    seq(|pairs|, i requires 0 <= i < |pairs| => pairs[i].1)
  }

  lemma PairSetSnoc(pairs: seq<(Value, Value)>)
    requires pairs != []
    ensures PairSet(pairs) == PairSet(pairs[..|pairs| - 1]) + {pairs[|pairs| - 1]}
  {
    var init := pairs[..|pairs| - 1];
    forall p | p in PairSet(pairs) ensures p in PairSet(init) + {pairs[|pairs| - 1]} {
      var i :| 0 <= i < |pairs| && pairs[i] == p;
      if i < |pairs| - 1 {
        assert init[i] == p;
      }
    }
    forall p | p in PairSet(init) ensures p in PairSet(pairs) {
      var i :| 0 <= i < |init| && init[i] == p;
      assert pairs[i] == p;
    }
  }

  lemma EncodeEntriesSnoc(pairs: seq<(Value, Value)>)
    requires pairs != []
    ensures var last := pairs[|pairs| - 1];
      && EncodeEntries(pairs)[..|pairs| - 1] == EncodeEntries(pairs[..|pairs| - 1])
      && Decode(EncodeEntries(pairs)[|pairs| - 1].key) == Some(last.0)
      && Decode(EncodeEntries(pairs)[|pairs| - 1].value) == Some(last.1)
  {
    assert EncodeEntries(pairs)[..|pairs| - 1] == EncodeEntries(pairs[..|pairs| - 1]);
    DecodeEncode(pairs[|pairs| - 1].0);
    DecodeEncode(pairs[|pairs| - 1].1);
  }

  /** Decoding the keys of a reply built from pairs gives back exactly their keys. */
  lemma {:induction false} KeysOfEncoded(pairs: seq<(Value, Value)>)
    ensures KeysOf(EncodeEntries(pairs)) == Some(PairKeys(pairs))
    decreases |pairs|
  {
    if pairs != [] {
      var e := EncodeEntries(pairs);
      var init := pairs[..|pairs| - 1];
      EncodeEntriesSnoc(pairs);
      KeysOfEncoded(init);
      PairKeysSnoc(pairs);
      assert e[..|e| - 1] == EncodeEntries(init);
      assert KeysOf(e) == Some(PairKeys(init) + {pairs[|pairs| - 1].0});
    } else {
      assert EncodeEntries(pairs) == [];
      assert PairKeys(pairs) == {};
    }
  }

  /** Decoding the values of a reply built from pairs gives back their values, in order. */
  lemma {:induction false} ValuesOfEncoded(pairs: seq<(Value, Value)>)
    ensures ValuesOf(EncodeEntries(pairs)) == Some(Seconds(pairs))
    decreases |pairs|
  {
    if pairs != [] {
      EncodeEntriesSnoc(pairs);
      ValuesOfEncoded(pairs[..|pairs| - 1]);
      assert Seconds(pairs) == Seconds(pairs[..|pairs| - 1]) + [pairs[|pairs| - 1].1];
    }
  }

  /** Decoding the entries of a reply built from pairs gives back exactly those pairs. */
  lemma {:induction false} PairsOfEncoded(pairs: seq<(Value, Value)>)
    ensures PairsOf(EncodeEntries(pairs)) == Some(PairSet(pairs))
    decreases |pairs|
  {
    if pairs != [] {
      var e := EncodeEntries(pairs);
      var init := pairs[..|pairs| - 1];
      EncodeEntriesSnoc(pairs);
      PairsOfEncoded(init);
      PairSetSnoc(pairs);
      assert e[..|e| - 1] == EncodeEntries(init);
      assert PairsOf(e) == Some(PairSet(init) + {pairs[|pairs| - 1]});
    } else {
      assert EncodeEntries(pairs) == [];
      assert PairSet(pairs) == {};
    }
  }

  method DecodeKeys(entries: seq<Entry>) returns (r: Option<set<Value>>)
    ensures r == KeysOf(entries)
  {
    var keys: set<Value> := {};
    var i := 0;
    while i < |entries|
      invariant 0 <= i <= |entries|
      invariant KeysOf(entries[..i]) == Some(keys)
    {
      assert entries[..i + 1][..i] == entries[..i];
      var k := Decode(entries[i].key);
      if k.None? {
        KeysOfStopsAtFailure(entries, i + 1);
        return None;
      }
      keys := keys + {k.value};
      i := i + 1;
    }
    assert entries[..i] == entries;
    r := Some(keys);
  }

  method DecodeValues(entries: seq<Entry>) returns (r: Option<seq<Value>>)
    ensures r == ValuesOf(entries)
  {
    var values: seq<Value> := [];
    var i := 0;
    while i < |entries|
      invariant 0 <= i <= |entries|
      invariant ValuesOf(entries[..i]) == Some(values)
    {
      assert entries[..i + 1][..i] == entries[..i];
      var v := Decode(entries[i].value);
      if v.None? {
        ValuesOfStopsAtFailure(entries, i + 1);
        return None;
      }
      values := values + [v.value];
      i := i + 1;
    }
    assert entries[..i] == entries;
    r := Some(values);
  }

  method DecodePairs(entries: seq<Entry>) returns (r: Option<set<(Value, Value)>>)
    ensures r == PairsOf(entries)
  {
    var pairs: set<(Value, Value)> := {};
    var i := 0;
    while i < |entries|
      invariant 0 <= i <= |entries|
      invariant PairsOf(entries[..i]) == Some(pairs)
    {
      assert entries[..i + 1][..i] == entries[..i];
      var k := Decode(entries[i].key);
      var v := Decode(entries[i].value);
      if k.None? || v.None? {
        PairsOfStopsAtFailure(entries, i + 1);
        return None;
      }
      pairs := pairs + {(k.value, v.value)};
      i := i + 1;
    }
    assert entries[..i] == entries;
    r := Some(pairs);
  }

  lemma {:induction false} KeysOfStopsAtFailure(entries: seq<Entry>, j: nat)
    requires j <= |entries| && KeysOf(entries[..j]).None?
    ensures KeysOf(entries).None?
    decreases |entries| - j
  {
    if j < |entries| {
      assert entries[..j + 1][..j] == entries[..j];
      KeysOfStopsAtFailure(entries, j + 1);
    } else {
      assert entries[..j] == entries;
    }
  }

  lemma {:induction false} ValuesOfStopsAtFailure(entries: seq<Entry>, j: nat)
    requires j <= |entries| && ValuesOf(entries[..j]).None?
    ensures ValuesOf(entries).None?
    decreases |entries| - j
  {
    if j < |entries| {
      assert entries[..j + 1][..j] == entries[..j];
      ValuesOfStopsAtFailure(entries, j + 1);
    } else {
      assert entries[..j] == entries;
    }
  }

  lemma {:induction false} PairsOfStopsAtFailure(entries: seq<Entry>, j: nat)
    requires j <= |entries| && PairsOf(entries[..j]).None?
    ensures PairsOf(entries).None?
    decreases |entries| - j
  {
    if j < |entries| {
      assert entries[..j + 1][..j] == entries[..j];
      PairsOfStopsAtFailure(entries, j + 1);
    } else {
      assert entries[..j] == entries;
    }
  }

  /**
   * `base` with every pair stored, when the pairs are the entries of `m`
   * each listed once, is `base` overridden by `m`.
   */
  lemma StoredEntriesOfMap(base: Store, pairs: seq<(Value, Value)>, m: map<Value, Value>, r: Store)
    requires StoredInOrder(base, pairs, r)
    requires PairKeys(pairs) == m.Keys
    requires forall i :: 0 <= i < |pairs| ==> pairs[i].0 in m && pairs[i].1 == m[pairs[i].0]
    requires forall i, j :: 0 <= i < j < |pairs| ==> pairs[i].0 != pairs[j].0
    ensures r == base + m
  {
    forall k | k in m
      ensures r[k] == m[k]
    {
      var i :| 0 <= i < |pairs| && pairs[i].0 == k;
      assert LastOccurrence(pairs, i);
    }
  }

  // ---------------------------------------------------------------------
  // The client object

  class RemoteCache {
    const mapName: string
    /** The node the stub fetched at construction points at. */
    const node: CacheServiceImpl

    constructor (mapName: string, node: CacheServiceImpl)
      ensures this.mapName == mapName && this.node == node
    {
      this.mapName := mapName;
      this.node := node;
    }

    /** The entries of this cache's map on its node. */
    function Contents(): Store
      reads node
    {
      Named(node.maps, mapName)
    }

    /** Of all maps on the node, only this cache's may have changed, and it is registered. */
    ghost predicate OnlyOwnMapChanged(before: Maps)
      reads node
    {
      node.maps == before[mapName := Contents()]
    }

    method Size() returns (n: Int32)
      modifies node
      ensures n == if |old(Contents())| > Int32Max then Int32Max else |old(Contents())|
      ensures Contents() == old(Contents()) && OnlyOwnMapChanged(old(node.maps))
    {
      n := node.Size(mapName);
    }

    method IsEmpty() returns (isEmpty: bool)
      modifies node
      ensures isEmpty <==> old(Contents()) == map[]
      ensures Contents() == old(Contents()) && OnlyOwnMapChanged(old(node.maps))
    {
      isEmpty := node.IsEmpty(mapName);
    }

    method ContainsKey(key: Value) returns (present: bool)
      modifies node
      ensures present <==> key in old(Contents())
      ensures Contents() == old(Contents()) && OnlyOwnMapChanged(old(node.maps))
    {
      DecodeEncode(key);
      var reply := node.ContainsKey(mapName, Encode(key));
      present := reply.value;
    }

    /** A reply without a value (the node's null) reads as null; otherwise the value is decoded. */
    method Get(key: Value) returns (value: Option<Value>)
      modifies node
      ensures value == Lookup(old(Contents()), key)
      ensures Contents() == old(Contents()) && OnlyOwnMapChanged(old(node.maps))
    {
      DecodeEncode(key);
      var reply := node.Get(mapName, Encode(key));
      var bytes := reply.value;
      if bytes.None? {
        value := None;
      } else {
        DecodeEncode(old(Contents())[key]);
        var decoded := Decode(bytes.value);
        value := Some(decoded.value);
      }
    }

    /** Stores the pair and returns the value argument, not the previous value. */
    method Put(key: Value, value: Value) returns (r: Value)
      modifies node
      ensures r == value
      ensures Contents() == old(Contents())[key := value] && OnlyOwnMapChanged(old(node.maps))
    {
      DecodeEncode(key);
      DecodeEncode(value);
      var _ := node.Put(mapName, Encode(key), Encode(value));
      r := value;
    }

    /** Removes the key and returns null whether or not it was present. */
    method Remove(key: Value) returns (r: Option<Value>)
      modifies node
      ensures r == None
      ensures Contents() == old(Contents()) - {key} && OnlyOwnMapChanged(old(node.maps))
    {
      DecodeEncode(key);
      var _ := node.Remove(mapName, Encode(key));
      r := None;
    }

    /** Sends every entry of `m` in a single bulk request. */
    method PutAll(m: map<Value, Value>)
      modifies node
      ensures Contents() == old(Contents()) + m && OnlyOwnMapChanged(old(node.maps))
    {
      var pairs: seq<(Value, Value)> := [];
      var request: seq<Entry> := [];
      var remaining := m.Keys;
      while remaining != {}
        invariant remaining <= m.Keys
        invariant PairKeys(pairs) == m.Keys - remaining
        invariant request == EncodeEntries(pairs)
        invariant forall i :: 0 <= i < |pairs| ==> pairs[i].0 in m && pairs[i].1 == m[pairs[i].0]
        invariant forall i, j :: 0 <= i < j < |pairs| ==> pairs[i].0 != pairs[j].0
        invariant unchanged(node)
        decreases remaining
      {
        var k :| k in remaining;
        assert forall i :: 0 <= i < |pairs| ==> pairs[i].0 != k;
        ghost var old_pairs := pairs;
        pairs := pairs + [(k, m[k])];
        request := request + [Entry(Encode(k), Encode(m[k]))];
        remaining := remaining - {k};
        assert pairs[..|pairs| - 1] == old_pairs;
        PairKeysSnoc(pairs);
      }
      PutEntriesLastWins(old(Contents()), pairs);
      ghost var stored := PutEntries(old(Contents()), request).0;
      assert StoredInOrder(old(Contents()), pairs, stored);
      ghost var before := node.maps;
      assert Named(before, mapName) == old(Contents());
      var _ := node.PutAll(mapName, request);
      assert node.maps == PutAllSpec(before, mapName, request).0;
      assert Contents() == stored;
      StoredEntriesOfMap(old(Contents()), pairs, m, Contents());
    }

    method Clear()
      modifies node
      ensures Contents() == map[] && OnlyOwnMapChanged(old(node.maps))
    {
      node.Clear(mapName);
    }

    /**
     * Sends a bulk read that names no key and decodes the keys of the reply.
     * The node answers only the keys a bulk read names, so the set is always
     * empty, whatever the map holds.
     */
    method KeySet() returns (keys: set<Value>)
      modifies node
      ensures keys == {}
      ensures Contents() == old(Contents()) && OnlyOwnMapChanged(old(node.maps))
    {
      var reply := node.GetAll(mapName, []);
      var decoded := DecodeKeys(reply.value);
      keys := decoded.value;
    }

    /** The values of a bulk read that names no key: always empty, like `KeySet`. */
    method Values() returns (values: seq<Value>)
      modifies node
      ensures values == []
      ensures Contents() == old(Contents()) && OnlyOwnMapChanged(old(node.maps))
    {
      var reply := node.GetAll(mapName, []);
      var decoded := DecodeValues(reply.value);
      values := decoded.value;
    }

    /** The pairs of a bulk read that names no key: always empty, like `KeySet`. */
    method EntrySet() returns (entries: set<(Value, Value)>)
      modifies node
      ensures entries == {}
      ensures Contents() == old(Contents()) && OnlyOwnMapChanged(old(node.maps))
    {
      var reply := node.GetAll(mapName, []);
      var decoded := DecodePairs(reply.value);
      entries := decoded.value;
    }

    /** Looks the value up among `Values()`, which is empty: never true. */
    method ContainsValue(value: Value) returns (found: bool)
      modifies node
      ensures !found
      ensures Contents() == old(Contents()) && OnlyOwnMapChanged(old(node.maps))
    {
      var values := Values();
      found := value in values;
    }

    method GetOrDefault(key: Value, defaultValue: Value) returns (value: Value)
      modifies node
      ensures value == Lookup(old(Contents()), key).GetOr(defaultValue)
      ensures Contents() == old(Contents()) && OnlyOwnMapChanged(old(node.maps))
    {
      var current := Get(key);
      value := if current.Some? then current.value else defaultValue;
    }

    /** Puts and answers null when the key is absent; otherwise answers the current value and writes nothing. */
    method PutIfAbsent(key: Value, value: Value) returns (r: Option<Value>)
      modifies node
      ensures r == Lookup(old(Contents()), key)
      ensures Contents() == (if key in old(Contents()) then old(Contents()) else old(Contents())[key := value])
      ensures OnlyOwnMapChanged(old(node.maps))
    {
      var present := ContainsKey(key);
      if !present {
        var _ := Put(key, value);
        return None;
      }
      r := Get(key);
    }

    /** `remove(key, value)`: removes only when the key is present with exactly that value. */
    method RemoveIfEquals(key: Value, value: Value) returns (removed: bool)
      modifies node
      ensures removed <==> Lookup(old(Contents()), key) == Some(value)
      ensures Contents() == (if removed then old(Contents()) - {key} else old(Contents()))
      ensures OnlyOwnMapChanged(old(node.maps))
    {
      var present := ContainsKey(key);
      if present {
        var current := Get(key);
        if current == Some(value) {
          var _ := Remove(key);
          return true;
        }
      }
      removed := false;
    }

    /** `replace(key, oldValue, newValue)`: writes only when the key is present with exactly `oldValue`. */
    method ReplaceIfEquals(key: Value, oldValue: Value, newValue: Value) returns (replaced: bool)
      modifies node
      ensures replaced <==> Lookup(old(Contents()), key) == Some(oldValue)
      ensures Contents() == (if replaced then old(Contents())[key := newValue] else old(Contents()))
      ensures OnlyOwnMapChanged(old(node.maps))
    {
      var present := ContainsKey(key);
      if present {
        var current := Get(key);
        if current == Some(oldValue) {
          var _ := Put(key, newValue);
          return true;
        }
      }
      replaced := false;
    }

    /** `replace(key, value)`: writes only when the key is present, and then answers the new value. */
    method Replace(key: Value, value: Value) returns (r: Option<Value>)
      modifies node
      ensures r == (if key in old(Contents()) then Some(value) else None)
      ensures Contents() == (if key in old(Contents()) then old(Contents())[key := value] else old(Contents()))
      ensures OnlyOwnMapChanged(old(node.maps))
    {
      var present := ContainsKey(key);
      if present {
        var _ := Put(key, value);
        return Some(value);
      }
      r := None;
    }

    /** Writes `f(key)` only when the key is absent and `f` gives a value; answers the value the key then has. */
    method ComputeIfAbsent(key: Value, f: Value -> Option<Value>) returns (r: Option<Value>)
      modifies node
      ensures key in old(Contents()) ==> r == Some(old(Contents())[key]) && Contents() == old(Contents())
      ensures key !in old(Contents()) ==>
        (r == f(key) && Contents() == (if f(key).Some? then old(Contents())[key := f(key).value] else old(Contents())))
      ensures OnlyOwnMapChanged(old(node.maps))
    {
      var value := Get(key);
      if value.None? {
        var newValue := f(key);
        if newValue.Some? {
          var _ := Put(key, newValue.value);
          return newValue;
        }
      }
      r := value;
    }

    /** For a present key, stores or (on null) removes `f(key, current)` and answers it; an absent key is left alone. */
    method ComputeIfPresent(key: Value, f: (Value, Value) -> Option<Value>) returns (r: Option<Value>)
      modifies node
      ensures key !in old(Contents()) ==> r == None && Contents() == old(Contents())
      ensures key in old(Contents()) ==>
        (r == f(key, old(Contents())[key]) && Contents() == Write(old(Contents()), key, r))
      ensures OnlyOwnMapChanged(old(node.maps))
    {
      var oldValue := Get(key);
      if oldValue.Some? {
        var newValue := f(key, oldValue.value);
        if newValue.Some? {
          var _ := Put(key, newValue.value);
          return newValue;
        } else {
          var _ := Remove(key);
          return None;
        }
      }
      r := None;
    }

    /** Stores or (on null) removes `f(key, current-or-null)` and answers it. */
    method Compute(key: Value, f: (Value, Option<Value>) -> Option<Value>) returns (r: Option<Value>)
      modifies node
      ensures r == f(key, Lookup(old(Contents()), key))
      ensures Contents() == Write(old(Contents()), key, r)
      ensures OnlyOwnMapChanged(old(node.maps))
    {
      var oldValue := Get(key);
      var newValue := f(key, oldValue);
      if newValue.None? {
        var _ := Remove(key);
        return None;
      }
      var _ := Put(key, newValue.value);
      r := newValue;
    }

    /** Stores `value` for an absent key, otherwise `f(current, value)`, removing the key when that is null. */
    method Merge(key: Value, value: Value, f: (Value, Value) -> Option<Value>) returns (r: Option<Value>)
      modifies node
      ensures r == (if key in old(Contents()) then f(old(Contents())[key], value) else Some(value))
      ensures Contents() == Write(old(Contents()), key, r)
      ensures OnlyOwnMapChanged(old(node.maps))
    {
      var oldValue := Get(key);
      var newValue := if oldValue.None? then Some(value) else f(oldValue.value, value);
      if newValue.None? {
        var _ := Remove(key);
        return None;
      }
      var _ := Put(key, newValue.value);
      r := newValue;
    }
  }

  /**
   * Construction: fetches one stub from the registry (advancing its
   * round-robin counter) and binds the cache to the node at that stub's
   * address. `cluster` maps an address to the node listening there.
   */
  method Connect(mapName: string, factory: CacheServiceGrpcFactory, cluster: map<string, CacheServiceImpl>)
    returns (r: Result<RemoteCache>)
    modifies factory
    ensures factory.nodes == old(factory.nodes)
    ensures var (after, stub) := GetStubSpec(old(factory.State()));
      && factory.State() == after
      && (stub.Err? ==> r == Err(stub.error))
      && (stub.Ok? && stub.value.target !in cluster ==> r == Err(Unavailable))
      && (stub.Ok? && stub.value.target in cluster ==>
            r.Ok? && fresh(r.value) && r.value.mapName == mapName && r.value.node == cluster[stub.value.target])
  {
    var stub := factory.GetStub();
    if stub.Err? {
      return Err(stub.error);
    }
    if stub.value.target !in cluster {
      return Err(Unavailable);
    }
    var cache := new RemoteCache(mapName, cluster[stub.value.target]);
    r := Ok(cache);
  }
}

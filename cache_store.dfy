/**
 * The two-tier store behind a cache: a near map in the client process and the
 * remote map on one node. Reads try the near tier first; writes go to the
 * remote tier only (the near write is disabled in the source), removals and
 * `clear` go to both. The near map's own implementation is not part of this
 * model; it is a plain map that starts empty.
 *
 * The conditional operations a cache calls on its store (`putIfAbsent`, the
 * conditional `remove` and `replace`, `replace`, `computeIfPresent`) are the
 * default methods every Java map inherits, written out here as the same
 * sequences of `get`, `containsKey`, `put` and `remove` on this store.
 */
module TwoTier {
  import opened Wrappers
  import opened Codec
  import opened GrpcFactory
  import opened CacheNode
  import opened Remote

  /** The store's answer for `k`: the near value when there is one, otherwise the remote one. */
  function TierLookup(near: Store, remote: Store, k: Value): (r: Option<Value>)
    ensures r == Lookup(remote + near, k)
    ensures r.None? <==> k !in near && k !in remote
  {
    var nearValue := Lookup(near, k);
    if nearValue.Some? then nearValue else Lookup(remote, k)
  }

  /** Values listed in a key order that covers the map exactly once are the map's values. */
  lemma ValuesOfOrder(m: Store, order: seq<Value>, values: seq<Value>)
    requires |values| == |order| == |m|
    requires forall i :: 0 <= i < |order| ==> order[i] in m && values[i] == m[order[i]]
    requires forall k :: k in m ==> k in order
    ensures forall v :: v in values <==> v in m.Values
  {
    forall v | v in m.Values
      ensures v in values
    {
      var k :| k in m && m[k] == v;
      var i :| 0 <= i < |order| && order[i] == k;
      assert values[i] == v;
    }
  }

  class CacheStoreManager {
    /** The near tier. */
    var nearMap: Store
    /** The remote tier, bound to one node for the store's whole life. */
    const remoteMap: RemoteCache

    constructor (remoteMap: RemoteCache)
      ensures nearMap == map[] && this.remoteMap == remoteMap
    {
      nearMap := map[];
      this.remoteMap := remoteMap;
    }

    /** The entries of the remote tier. */
    function RemoteContents(): Store
      reads remoteMap.node
    {
      remoteMap.Contents()
    }

    /** Every map on the remote node other than this store's own is as it was. */
    ghost predicate OtherMapsKept(before: Maps)
      reads remoteMap.node
    {
      remoteMap.node.maps - {remoteMap.mapName} == before - {remoteMap.mapName}
    }

    /** Reports the near tier's size only; the remote tier is not consulted. */
    method Size() returns (n: int)
      ensures n == |nearMap|
    {
      n := |nearMap|;
    }

    method IsEmpty() returns (isEmpty: bool)
      ensures isEmpty <==> nearMap == map[]
    {
      isEmpty := |nearMap| == 0;
    }

    /** Present in either tier; the remote tier is asked only when the near tier misses. */
    method ContainsKey(key: Value) returns (present: bool)
      modifies remoteMap.node
      ensures present <==> key in nearMap || key in old(RemoteContents())
      ensures RemoteContents() == old(RemoteContents()) && OtherMapsKept(old(remoteMap.node.maps))
    {
      present := key in nearMap;
      if !present {
        present := remoteMap.ContainsKey(key);
      }
    }

    /** The remote tier never reports a value, so only the near tier can. */
    method ContainsValue(value: Value) returns (found: bool)
      modifies remoteMap.node
      ensures found <==> value in nearMap.Values
      ensures RemoteContents() == old(RemoteContents()) && OtherMapsKept(old(remoteMap.node.maps))
    {
      found := value in nearMap.Values;
      if !found {
        found := remoteMap.ContainsValue(value);
      }
    }

    method Get(key: Value) returns (value: Option<Value>)
      modifies remoteMap.node
      ensures value == TierLookup(nearMap, old(RemoteContents()), key)
      ensures RemoteContents() == old(RemoteContents()) && OtherMapsKept(old(remoteMap.node.maps))
    {
      value := Lookup(nearMap, key);
      if value.None? {
        value := remoteMap.Get(key);
      }
    }

    /** Writes the remote tier only, leaves the near tier as it is, and returns the value argument. */
    method Put(key: Value, value: Value) returns (r: Value)
      modifies remoteMap.node
      ensures r == value
      ensures RemoteContents() == old(RemoteContents())[key := value] && OtherMapsKept(old(remoteMap.node.maps))
    {
      var _ := remoteMap.Put(key, value);
      r := value;
    }

    /** Removes from both tiers and answers what the near tier held. */
    method Remove(key: Value) returns (r: Option<Value>)
      modifies this, remoteMap.node
      ensures r == Lookup(old(nearMap), key)
      ensures nearMap == old(nearMap) - {key}
      ensures RemoteContents() == old(RemoteContents()) - {key} && OtherMapsKept(old(remoteMap.node.maps))
    {
      var _ := remoteMap.Remove(key);
      r := Lookup(nearMap, key);
      nearMap := nearMap - {key};
    }

    method PutAll(m: map<Value, Value>) returns (r: Result<()>)
      ensures r == Err(UnsupportedOperationException)
    {
      r := Err(UnsupportedOperationException);
    }

    method Clear()
      modifies this, remoteMap.node
      ensures nearMap == map[]
      ensures RemoteContents() == map[] && OtherMapsKept(old(remoteMap.node.maps))
    {
      remoteMap.Clear();
      nearMap := map[];
    }

    /**
     * The union of the near keys and the remote tier's key set; the remote
     * tier's key set is always empty, so the union is the near keys.
     */
    method KeySet() returns (keys: set<Value>)
      modifies remoteMap.node
      ensures keys == nearMap.Keys
      ensures RemoteContents() == old(RemoteContents()) && OtherMapsKept(old(remoteMap.node.maps))
    {
      keys := nearMap.Keys;
      var remoteKeys := remoteMap.KeySet();
      keys := keys + remoteKeys;
    }

    /**
     * `get` of every key of `KeySet()`, one value per key: `order` is the
     * enumeration of the near keys, each exactly once, and the i-th value is
     * the near value of the i-th key.
     */
    method Values() returns (values: seq<Value>, ghost order: seq<Value>)
      modifies remoteMap.node
      ensures |values| == |order| == |nearMap|
      ensures forall k :: k in nearMap <==> k in order
      ensures forall i, j :: 0 <= i < j < |order| ==> order[i] != order[j]
      ensures forall i :: 0 <= i < |order| ==> values[i] == nearMap[order[i]]
      ensures forall v :: v in values <==> v in nearMap.Values
      ensures RemoteContents() == old(RemoteContents()) && OtherMapsKept(old(remoteMap.node.maps))
    {
      var keys := KeySet();
      values := [];
      var remaining := keys;
      order := [];
      while remaining != {}
        invariant remaining <= keys
        invariant |values| == |order| && |order| + |remaining| == |keys|
        invariant forall i :: 0 <= i < |order| ==> order[i] in keys && order[i] !in remaining && values[i] == nearMap[order[i]]
        invariant forall i, j :: 0 <= i < j < |order| ==> order[i] != order[j]
        invariant forall k :: k in keys && k !in remaining ==> k in order
        invariant RemoteContents() == old(RemoteContents()) && OtherMapsKept(old(remoteMap.node.maps))
        decreases remaining
      {
        var k :| k in remaining;
        var v := GetNear(k);
        values := values + [v];
        order := order + [k];
        remaining := remaining - {k};
      }
      ValuesOfOrder(nearMap, order, values);
    }

    /** `get` of a key the near tier holds. */
    method GetNear(key: Value) returns (value: Value)
      requires key in nearMap
      modifies remoteMap.node
      ensures value == nearMap[key]
      ensures RemoteContents() == old(RemoteContents()) && OtherMapsKept(old(remoteMap.node.maps))
    {
      var found := Get(key);
      value := found.value;
    }

    method EntrySet() returns (r: Result<set<(Value, Value)>>)
      ensures r == Err(UnsupportedOperationException)
    {
      r := Err(UnsupportedOperationException);
    }

    // -------------------------------------------------------------------
    // Inherited map defaults

    /**
     * `putIfAbsent`: the current value if there is one, otherwise the result
     * of `put`, which is the value argument. The answer is therefore never
     * null.
     */
    method PutIfAbsent(key: Value, value: Value) returns (r: Option<Value>)
      modifies remoteMap.node
      ensures r.Some?
      ensures var current := TierLookup(old(nearMap), old(RemoteContents()), key);
        && r == (if current.Some? then current else Some(value))
        && RemoteContents() == (if current.Some? then old(RemoteContents()) else old(RemoteContents())[key := value])
      ensures OtherMapsKept(old(remoteMap.node.maps))
    {
      r := Get(key);
      if r.None? {
        var written := Put(key, value);
        r := Some(written);
      }
    }

    /**
     * `remove(key, value)`: removes from both tiers only when the current
     * value equals `value`. The default's extra `containsKey` test for a null
     * current value cannot fire, because `value` is never null.
     */
    method RemoveIfEquals(key: Value, value: Value) returns (removed: bool)
      modifies this, remoteMap.node
      ensures removed <==> TierLookup(old(nearMap), old(RemoteContents()), key) == Some(value)
      ensures nearMap == (if removed then old(nearMap) - {key} else old(nearMap))
      ensures RemoteContents() == (if removed then old(RemoteContents()) - {key} else old(RemoteContents()))
      ensures OtherMapsKept(old(remoteMap.node.maps))
    {
      var current := Get(key);
      if current != Some(value) {
        return false;
      }
      var _ := Remove(key);
      removed := true;
    }

    /** `replace(key, oldValue, newValue)`: puts `newValue` only when the current value equals `oldValue`. */
    method ReplaceIfEquals(key: Value, oldValue: Value, newValue: Value) returns (replaced: bool)
      modifies remoteMap.node
      ensures replaced <==> TierLookup(old(nearMap), old(RemoteContents()), key) == Some(oldValue)
      ensures RemoteContents() == (if replaced then old(RemoteContents())[key := newValue] else old(RemoteContents()))
      ensures OtherMapsKept(old(remoteMap.node.maps))
    {
      var current := Get(key);
      if current != Some(oldValue) {
        return false;
      }
      var _ := Put(key, newValue);
      replaced := true;
    }

    /**
     * `replace(key, value)`: when `get` finds a value, or failing that
     * `containsKey` finds the key, puts and answers the result of `put`;
     * otherwise answers null.
     */
    method Replace(key: Value, value: Value) returns (r: Option<Value>)
      modifies remoteMap.node
      ensures var present := key in old(nearMap) || key in old(RemoteContents());
        && r == (if present then Some(value) else None)
        && RemoteContents() == (if present then old(RemoteContents())[key := value] else old(RemoteContents()))
      ensures OtherMapsKept(old(remoteMap.node.maps))
    {
      r := Get(key);
      var present := r.Some?;
      if !present {
        present := ContainsKey(key);
      }
      if present {
        var written := Put(key, value);
        r := Some(written);
      }
    }

    /**
     * `computeIfPresent`: with a current value, stores `f(key, current)` or,
     * when that is null, removes the key from both tiers; answers the new
     * value. Without a current value nothing happens.
     */
    method ComputeIfPresent(key: Value, f: (Value, Value) -> Option<Value>) returns (r: Option<Value>)
      modifies this, remoteMap.node
      ensures var current := TierLookup(old(nearMap), old(RemoteContents()), key);
        && (current.None? ==> r.None? && nearMap == old(nearMap) && RemoteContents() == old(RemoteContents()))
        && (current.Some? ==> r == f(key, current.value))
        && (current.Some? && r.Some? ==>
              nearMap == old(nearMap) && RemoteContents() == old(RemoteContents())[key := r.value])
        && (current.Some? && r.None? ==>
              nearMap == old(nearMap) - {key} && RemoteContents() == old(RemoteContents()) - {key})
      ensures OtherMapsKept(old(remoteMap.node.maps))
    {
      var current := Get(key);
      if current.None? {
        return None;
      }
      var newValue := f(key, current.value);
      if newValue.Some? {
        var _ := Put(key, newValue.value);
        r := newValue;
      } else {
        var _ := Remove(key);
        r := None;
      }
    }
  }

  /**
   * Construction: a new, empty near tier and a remote tier that fetches its
   * stub from the registry; fails as that fetch fails.
   */
  method Open(cacheName: string, factory: CacheServiceGrpcFactory, cluster: map<string, CacheServiceImpl>)
    returns (r: Result<CacheStoreManager>)
    modifies factory
    ensures factory.nodes == old(factory.nodes)
    ensures var (after, stub) := GetStubSpec(old(factory.State()));
      && factory.State() == after
      && (stub.Err? ==> r == Err(stub.error))
      && (stub.Ok? && stub.value.target !in cluster ==> r == Err(Unavailable))
      && (stub.Ok? && stub.value.target in cluster ==>
            && r.Ok? && fresh(r.value) && r.value.nearMap == map[]
            && r.value.remoteMap.mapName == cacheName && r.value.remoteMap.node == cluster[stub.value.target])
  {
    var remote := Connect(cacheName, factory, cluster);
    if remote.Err? {
      return Err(remote.error);
    }
    var store := new CacheStoreManager(remote.value);
    r := Ok(store);
  }

  /**
   * The near tier is never written, so a store that starts empty reports
   * size 0 even right after a `put` that `get` can see.
   */
  method SizeIgnoresPut(store: CacheStoreManager, key: Value, value: Value) returns (n: int, found: Option<Value>)
    requires store.nearMap == map[]
    modifies store.remoteMap.node
    ensures n == 0 && found == Some(value)
  {
    var _ := store.Put(key, value);
    n := store.Size();
    found := store.Get(key);
  }
}

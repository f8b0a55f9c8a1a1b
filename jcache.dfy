/**
 * The JCache-style adapters. A cache guards each operation with its closed
 * flag and delegates to its two-tier store; a manager keeps a registry of
 * caches by name over one node registry of its own; the provider memoises
 * managers by (class loader, URI).
 *
 * A Java class object is modelled by its name, a class loader by an
 * identifier, and a URI by its text. Java's null for a class loader or URI
 * argument is `None`.
 */
module Jcache {
  import opened Wrappers
  import opened Codec
  import opened NodeKeys
  import opened GrpcFactory
  import opened CacheNode
  import opened Remote
  import opened TwoTier

  /** The key and value types a configuration reports; `None` for null. */
  datatype Configuration = Configuration(keyType: Option<string>, valueType: Option<string>)

  /** A fresh mutable configuration reports `Object` for both types. */
  const ObjectClass := "java.lang.Object"
  const DefaultConfiguration := Configuration(Some(ObjectClass), Some(ObjectClass))

  /** The objects a cache's `close` may change. */
  function Footprint(c: IxIxCache): set<object> {
    {c, c.store, c.store.remoteMap.node}
  }

  class IxIxCache {
    const cacheName: string
    const configuration: Configuration
    const store: CacheStoreManager
    var isClosed: bool

    constructor (cacheName: string, configuration: Configuration, store: CacheStoreManager)
      ensures this.cacheName == cacheName && this.configuration == configuration && this.store == store
      ensures !isClosed
    {
      this.cacheName := cacheName;
      this.configuration := configuration;
      this.store := store;
      isClosed := false;
    }

    /** The entries the cache shows: the near tier over the remote tier. */
    function View(): Store
      reads store, store.remoteMap.node
    {
      store.RemoteContents() + store.nearMap
    }

    /** The store's two tiers and every other map on the node are as they were. */
    ghost predicate StoreKept(nearBefore: Store, remoteBefore: Store, mapsBefore: Maps)
      reads store, store.remoteMap.node
    {
      store.nearMap == nearBefore && store.RemoteContents() == remoteBefore && store.OtherMapsKept(mapsBefore)
    }

    method CheckClosed() returns (r: Result<()>)
      ensures r.Err? <==> isClosed
      ensures r.Err? ==> r.error == IllegalStateException
    {
      if isClosed {
        return Err(IllegalStateException);
      }
      r := Ok(());
    }

    /** Unguarded: marks the cache closed and clears its store, even when already closed. */
    method Close()
      modifies Footprint(this)
      ensures isClosed
      ensures store.nearMap == map[] && store.RemoteContents() == map[]
      ensures store.OtherMapsKept(old(store.remoteMap.node.maps))
    {
      isClosed := true;
      store.Clear();
    }

    method Get(key: Value) returns (r: Result<Option<Value>>)
      modifies store.remoteMap.node
      ensures r == if old(isClosed) then Err(IllegalStateException) else Ok(Lookup(old(View()), key))
      ensures StoreKept(old(store.nearMap), old(store.RemoteContents()), old(store.remoteMap.node.maps))
    {
      var open := CheckClosed();
      if open.Err? {
        return Err(open.error);
      }
      var value := store.Get(key);
      r := Ok(value);
    }

    /** The requested keys the store contains, each with the store's value. */
    method GetAll(keys: set<Value>) returns (r: Result<map<Value, Value>>)
      modifies store.remoteMap.node
      ensures r == if old(isClosed) then Err(IllegalStateException)
                   else Ok(map k | k in keys && k in old(View()) :: old(View())[k])
      ensures StoreKept(old(store.nearMap), old(store.RemoteContents()), old(store.remoteMap.node.maps))
    {
      var open := CheckClosed();
      if open.Err? {
        return Err(open.error);
      }
      var result: map<Value, Value> := map[];
      var remaining := keys;
      while remaining != {}
        invariant remaining <= keys
        invariant result == map k | k in keys - remaining && k in old(View()) :: old(View())[k]
        invariant StoreKept(old(store.nearMap), old(store.RemoteContents()), old(store.remoteMap.node.maps))
        decreases remaining
      {
        var k :| k in remaining;
        var present := store.ContainsKey(k);
        if present {
          var value := store.Get(k);
          result := result[k := value.value];
        }
        remaining := remaining - {k};
      }
      assert keys - remaining == keys;
      r := Ok(result);
    }

    method ContainsKey(key: Value) returns (r: Result<bool>)
      modifies store.remoteMap.node
      ensures r == if old(isClosed) then Err(IllegalStateException) else Ok(key in old(View()))
      ensures StoreKept(old(store.nearMap), old(store.RemoteContents()), old(store.remoteMap.node.maps))
    {
      var open := CheckClosed();
      if open.Err? {
        return Err(open.error);
      }
      var present := store.ContainsKey(key);
      r := Ok(present);
    }

    method Put(key: Value, value: Value) returns (r: Result<()>)
      modifies store.remoteMap.node
      ensures r == if old(isClosed) then Err(IllegalStateException) else Ok(())
      ensures store.RemoteContents() == (if old(isClosed) then old(store.RemoteContents()) else old(store.RemoteContents())[key := value])
      ensures store.OtherMapsKept(old(store.remoteMap.node.maps))
    {
      var open := CheckClosed();
      if open.Err? {
        return Err(open.error);
      }
      var _ := store.Put(key, value);
      r := Ok(());
    }

    /** Answers what the store's `put` answers: the value argument, not the previous value. */
    method GetAndPut(key: Value, value: Value) returns (r: Result<Value>)
      modifies store.remoteMap.node
      ensures r == if old(isClosed) then Err(IllegalStateException) else Ok(value)
      ensures store.RemoteContents() == (if old(isClosed) then old(store.RemoteContents()) else old(store.RemoteContents())[key := value])
      ensures store.OtherMapsKept(old(store.remoteMap.node.maps))
    {
      var open := CheckClosed();
      if open.Err? {
        return Err(open.error);
      }
      var previous := store.Put(key, value);
      r := Ok(previous);
    }

    /**
     * True exactly when the store's `putIfAbsent` answers null, which it
     * never does: the answer is false whether or not the value was written.
     */
    method PutIfAbsent(key: Value, value: Value) returns (r: Result<bool>)
      modifies store.remoteMap.node
      ensures r == if old(isClosed) then Err(IllegalStateException) else Ok(false)
      ensures store.RemoteContents() ==
        (if old(isClosed) || key in old(View()) then old(store.RemoteContents()) else old(store.RemoteContents())[key := value])
      ensures store.OtherMapsKept(old(store.remoteMap.node.maps))
    {
      var open := CheckClosed();
      if open.Err? {
        return Err(open.error);
      }
      var previous := store.PutIfAbsent(key, value);
      r := Ok(previous.None?);
    }

    /** True exactly when the near tier held the key; the key leaves both tiers. */
    method Remove(key: Value) returns (r: Result<bool>)
      modifies store, store.remoteMap.node
      ensures r == if old(isClosed) then Err(IllegalStateException) else Ok(key in old(store.nearMap))
      ensures !old(isClosed) ==> store.nearMap == old(store.nearMap) - {key} && store.RemoteContents() == old(store.RemoteContents()) - {key}
      ensures old(isClosed) ==> store.nearMap == old(store.nearMap) && store.RemoteContents() == old(store.RemoteContents())
      ensures store.OtherMapsKept(old(store.remoteMap.node.maps))
    {
      var open := CheckClosed();
      if open.Err? {
        return Err(open.error);
      }
      var previous := store.Remove(key);
      r := Ok(previous.Some?);
    }

    method RemoveIfEquals(key: Value, oldValue: Value) returns (r: Result<bool>)
      modifies store, store.remoteMap.node
      ensures r == if old(isClosed) then Err(IllegalStateException) else Ok(Lookup(old(View()), key) == Some(oldValue))
      ensures r == Ok(true) ==> store.nearMap == old(store.nearMap) - {key} && store.RemoteContents() == old(store.RemoteContents()) - {key}
      ensures r != Ok(true) ==> store.nearMap == old(store.nearMap) && store.RemoteContents() == old(store.RemoteContents())
      ensures store.OtherMapsKept(old(store.remoteMap.node.maps))
    {
      var open := CheckClosed();
      if open.Err? {
        return Err(open.error);
      }
      var removed := store.RemoveIfEquals(key, oldValue);
      r := Ok(removed);
    }

    /** Answers what the near tier held; the key leaves both tiers. */
    method GetAndRemove(key: Value) returns (r: Result<Option<Value>>)
      modifies store, store.remoteMap.node
      ensures r == if old(isClosed) then Err(IllegalStateException) else Ok(Lookup(old(store.nearMap), key))
      ensures !old(isClosed) ==> store.nearMap == old(store.nearMap) - {key} && store.RemoteContents() == old(store.RemoteContents()) - {key}
      ensures old(isClosed) ==> store.nearMap == old(store.nearMap) && store.RemoteContents() == old(store.RemoteContents())
      ensures store.OtherMapsKept(old(store.remoteMap.node.maps))
    {
      var open := CheckClosed();
      if open.Err? {
        return Err(open.error);
      }
      var previous := store.Remove(key);
      r := Ok(previous);
    }

    method ReplaceIfEquals(key: Value, oldValue: Value, newValue: Value) returns (r: Result<bool>)
      modifies store.remoteMap.node
      ensures r == if old(isClosed) then Err(IllegalStateException) else Ok(Lookup(old(View()), key) == Some(oldValue))
      ensures store.RemoteContents() ==
        (if r == Ok(true) then old(store.RemoteContents())[key := newValue] else old(store.RemoteContents()))
      ensures store.OtherMapsKept(old(store.remoteMap.node.maps))
    {
      var open := CheckClosed();
      if open.Err? {
        return Err(open.error);
      }
      var replaced := store.ReplaceIfEquals(key, oldValue, newValue);
      r := Ok(replaced);
    }

    /** True exactly when the store's `replace` answers a value, that is, when the key is present. */
    method Replace(key: Value, value: Value) returns (r: Result<bool>)
      modifies store.remoteMap.node
      ensures r == if old(isClosed) then Err(IllegalStateException) else Ok(key in old(View()))
      ensures store.RemoteContents() ==
        (if r == Ok(true) then old(store.RemoteContents())[key := value] else old(store.RemoteContents()))
      ensures store.OtherMapsKept(old(store.remoteMap.node.maps))
    {
      var open := CheckClosed();
      if open.Err? {
        return Err(open.error);
      }
      var previous := store.Replace(key, value);
      r := Ok(previous.Some?);
    }

    /**
     * `computeIfPresent` on the store with a remapping that answers `value`:
     * a present key gets `value` and the answer is `value`; an absent key is
     * left alone and the answer is null.
     */
    method GetAndReplace(key: Value, value: Value) returns (r: Result<Option<Value>>)
      modifies store, store.remoteMap.node
      ensures r == if old(isClosed) then Err(IllegalStateException)
                   else Ok(if key in old(View()) then Some(value) else None)
      ensures store.nearMap == old(store.nearMap)
      ensures store.RemoteContents() ==
        (if r == Ok(Some(value)) then old(store.RemoteContents())[key := value] else old(store.RemoteContents()))
      ensures store.OtherMapsKept(old(store.remoteMap.node.maps))
    {
      var open := CheckClosed();
      if open.Err? {
        return Err(open.error);
      }
      var current := store.ComputeIfPresent(key, (k: Value, v: Value) => Some(value));
      r := Ok(current);
    }

    /** One store `remove` per key: every key leaves both tiers. */
    method RemoveAll(keys: set<Value>) returns (r: Result<()>)
      modifies store, store.remoteMap.node
      ensures r == if old(isClosed) then Err(IllegalStateException) else Ok(())
      ensures !old(isClosed) ==> store.nearMap == old(store.nearMap) - keys && store.RemoteContents() == old(store.RemoteContents()) - keys
      ensures old(isClosed) ==> store.nearMap == old(store.nearMap) && store.RemoteContents() == old(store.RemoteContents())
      ensures store.OtherMapsKept(old(store.remoteMap.node.maps))
    {
      var open := CheckClosed();
      if open.Err? {
        return Err(open.error);
      }
      var remaining := keys;
      while remaining != {}
        invariant remaining <= keys
        invariant store.nearMap == old(store.nearMap) - (keys - remaining)
        invariant store.RemoteContents() == old(store.RemoteContents()) - (keys - remaining)
        invariant store.OtherMapsKept(old(store.remoteMap.node.maps))
        decreases remaining
      {
        var k :| k in remaining;
        var _ := store.Remove(k);
        remaining := remaining - {k};
      }
      r := Ok(());
    }

    /** `removeAll()` with no keys: clears the store. */
    method RemoveAllEntries() returns (r: Result<()>)
      modifies store, store.remoteMap.node
      ensures r == if old(isClosed) then Err(IllegalStateException) else Ok(())
      ensures !old(isClosed) ==> store.nearMap == map[] && store.RemoteContents() == map[]
      ensures old(isClosed) ==> store.nearMap == old(store.nearMap) && store.RemoteContents() == old(store.RemoteContents())
      ensures store.OtherMapsKept(old(store.remoteMap.node.maps))
    {
      var open := CheckClosed();
      if open.Err? {
        return Err(open.error);
      }
      store.Clear();
      r := Ok(());
    }

    method Clear() returns (r: Result<()>)
      modifies store, store.remoteMap.node
      ensures r == if old(isClosed) then Err(IllegalStateException) else Ok(())
      ensures !old(isClosed) ==> store.nearMap == map[] && store.RemoteContents() == map[]
      ensures old(isClosed) ==> store.nearMap == old(store.nearMap) && store.RemoteContents() == old(store.RemoteContents())
      ensures store.OtherMapsKept(old(store.remoteMap.node.maps))
    {
      var open := CheckClosed();
      if open.Err? {
        return Err(open.error);
      }
      store.Clear();
      r := Ok(());
    }

    /** The store's entry set is unsupported, so an open cache cannot be iterated. */
    method Iterator() returns (r: Result<seq<(Value, Value)>>)
      ensures r == Err(if isClosed then IllegalStateException else UnsupportedOperationException)
    {
      var open := CheckClosed();
      if open.Err? {
        return Err(open.error);
      }
      var entries := store.EntrySet();
      r := Err(entries.error);
    }

    // -------------------------------------------------------------------
    // Operations without a body in the source: no closed check, no store access

    method Invoke(key: Value) returns (r: Option<Value>)
      ensures r == None
    {
      r := None;
    }

    method InvokeAll(keys: set<Value>) returns (r: map<Value, Value>)
      ensures r == map[]
    {
      r := map[];
    }

    method PutAll(m: map<Value, Value>)
    {
    }

    method LoadAll(keys: set<Value>, replaceExistingValues: bool)
    {
    }
  }

  /**
   * What building a store on registry state `s` leads to: the address of the
   * node the store binds to, or the error that stops construction.
   */
  function BindTarget(s: Registry, cluster: map<string, CacheServiceImpl>): (r: Result<string>)
    ensures s.nodes == [] ==> r == Err(IllegalStateException)
    ensures GetStubSpec(s).1.Err? ==> r == Err(GetStubSpec(s).1.error)
    ensures GetStubSpec(s).1.Ok? && GetStubSpec(s).1.value.target !in cluster ==> r == Err(Unavailable)
    ensures r.Ok? <==> GetStubSpec(s).1.Ok? && GetStubSpec(s).1.value.target in cluster
    ensures r.Ok? ==> r.value == GetStubSpec(s).1.value.target && r.value in cluster
  {
    var (_, stub) := GetStubSpec(s);
    if stub.Err? then Err(stub.error)
    else if stub.value.target !in cluster then Err(Unavailable)
    else Ok(stub.value.target)
  }

  /**
   * Construction: builds the cache's store, which fetches a stub from the
   * registry; fails as that fetch fails.
   */
  method NewCache(cacheName: string, configuration: Configuration, factory: CacheServiceGrpcFactory,
                  cluster: map<string, CacheServiceImpl>)
    returns (r: Result<IxIxCache>)
    modifies factory
    ensures factory.State() == GetStubSpec(old(factory.State())).0
    ensures var target := BindTarget(old(factory.State()), cluster);
      && (target.Err? ==> r == Err(target.error))
      && (target.Ok? ==>
            && r.Ok? && fresh(r.value) && fresh(r.value.store) && !r.value.isClosed
            && r.value.cacheName == cacheName && r.value.configuration == configuration
            && r.value.store.nearMap == map[] && r.value.store.remoteMap.mapName == cacheName
            && r.value.store.remoteMap.node == cluster[target.value])
  {
    var store := Open(cacheName, factory, cluster);
    if store.Err? {
      return Err(store.error);
    }
    var cache := new IxIxCache(cacheName, configuration, store.value);
    r := Ok(cache);
  }

  /** Whether a cache's configured types admit the requested ones; a null configured type admits any. */
  predicate Compatible(configuration: Configuration, keyType: string, valueType: string) {
    && (configuration.keyType.None? || configuration.keyType.value == keyType)
    && (configuration.valueType.None? || configuration.valueType.value == valueType)
  }

  /** The objects a manager's `close` may change: the manager, its caches, their stores and their nodes. */
  ghost function ManagerFootprint(m: IxIxCacheManager): set<object>
    reads m
  {
    {m} + m.caches.Values
    + (set c | c in m.caches.Values :: c.store)
    + (set c | c in m.caches.Values :: c.store.remoteMap.node)
  }

  /** The node keys every manager registers at construction (`LocalNodesAreKeys`). */
  const LocalNodes := ["localhost:50051", "localhost:50052", "localhost:50053"]

  /** A registry of `nodes` in order, each with a cached channel and stub, and the counter still at 0. */
  function WarmRegistry(nodes: seq<string>): Registry
    decreases |nodes|
  {
    if nodes == [] then EmptyRegistry
    else
      var w, key := WarmRegistry(nodes[..|nodes| - 1]), nodes[|nodes| - 1];
      Registry(nodes, 0, w.channels[key := NewChannel], w.stubs[key := Stub(key)])
  }

  class IxIxCacheManager {
    /** The manager's own node registry, shared by all its caches. */
    const factory: CacheServiceGrpcFactory
    /** The node servers, by address. */
    const cluster: map<string, CacheServiceImpl>
    var caches: map<string, IxIxCache>
    var isClosed: bool

    /** A closed manager holds no caches. */
    ghost predicate Valid()
      reads this
    {
      isClosed ==> caches == map[]
    }

    constructor (cluster: map<string, CacheServiceImpl>)
      ensures Valid() && !isClosed && caches == map[] && this.cluster == cluster
      ensures fresh(factory) && factory.Valid() && factory.nodes == LocalNodes
      ensures factory.State() == WarmRegistry(factory.nodes)
    {
      var f := new CacheServiceGrpcFactory();
      var p0: Int32, p1: Int32, p2: Int32 := 50051, 50052, 50053;
      var _ := f.AddNode("localhost", p0);
      var _ := f.AddNode("localhost", p1);
      var _ := f.AddNode("localhost", p2);
      assert f.nodes == LocalNodes && f.State() == WarmRegistry(f.nodes) by {
        LocalNodesReached(p0, p1, p2);
      }
      factory := f;
      this.cluster := cluster;
      caches := map[];
      isClosed := false;
    }

    /**
     * Registers a new cache under `name`: refused when the manager is closed
     * or the name is taken, and failing as the cache's construction fails.
     */
    method CreateCache(name: string, configuration: Configuration) returns (r: Result<IxIxCache>)
      requires Valid()
      modifies this, factory
      ensures Valid() && isClosed == old(isClosed)
      ensures old(isClosed) ==> r == Err(IllegalStateException) && caches == old(caches) && factory.State() == old(factory.State())
      ensures !old(isClosed) && name in old(caches) ==>
        r == Err(CacheException) && caches == old(caches) && factory.State() == old(factory.State())
      ensures !old(isClosed) && name !in old(caches) ==>
        var target := BindTarget(old(factory.State()), cluster);
        && factory.State() == GetStubSpec(old(factory.State())).0
        && (target.Err? ==> r == Err(target.error) && caches == old(caches))
        && (target.Ok? ==>
              && r.Ok? && fresh(r.value) && fresh(r.value.store) && !r.value.isClosed
              && r.value.configuration == configuration && r.value.cacheName == name
              && r.value.store.nearMap == map[] && r.value.store.remoteMap.mapName == name
              && r.value.store.remoteMap.node == cluster[target.value]
              && caches == old(caches)[name := r.value])
    {
      if isClosed {
        return Err(IllegalStateException);
      }
      if name in caches {
        return Err(CacheException);
      }
      r := NewCache(name, configuration, factory, cluster);
      if r.Ok? {
        caches := caches[name := r.value];
      }
    }

    /**
     * `getCache(name, keyType, valueType)`: the registered cache when its
     * configured types admit the requested ones, `ClassCastException` when
     * they do not, and a new cache with the default configuration when the
     * name is unknown.
     */
    method GetCache(name: string, keyType: string, valueType: string) returns (r: Result<IxIxCache>)
      requires Valid()
      modifies this, factory
      ensures Valid() && isClosed == old(isClosed)
      ensures old(isClosed) ==>
        r == Err(IllegalStateException) && caches == old(caches) && factory.State() == old(factory.State())
      ensures !old(isClosed) && name in old(caches) ==>
        && caches == old(caches) && factory.State() == old(factory.State())
        && r == (if Compatible(old(caches)[name].configuration, keyType, valueType) then Ok(old(caches)[name])
                 else Err(ClassCastException))
      ensures !old(isClosed) && name !in old(caches) ==>
        var target := BindTarget(old(factory.State()), cluster);
        && factory.State() == GetStubSpec(old(factory.State())).0
        && (target.Err? ==> r == Err(target.error) && caches == old(caches))
        && (target.Ok? ==>
              && r.Ok? && fresh(r.value) && fresh(r.value.store) && !r.value.isClosed
              && r.value.configuration == DefaultConfiguration && r.value.cacheName == name
              && r.value.store.nearMap == map[] && r.value.store.remoteMap.mapName == name
              && r.value.store.remoteMap.node == cluster[target.value]
              && caches == old(caches)[name := r.value])
    {
      if isClosed {
        return Err(IllegalStateException);
      }
      if name !in caches {
        r := CreateCache(name, DefaultConfiguration);
        return;
      }
      var cache := caches[name];
      var configuration := cache.configuration;
      if configuration.keyType.Some? && configuration.keyType.value != keyType {
        return Err(ClassCastException);
      }
      if configuration.valueType.Some? && configuration.valueType.value != valueType {
        return Err(ClassCastException);
      }
      r := Ok(cache);
    }

    /** `getCache(name)`: the registered cache, or a new one with the default configuration. */
    method GetCacheUntyped(name: string) returns (r: Result<IxIxCache>)
      requires Valid()
      modifies this, factory
      ensures Valid() && isClosed == old(isClosed)
      ensures old(isClosed) ==>
        r == Err(IllegalStateException) && caches == old(caches) && factory.State() == old(factory.State())
      ensures !old(isClosed) && name in old(caches) ==>
        r == Ok(old(caches)[name]) && caches == old(caches) && factory.State() == old(factory.State())
      ensures !old(isClosed) && name !in old(caches) ==>
        var target := BindTarget(old(factory.State()), cluster);
        && factory.State() == GetStubSpec(old(factory.State())).0
        && (target.Err? ==> r == Err(target.error) && caches == old(caches))
        && (target.Ok? ==>
              && r.Ok? && fresh(r.value) && fresh(r.value.store) && !r.value.isClosed
              && r.value.configuration == DefaultConfiguration && r.value.cacheName == name
              && r.value.store.nearMap == map[] && r.value.store.remoteMap.mapName == name
              && r.value.store.remoteMap.node == cluster[target.value]
              && caches == old(caches)[name := r.value])
    {
      if isClosed {
        return Err(IllegalStateException);
      }
      if name in caches {
        return Ok(caches[name]);
      }
      r := CreateCache(name, DefaultConfiguration);
    }

    method GetCacheNames() returns (r: Result<set<string>>)
      ensures r == if isClosed then Err(IllegalStateException) else Ok(caches.Keys)
    {
      if isClosed {
        return Err(IllegalStateException);
      }
      r := Ok(caches.Keys);
    }

    /** Unregisters `name` and closes that cache; an unknown name is skipped. */
    method DestroyCache(name: string) returns (r: Result<()>)
      requires Valid()
      modifies this, if name in caches then Footprint(caches[name]) else {}
      ensures Valid() && isClosed == old(isClosed)
      ensures old(isClosed) ==> r == Err(IllegalStateException) && caches == old(caches)
      ensures !old(isClosed) ==> r == Ok(()) && caches == old(caches) - {name}
      ensures !old(isClosed) && name in old(caches) ==>
        var c := old(caches)[name];
        && c.isClosed && c.store.nearMap == map[] && c.store.RemoteContents() == map[]
        && c.store.OtherMapsKept(old(c.store.remoteMap.node.maps))
    {
      if isClosed {
        return Err(IllegalStateException);
      }
      if name in caches {
        var cache := caches[name];
        caches := caches - {name};
        cache.Close();
      }
      r := Ok(());
    }

    /** Closes every registered cache, empties the registry and marks the manager closed; a second call does nothing. */
    method Close()
      modifies ManagerFootprint(this)
      ensures isClosed
      ensures old(isClosed) ==> unchanged(this)
      ensures !old(isClosed) ==>
        && caches == map[]
        && forall c :: c in old(caches).Values ==> c.isClosed && c.store.nearMap == map[]
    {
      if isClosed {
        return;
      }
      var remaining := caches.Values;
      while remaining != {}
        invariant remaining <= old(caches).Values
        invariant caches == old(caches) && !isClosed
        invariant forall c :: c in old(caches).Values && c !in remaining ==> c.isClosed && c.store.nearMap == map[]
        decreases remaining
      {
        var c :| c in remaining;
        c.Close();
        remaining := remaining - {c};
      }
      caches := map[];
      isClosed := true;
    }
  }

  /** A provider is never among the objects a manager's `close` may change. */
  lemma ProviderOutsideManager(p: IxIxCachingProvider, m: IxIxCacheManager)
    ensures p !in ManagerFootprint(m)
  {
  }

  /** Adding a node on `host` that the registry has never seen caches a channel and a stub for it and keeps the counter. */
  lemma AddNewNodeCaches(s: Registry, host: string, port: Int32)
    requires ':' !in host
    requires CreateKey(host, port) !in s.nodes
    requires CreateKey(host, port) !in s.channels && CreateKey(host, port) !in s.stubs
    ensures var key := CreateKey(host, port);
      AddNodeSpec(s, host, port)
        == (Registry(s.nodes + [key], s.counter, s.channels[key := NewChannel], s.stubs[key := Stub(key)]), Ok(()))
  {
    ParseKeyCreateKey(host, port);
  }

  /** Two `addNode(host, p)` calls with distinct keys lead from the empty registry to those keys, warm. */
  lemma TwoNodesReached(host: string, p0: Int32, p1: Int32)
    requires ':' !in host
    requires CreateKey(host, p0) != CreateKey(host, p1)
    ensures AddNodeSpec(AddNodeSpec(EmptyRegistry, host, p0).0, host, p1).0
      == WarmRegistry([CreateKey(host, p0), CreateKey(host, p1)])
  {
    var k0, k1 := CreateKey(host, p0), CreateKey(host, p1);
    AddWarmNode([], host, p0);
    assert [] + [k0] == [k0];
    AddWarmNode([k0], host, p1);
    assert [k0] + [k1] == [k0, k1];
  }

  /**
   * Three `addNode(host, p)` calls with distinct keys lead from the empty
   * registry to those keys in order, each with a cached channel and stub,
   * and the counter at 0.
   */
  lemma ThreeNodesReached(host: string, p0: Int32, p1: Int32, p2: Int32)
    requires ':' !in host
    requires CreateKey(host, p0) != CreateKey(host, p1)
    requires CreateKey(host, p0) != CreateKey(host, p2)
    requires CreateKey(host, p1) != CreateKey(host, p2)
    ensures var k0, k1, k2 := CreateKey(host, p0), CreateKey(host, p1), CreateKey(host, p2);
      AddNodeSpec(AddNodeSpec(AddNodeSpec(EmptyRegistry, host, p0).0, host, p1).0, host, p2).0
        == WarmRegistry([k0, k1, k2])
  {
    var k0, k1, k2 := CreateKey(host, p0), CreateKey(host, p1), CreateKey(host, p2);
    TwoNodesReached(host, p0, p1);
    AddWarmNode([k0, k1], host, p2);
    assert [k0, k1] + [k2] == [k0, k1, k2];
  }

  /** The three `addNode("localhost", p)` calls of the manager's constructor lead to the warm registry of the local nodes. */
  lemma LocalNodesReached(p0: Int32, p1: Int32, p2: Int32)
    requires p0 == 50051 && p1 == 50052 && p2 == 50053
    ensures var s := AddNodeSpec(AddNodeSpec(AddNodeSpec(EmptyRegistry, "localhost", p0).0, "localhost", p1).0, "localhost", p2).0;
      s.nodes == LocalNodes && s == WarmRegistry(s.nodes)
  {
    var ks := [CreateKey("localhost", p0), CreateKey("localhost", p1), CreateKey("localhost", p2)];
    LocalNodesAreKeys(p0, p1, p2);
    assert ks[0] != ks[1] && ks[0] != ks[2] && ks[1] != ks[2];
    ThreeNodesReached("localhost", p0, p1, p2);
    WarmKeys(ks);
  }

  /** Adding a new node to a warm registry gives the warm registry of the longer list. */
  lemma AddWarmNode(nodes: seq<string>, host: string, port: Int32)
    requires ':' !in host
    requires CreateKey(host, port) !in nodes
    ensures AddNodeSpec(WarmRegistry(nodes), host, port).0 == WarmRegistry(nodes + [CreateKey(host, port)])
  {
    var key := CreateKey(host, port);
    WarmKeys(nodes);
    AddNewNodeCaches(WarmRegistry(nodes), host, port);
    assert (nodes + [key])[..|nodes|] == nodes;
  }

  /** A warm registry caches a channel and a stub for exactly its nodes, and its counter is 0. */
  lemma {:induction false} WarmKeys(nodes: seq<string>)
    ensures WarmRegistry(nodes).nodes == nodes && WarmRegistry(nodes).counter == 0
    ensures forall k :: k in WarmRegistry(nodes).channels <==> k in nodes
    ensures forall k :: k in WarmRegistry(nodes).stubs <==> k in nodes
    decreases |nodes|
  {
    if nodes != [] {
      var init := nodes[..|nodes| - 1];
      WarmKeys(init);
      assert nodes == init + [nodes[|nodes| - 1]];
    }
  }

  /** The first cache a new manager creates binds to the first local node, when the cluster has it. */
  lemma FirstCacheBindsFirstLocalNode(cluster: map<string, CacheServiceImpl>)
    ensures BindTarget(WarmRegistry(LocalNodes), cluster) == if LocalNodes[0] in cluster then Ok(LocalNodes[0]) else Err(Unavailable)
    ensures GetStubSpec(WarmRegistry(LocalNodes)).0 == WarmRegistry(LocalNodes).(counter := 1)
  {
    assert SelectNode(LocalNodes, 0) == Ok(LocalNodes[0]);
  }

  /** Adding a new local node appends its key. */
  lemma AddLocalNode(s: Registry, port: Int32)
    requires NoDuplicates(s.nodes) && CreateKey("localhost", port) !in s.nodes
    ensures AddNodeSpec(s, "localhost", port).0.nodes == s.nodes + [CreateKey("localhost", port)]
  {
    AddNodeEffect(s, "localhost", port);
  }

  /** The key `addNode("localhost", p)` builds for a port 50050 < p < 50060. */
  lemma LocalKeyText(p: Int32)
    requires 50050 < p < 50060
    ensures CreateKey("localhost", p) == "localhost:5005" + [DigitChar(p - 50050)]
  {
    assert NatToString(5005) == "5005" by {
      assert NatToString(50) == "50";
    }
  }

  /** The local node list holds the keys `addNode("localhost", p)` builds for ports 50051, 50052 and 50053. */
  lemma LocalNodesAreKeys(p0: Int32, p1: Int32, p2: Int32)
    requires p0 == 50051 && p1 == 50052 && p2 == 50053
    ensures LocalNodes == [CreateKey("localhost", p0), CreateKey("localhost", p1), CreateKey("localhost", p2)]
  {
    LocalKeyText(p0);
    LocalKeyText(p1);
    LocalKeyText(p2);
    assert DigitChar(p0 - 50050) == '1' && DigitChar(p1 - 50050) == '2' && DigitChar(p2 - 50050) == '3';
    assert "localhost:5005" + ['1'] == LocalNodes[0];
    assert "localhost:5005" + ['2'] == LocalNodes[1];
    assert "localhost:5005" + ['3'] == LocalNodes[2];
  }

  // ---------------------------------------------------------------------
  // The provider

  type Uri = string
  /** A class loader, by identity. */
  type ClassLoaderId = string

  /** The provider's default URI. */
  const CacheProviderUri: Uri := "ixix://cache"

  /** `createIfNull(x, supplier)`: `x` unless it is null, and then what the supplier gives. */
  function CreateIfNull<T>(x: Option<T>, supplied: T): (r: T)
    ensures x.Some? ==> r == x.value
    ensures x.None? ==> r == supplied
  {
    if x.Some? then x.value else supplied
  }

  /** No optional feature is supported. */
  function IsSupported(feature: string): (r: bool)
    ensures !r
  {
    false
  }

  /** The managers of one class loader, empty when it has none. */
  function ManagersOf(managers: map<ClassLoaderId, map<Uri, IxIxCacheManager>>, cl: ClassLoaderId): map<Uri, IxIxCacheManager> {
    if cl in managers then managers[cl] else map[]
  }

  class IxIxCachingProvider {
    const cluster: map<string, CacheServiceImpl>
    var cacheManagers: map<ClassLoaderId, map<Uri, IxIxCacheManager>>

    /** No class loader is kept with an empty table of managers. */
    ghost predicate Valid()
      reads this
    {
      forall cl :: cl in cacheManagers ==> cacheManagers[cl] != map[]
    }

    constructor (cluster: map<string, CacheServiceImpl>)
      ensures Valid() && cacheManagers == map[] && this.cluster == cluster
    {
      this.cluster := cluster;
      cacheManagers := map[];
    }

    /**
     * The manager memoised for (class loader, URI), created on first request;
     * a null URI stands for the default one and a null class loader is
     * refused with `NullPointerException`.
     */
    method GetCacheManager(uri: Option<Uri>, classLoader: Option<ClassLoaderId>) returns (r: Result<IxIxCacheManager>)
      requires Valid()
      modifies this
      ensures Valid()
      ensures classLoader.None? ==> r == Err(NullPointerException) && cacheManagers == old(cacheManagers)
      ensures classLoader.Some? ==>
        var cl, u := classLoader.value, CreateIfNull(uri, CacheProviderUri);
        && r.Ok? && cl in cacheManagers && u in cacheManagers[cl] && cacheManagers[cl][u] == r.value
        && (u in ManagersOf(old(cacheManagers), cl) ==>
              r.value == old(cacheManagers)[cl][u] && cacheManagers == old(cacheManagers))
        && (u !in ManagersOf(old(cacheManagers), cl) ==>
              && fresh(r.value) && !r.value.isClosed && r.value.caches == map[] && r.value.Valid()
              && r.value.cluster == cluster && fresh(r.value.factory) && r.value.factory.Valid()
              && r.value.factory.nodes == LocalNodes && r.value.factory.State() == WarmRegistry(LocalNodes)
              && cacheManagers == old(cacheManagers)[cl := ManagersOf(old(cacheManagers), cl)[u := r.value]])
    {
      if classLoader.None? {
        return Err(NullPointerException);
      }
      var cl := classLoader.value;
      var managers := ManagersOf(cacheManagers, cl);
      cacheManagers := cacheManagers[cl := managers];
      var u := CreateIfNull(uri, CacheProviderUri);
      if u in managers {
        return Ok(managers[u]);
      }
      var manager := new IxIxCacheManager(cluster);
      cacheManagers := cacheManagers[cl := managers[u := manager]];
      r := Ok(manager);
    }

    /**
     * `close(uri, classLoader)`: unregisters and closes that manager and
     * drops the class loader once it has no managers left; an unknown class
     * loader or URI changes nothing.
     */
    method Close(uri: Option<Uri>, classLoader: Option<ClassLoaderId>) returns (r: Result<()>)
      requires Valid()
      modifies this,
        if classLoader.Some? && uri.Some? && uri.value in ManagersOf(cacheManagers, classLoader.value)
        then ManagerFootprint(cacheManagers[classLoader.value][uri.value]) else {}
      ensures Valid()
      ensures classLoader.None? ==> r == Err(NullPointerException) && cacheManagers == old(cacheManagers)
      ensures classLoader.Some? && classLoader.value !in old(cacheManagers) ==>
        r == Ok(()) && cacheManagers == old(cacheManagers)
      ensures classLoader.Some? && classLoader.value in old(cacheManagers) && uri.None? ==>
        r == Err(NullPointerException) && cacheManagers == old(cacheManagers)
      ensures classLoader.Some? && classLoader.value in old(cacheManagers) && uri.Some? ==>
        var cl, u := classLoader.value, uri.value;
        var rest := old(cacheManagers)[cl] - {u};
        && r == Ok(())
        && cacheManagers == (if rest == map[] then old(cacheManagers) - {cl} else old(cacheManagers)[cl := rest])
        && (u in old(cacheManagers)[cl] ==>
              var m := old(cacheManagers)[cl][u];
              && m.isClosed
              && (old(m.isClosed) ==> m.caches == old(m.caches))
              && (!old(m.isClosed) ==>
                    && m.caches == map[]
                    && forall c :: c in old(m.caches).Values ==> c.isClosed && c.store.nearMap == map[]))
    {
      if classLoader.None? {
        return Err(NullPointerException);
      }
      var cl := classLoader.value;
      if cl !in cacheManagers {
        return Ok(());
      }
      if uri.None? {
        return Err(NullPointerException);
      }
      var managers := cacheManagers[cl];
      var u := uri.value;
      var rest := managers - {u};
      cacheManagers := if rest == map[] then cacheManagers - {cl} else cacheManagers[cl := rest];
      if u in managers {
        ProviderOutsideManager(this, managers[u]);
        managers[u].Close();
      }
      r := Ok(());
    }
  }

  /** Asking twice for the same (class loader, URI) yields the same manager. */
  method SameManagerTwice(provider: IxIxCachingProvider, uri: Option<Uri>, classLoader: ClassLoaderId)
    returns (first: IxIxCacheManager, second: IxIxCacheManager)
    requires provider.Valid()
    modifies provider
    ensures first == second
  {
    var r1 := provider.GetCacheManager(uri, Some(classLoader));
    var r2 := provider.GetCacheManager(uri, Some(classLoader));
    first, second := r1.value, r2.value;
  }
}

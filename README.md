# ixix-cache, modelled in Dafny

ixix-cache is a distributed key/value cache behind the JCache (JSR-107) API.
A client library registers cache nodes by `host:port` and picks one per cache
in round robin. It wraps each cache in a two-tier store: a near map in the
client process and a remote map on the chosen node. A background health check
evicts nodes whose connection has failed. Each node serves any number of
named maps over RPC. A demo web application derives cache keys from the
handler's mapping annotations, the session and selected request attributes.

The model covers these parts:

- **Node server** (`CacheNode`). The maps as a `map<string, map<Value, Value>>`
  field of a class. Each RPC handler is a method proved against a
  specification function of the old state.
- **Wire encoding** (`Codec`). A concrete, invertible stand-in for the
  serializer, so that round trips are proved, not assumed.
- **Node keys** (`NodeKeys`). `Integer.toString`, `String.split` and
  `Integer.parseInt` written out, so the registry's `host:port` round
  trip can be proved where it holds and refuted where it does not.
- **Registry** (`GrpcFactory`, `HealthCheck`). Node list, round-robin
  counter with 32-bit wrap-around, channel and stub caches, and the two
  health-check loops.
- **Remote map** (`Remote`). Each `Map` operation as an RPC against the
  node's map named after the cache, with its visible result and its effect
  on that map.
- **Two-tier store** (`TwoTier`). Near map plus remote map, including the
  JDK `Map` default methods the store inherits.
- **JCache layer** (`Jcache`). Cache, cache manager and caching provider as
  classes over the store.
- **Key generators** (`KeyGenerators`). Pure functions from annotation and
  request records to raw keys.

Values are text (`Value = string`): the remote map stores what the client's
JSON mapper produces. The digest of a raw key (`md5Hex`) is a function
parameter.

Behaviours the source has and the model exhibits, each proved as a lemma:

- A host containing `:` breaks the `host:port` round trip. With
  `::1`, `addNode` registers the node and then throws. With `a:5`
  beside a node `a` on port 5, a health pass removes the healthy node `a:5`
  while checking `a:5:80` (`GrpcFactory.HealthPassEvictsHealthyNode`).
  The pass that removes by key keeps exactly the healthy nodes
  (`GrpcFactory.ByKeyPassKeepsExactlyHealthy`).
- After 2^31 calls the round-robin counter reaches `Integer.MIN_VALUE`.
  `Math.abs` leaves it negative, and `getStub` fails with an index out of
  bounds whenever the node count does not divide 2^31, for example with 3
  nodes; with 1, 2, 4, ... nodes the remainder is 0 and node 0 is picked
  (`GrpcFactory.SelectIndexFailsAtMinValue`). A floor-modulo
  selection agrees with the source wherever the counter is non-negative and
  never fails (`GrpcFactory.FloorModIndexAgrees`).
- `getAll` on a node answers only the keys it is asked for. The remote
  map's `keySet`, `values` and `entrySet` send no keys, so they are
  always empty. `containsValue` is always false.
- The store's `putIfAbsent` is the JDK default over a `put` that returns
  the value it stores, so it never returns null. `IxIxCache.putIfAbsent`
  therefore always answers false.
- A class-level request mapping that sets only `value` makes the endpoint
  key generator throw `ArrayIndexOutOfBoundsException`
  (`KeyGenerators.ValueOnlyClassMappingThrows`).

## Model

| member | source | states |
|---|---|---|
| Codec.Encode | cache_lib/src/main/java/dev/ixixpercent/cache/store/remote/RemoteCache.java:62-72 | an encoded value is a type tag followed by three bytes per character |
| Codec.DecodeEncode | cache_lib/src/main/java/dev/ixixpercent/cache/store/remote/RemoteCache.java:62-84 | decoding an encoded value gives the value back |
| Codec.EncodeDecode | cache_lib/src/main/java/dev/ixixpercent/cache/store/remote/RemoteCache.java:62-84 | bytes that decode are exactly the encoding of what they decode to |
| Codec.EncodeInjective | cache_node/src/main/java/dev/ixixpercent/cache/node/CacheServiceImpl.java:85-93 | distinct values have distinct encodings, so distinct client keys stay distinct keys on the node |
| NodeKeys.ParseIntToString | cache_lib/src/main/java/dev/ixixpercent/cache/connector/CacheServiceGrpcFactory.java:186-188 | `parseInt` reads back `Integer.toString` of every int |
| NodeKeys.IntToStringShape | cache_lib/src/main/java/dev/ixixpercent/cache/connector/CacheServiceGrpcFactory.java:145-147 | the port text is non-empty and contains no ':' |
| NodeKeys.SplitCreateKey | cache_lib/src/main/java/dev/ixixpercent/cache/connector/CacheServiceGrpcFactory.java:155-159 | splitting the key of a colon-free host on ':' gives exactly the host and the port text |
| NodeKeys.ParseKeyCreateKey | cache_lib/src/main/java/dev/ixixpercent/cache/connector/CacheServiceGrpcFactory.java:155-159 | host and port are recovered from the key of a colon-free host |
| NodeKeys.CreateKeyInjective | cache_lib/src/main/java/dev/ixixpercent/cache/connector/CacheServiceGrpcFactory.java:145-147 | distinct colon-free nodes have distinct keys |
| NodeKeys.ParseKeyMisreadsColonHost | cache_lib/src/main/java/dev/ixixpercent/cache/connector/CacheServiceGrpcFactory.java:186-188 | the key of host "a:5", port 80 reads back as host "a", port 5, the key of another node |
| NodeKeys.ParseKeyRejectsIpv6Host | cache_lib/src/main/java/dev/ixixpercent/cache/connector/CacheServiceGrpcFactory.java:155-159 | the key of host "::1" reads back as NumberFormatException |
| GrpcFactory.CacheServiceGrpcFactory.constructor | cache_lib/src/main/java/dev/ixixpercent/cache/connector/CacheServiceGrpcFactory.java:23-44 | a new factory has no nodes, counter 0 and empty caches |
| GrpcFactory.CacheServiceGrpcFactory.AddNode | cache_lib/src/main/java/dev/ixixpercent/cache/connector/CacheServiceGrpcFactory.java:52-62 | state and outcome are those of AddNodeSpec; the node list stays duplicate-free |
| GrpcFactory.AddNodeEffect | cache_lib/src/main/java/dev/ixixpercent/cache/connector/CacheServiceGrpcFactory.java:52-62 | a known key changes nothing; a new key is appended; for a colon-free host its stub (and channel) are cached |
| GrpcFactory.AddNodeIpv6HostThrows | cache_lib/src/main/java/dev/ixixpercent/cache/connector/CacheServiceGrpcFactory.java:52-62 | adding host "::1" registers the key and then throws NumberFormatException |
| GrpcFactory.CacheServiceGrpcFactory.RemoveNode | cache_lib/src/main/java/dev/ixixpercent/cache/connector/CacheServiceGrpcFactory.java:70-79 | the new state is RemoveNodeSpec of the old one; the list stays duplicate-free |
| GrpcFactory.RemoveNodeEffect | cache_lib/src/main/java/dev/ixixpercent/cache/connector/CacheServiceGrpcFactory.java:70-79 | a present key leaves the list (one shorter, others kept) and its channel and stub are dropped; an absent key changes nothing |
| GrpcFactory.RemoveNodeIdempotent | cache_lib/src/main/java/dev/ixixpercent/cache/connector/CacheServiceGrpcFactory.java:70-79 | removing the same node twice is removing it once |
| GrpcFactory.RemoveFirstPresent | cache_lib/src/main/java/dev/ixixpercent/cache/connector/CacheServiceGrpcFactory.java:72 | list removal of a present element of a duplicate-free list removes exactly it |
| GrpcFactory.CacheServiceGrpcFactory.GetStub | cache_lib/src/main/java/dev/ixixpercent/cache/connector/CacheServiceGrpcFactory.java:87-99 | state and outcome are those of GetStubSpec; the node list is unchanged |
| GrpcFactory.GetStubEffect | cache_lib/src/main/java/dev/ixixpercent/cache/connector/CacheServiceGrpcFactory.java:87-99 | IllegalStateException exactly on an empty list; otherwise the counter advances and the list is kept; a cached stub of the selected node is returned; an uncached node whose key round-trips gets a new stub for its key, cached with a channel; an unparsable key or an out-of-range index fails the call |
| GrpcFactory.SelectIndex | cache_lib/src/main/java/dev/ixixpercent/cache/connector/CacheServiceGrpcFactory.java:93 | a selected index is within the list |
| GrpcFactory.SelectIndexNonNegative | cache_lib/src/main/java/dev/ixixpercent/cache/connector/CacheServiceGrpcFactory.java:93 | for a non-negative counter the index is the counter modulo the list size |
| GrpcFactory.SelectionsInOrder | cache_lib/src/main/java/dev/ixixpercent/cache/connector/CacheServiceGrpcFactory.java:87-99 | m successive calls select nodes c, c+1, ... modulo the size |
| GrpcFactory.RoundRobinCycle | cache_lib/src/main/java/dev/ixixpercent/cache/connector/CacheServiceGrpcFactory.java:87-99 | n successive calls over n nodes visit every node exactly once, as a rotation of the list |
| GrpcFactory.SelectIndexFailsAtMinValue | cache_lib/src/main/java/dev/ixixpercent/cache/connector/CacheServiceGrpcFactory.java:93 | the counter wraps from MAX_VALUE to MIN_VALUE, where the selection fails with an index out of bounds exactly when the node count does not divide 2^31, and picks node 0 when it does |
| GrpcFactory.FloorModIndex | cache_lib/src/main/java/dev/ixixpercent/cache/connector/CacheServiceGrpcFactory.java:93 | a floor-modulo selection is always within the list |
| GrpcFactory.FloorModIndexAgrees | cache_lib/src/main/java/dev/ixixpercent/cache/connector/CacheServiceGrpcFactory.java:93 | the floor-modulo selection agrees with the source's for every non-negative counter |
| GrpcFactory.CacheServiceGrpcFactory.InvalidateNode | cache_lib/src/main/java/dev/ixixpercent/cache/connector/CacheServiceGrpcFactory.java:107-122 | only the node's channel and stub entries are dropped |
| GrpcFactory.CacheServiceGrpcFactory.ShutdownAllChannels | cache_lib/src/main/java/dev/ixixpercent/cache/connector/CacheServiceGrpcFactory.java:127-136 | nodes, channels and stubs are all emptied |
| GrpcFactory.CacheServiceGrpcFactory.GetStubFromCache | cache_lib/src/main/java/dev/ixixpercent/cache/connector/CacheServiceGrpcFactory.java:155-161 | a cached stub is reused; otherwise the key is parsed and a stub on its channel is cached, or the parse error is returned |
| GrpcFactory.CacheServiceGrpcFactory.GetChannel | cache_lib/src/main/java/dev/ixixpercent/cache/connector/CacheServiceGrpcFactory.java:170-177 | the node's channel is created once and then reused |
| GrpcFactory.CacheServiceGrpcFactory.GetNodes | cache_lib/src/main/java/dev/ixixpercent/cache/connector/HealthChecker.java:34 | returns the node list |
| GrpcFactory.CacheServiceGrpcFactory.GetChannelFromCache | cache_lib/src/main/java/dev/ixixpercent/cache/connector/HealthChecker.java:39 | returns the cached channel of the key, if any |
| GrpcFactory.CacheServiceGrpcFactory.PerformHealthChecks | cache_lib/src/main/java/dev/ixixpercent/cache/connector/CacheServiceGrpcFactory.java:183-217 | the new state is the factory's health pass over the node list as it was at the start |
| GrpcFactory.CacheServiceGrpcFactory.CheckOneNode | cache_lib/src/main/java/dev/ixixpercent/cache/connector/CacheServiceGrpcFactory.java:186-215 | one node's check: parse, look up the channel, remove on a bad verdict |
| GrpcFactory.RemoveKeyShrinks | cache_lib/src/main/java/dev/ixixpercent/cache/connector/CacheServiceGrpcFactory.java:70-79 | removing a node only removes nodes, channels and stubs and keeps the counter |
| GrpcFactory.CheckNodeOnlyRemoves | cache_lib/src/main/java/dev/ixixpercent/cache/connector/CacheServiceGrpcFactory.java:186-215 | checking one node never adds a node, channel or stub |
| GrpcFactory.HealthPassOnlyRemoves | cache_lib/src/main/java/dev/ixixpercent/cache/connector/CacheServiceGrpcFactory.java:183-217 | a whole pass never adds a node, channel or stub and keeps the list duplicate-free |
| GrpcFactory.HealthPassStopsAtFailure | cache_lib/src/main/java/dev/ixixpercent/cache/connector/CacheServiceGrpcFactory.java:185-188 | an exception escaping a step (a key that does not parse) ends the pass, later nodes unchecked |
| GrpcFactory.CheckNodeMissingContinueHarmless | cache_lib/src/main/java/dev/ixixpercent/cache/connector/CacheServiceGrpcFactory.java:192-195 | the factory's missing `continue` after removing a node with no channel changes nothing for that node |
| GrpcFactory.HealthPassMissingContinueHarmless | cache_lib/src/main/java/dev/ixixpercent/cache/connector/CacheServiceGrpcFactory.java:183-217 | the factory's pass and the checker's pass have the same outcome |
| GrpcFactory.CheckNodeOnRoundTrippingKey | cache_lib/src/main/java/dev/ixixpercent/cache/connector/HealthChecker.java:35-42 | for a key that round-trips, removal by parsed host and port is removal by key |
| GrpcFactory.ByKeyPassKeepsExactlyHealthy | cache_lib/src/main/java/dev/ixixpercent/cache/connector/CacheServiceGrpcFactory.java:183-217 | a pass removing by key completes and keeps exactly the healthy nodes, in order |
| GrpcFactory.CheckerPassIsByKeyPass | cache_lib/src/main/java/dev/ixixpercent/cache/connector/HealthChecker.java:32-62 | over round-tripping keys the checker's pass is the pass by key |
| GrpcFactory.HealthPassKeepsExactlyHealthy | cache_lib/src/main/java/dev/ixixpercent/cache/connector/HealthChecker.java:32-62 | with well-formed keys both passes complete and keep exactly the healthy nodes |
| GrpcFactory.ColonHostRegistryReached | cache_lib/src/main/java/dev/ixixpercent/cache/connector/CacheServiceGrpcFactory.java:52-62 | adding "a":5 then "a:5":80 reaches the registry of the next lemma |
| GrpcFactory.HealthPassEvictsHealthyNode | cache_lib/src/main/java/dev/ixixpercent/cache/connector/HealthChecker.java:35-42 | with nodes "a:5" (healthy) and "a:5:80" (unhealthy), the pass removes "a:5" and keeps "a:5:80"; the pass by key keeps "a:5" |
| HealthCheck.HealthChecker.constructor | cache_lib/src/main/java/dev/ixixpercent/cache/connector/HealthChecker.java:22-25 | the checker takes the builder's factory and interval |
| HealthCheck.HealthChecker.PerformHealthChecks | cache_lib/src/main/java/dev/ixixpercent/cache/connector/HealthChecker.java:32-62 | the new registry state is the checker's health pass over the node list |
| HealthCheck.HealthChecker.CheckOneNode | cache_lib/src/main/java/dev/ixixpercent/cache/connector/HealthChecker.java:35-60 | one node's check: a missing or shut-down channel or a failing probe removes the node, a live state keeps it |
| HealthCheck.HealthChecker.StartPeriodicHealthChecks | cache_lib/src/main/java/dev/ixixpercent/cache/connector/HealthChecker.java:68-76 | a non-positive interval is refused with IllegalArgumentException; otherwise checks are started |
| HealthCheck.Builder.constructor | cache_lib/src/main/java/dev/ixixpercent/cache/connector/HealthChecker.java:83-85 | no factory, interval 60 seconds |
| HealthCheck.Builder.WithFactory | cache_lib/src/main/java/dev/ixixpercent/cache/connector/HealthChecker.java:94-97 | sets the factory, keeps the interval, returns the builder |
| HealthCheck.Builder.WithCheckIntervalSeconds | cache_lib/src/main/java/dev/ixixpercent/cache/connector/HealthChecker.java:105-108 | sets the interval, keeps the factory, returns the builder |
| HealthCheck.Builder.Build | cache_lib/src/main/java/dev/ixixpercent/cache/connector/HealthChecker.java:116-121 | IllegalStateException exactly when no factory was given; otherwise an unstarted checker with the builder's settings |
| HealthCheck.Builder.BuildAndStart | cache_lib/src/main/java/dev/ixixpercent/cache/connector/HealthChecker.java:129-137 | the same checks as Build, then the checker is started |
| HealthCheck.DefaultBuilderStartsEveryMinute | cache_lib/src/main/java/dev/ixixpercent/cache/connector/HealthChecker.java:85 | a builder given only a factory starts a checker running every 60 seconds |
| CacheNode.Touch | cache_node/src/main/java/dev/ixixpercent/cache/node/CacheServiceImpl.java:60-63 | looking up a map creates it empty when missing and keeps every other map |
| CacheNode.CacheServiceImpl.constructor | cache_node/src/main/java/dev/ixixpercent/cache/node/CacheServiceImpl.java:35 | a new node has no maps |
| CacheNode.CacheServiceImpl.GetMap | cache_node/src/main/java/dev/ixixpercent/cache/node/CacheServiceImpl.java:60-63 | returns the named map as it was, creating it if missing |
| CacheNode.CacheServiceImpl.Get | cache_node/src/main/java/dev/ixixpercent/cache/node/CacheServiceImpl.java:66-82 | the reply and the new maps are those of GetSpec |
| CacheNode.PutSpec | cache_node/src/main/java/dev/ixixpercent/cache/node/CacheServiceImpl.java:85-98 | only the named map can change; the reply is an error exactly when key or value does not decode |
| CacheNode.CacheServiceImpl.Put | cache_node/src/main/java/dev/ixixpercent/cache/node/CacheServiceImpl.java:85-98 | the reply and the new maps are those of PutSpec |
| CacheNode.RemoveSpec | cache_node/src/main/java/dev/ixixpercent/cache/node/CacheServiceImpl.java:101-111 | only the named map can change; the reply is an error exactly when the key does not decode |
| CacheNode.CacheServiceImpl.Remove | cache_node/src/main/java/dev/ixixpercent/cache/node/CacheServiceImpl.java:101-111 | the reply and the new maps are those of RemoveSpec |
| CacheNode.CacheServiceImpl.ContainsKey | cache_node/src/main/java/dev/ixixpercent/cache/node/CacheServiceImpl.java:114-124 | the reply and the new maps are those of ContainsKeySpec |
| CacheNode.CacheServiceImpl.Size | cache_node/src/main/java/dev/ixixpercent/cache/node/CacheServiceImpl.java:127-136 | the map's size, capped at the largest int |
| CacheNode.CacheServiceImpl.IsEmpty | cache_node/src/main/java/dev/ixixpercent/cache/node/CacheServiceImpl.java:139-148 | whether the named map is empty |
| CacheNode.ClearSpec | cache_node/src/main/java/dev/ixixpercent/cache/node/CacheServiceImpl.java:151-160 | clearing a map keeps every other map |
| CacheNode.CacheServiceImpl.Clear | cache_node/src/main/java/dev/ixixpercent/cache/node/CacheServiceImpl.java:151-160 | the new maps are those of ClearSpec |
| CacheNode.CacheServiceImpl.PutAll | cache_node/src/main/java/dev/ixixpercent/cache/node/CacheServiceImpl.java:163-176 | the reply and the new maps are those of PutAllSpec |
| CacheNode.CacheServiceImpl.GetAll | cache_node/src/main/java/dev/ixixpercent/cache/node/CacheServiceImpl.java:179-204 | the reply and the new maps are those of GetAllSpec |
| CacheNode.GetAfterPut | cache_node/src/main/java/dev/ixixpercent/cache/node/CacheServiceImpl.java:66-98 | after putting a value, `get` of that key answers it |
| CacheNode.PutKeepsOtherKeys | cache_node/src/main/java/dev/ixixpercent/cache/node/CacheServiceImpl.java:85-98 | a put leaves every other key's answer unchanged |
| CacheNode.RemoveThenGet | cache_node/src/main/java/dev/ixixpercent/cache/node/CacheServiceImpl.java:66-111 | after a remove, `get` of that key answers nothing; removing an absent key only creates the map |
| CacheNode.ContainsKeyAgreesWithGet | cache_node/src/main/java/dev/ixixpercent/cache/node/CacheServiceImpl.java:66-124 | `containsKey` answers true, false or an error exactly as `get` answers a value, nothing or an error |
| CacheNode.ClearThenSize | cache_node/src/main/java/dev/ixixpercent/cache/node/CacheServiceImpl.java:127-160 | after a clear, size is 0 and isEmpty is true |
| CacheNode.SizeAgreesWithIsEmpty | cache_node/src/main/java/dev/ixixpercent/cache/node/CacheServiceImpl.java:127-148 | size is 0 exactly when isEmpty is true |
| CacheNode.EncodeEntries | cache_lib/src/main/java/dev/ixixpercent/cache/store/remote/RemoteCache.java:145-157 | one request entry per pair, in order, with encoded key and value |
| CacheNode.PutEntriesLastWins | cache_node/src/main/java/dev/ixixpercent/cache/node/CacheServiceImpl.java:163-176 | a bulk put of encoded pairs succeeds and stores, per key, the last value given; other keys keep theirs |
| CacheNode.PutEntriesStopsAtFailure | cache_node/src/main/java/dev/ixixpercent/cache/node/CacheServiceImpl.java:167-171 | an entry that does not decode ends the bulk put, with the entries before it already stored |
| CacheNode.GetEntriesExact | cache_node/src/main/java/dev/ixixpercent/cache/node/CacheServiceImpl.java:179-204 | a bulk get answers, in request order, one entry per requested key that has a value, with the key echoed and its stored value (equal to the front-first reference `Hits`); the entries are exactly those keys |
| CacheNode.GetEntriesOfMisses | cache_node/src/main/java/dev/ixixpercent/cache/node/CacheServiceImpl.java:185-199 | requested keys none of which has a value get an empty reply |
| CacheNode.GetEntriesStopsAtFailure | cache_node/src/main/java/dev/ixixpercent/cache/node/CacheServiceImpl.java:185-188 | a key that does not decode fails the whole bulk get |
| Remote.Write | cache_lib/src/main/java/dev/ixixpercent/cache/store/remote/RemoteCache.java:290-316 | writing Some(v) stores v, writing None removes the key, other keys keep their values |
| Remote.Seconds | cache_lib/src/main/java/dev/ixixpercent/cache/store/remote/RemoteCache.java:176-184 | the values of the pairs, in order |
| Remote.KeysOfEncoded | cache_lib/src/main/java/dev/ixixpercent/cache/store/remote/RemoteCache.java:165-173 | decoding the keys of an encoded bulk reply gives the set of the pairs' keys |
| Remote.ValuesOfEncoded | cache_lib/src/main/java/dev/ixixpercent/cache/store/remote/RemoteCache.java:176-184 | decoding the values of an encoded bulk reply gives the pairs' values in reply order |
| Remote.PairsOfEncoded | cache_lib/src/main/java/dev/ixixpercent/cache/store/remote/RemoteCache.java:187-197 | decoding the entries of an encoded bulk reply gives the set of the pairs |
| Remote.DecodeKeys | cache_lib/src/main/java/dev/ixixpercent/cache/store/remote/RemoteCache.java:165-173 | the loop computes KeysOf of the reply |
| Remote.DecodeValues | cache_lib/src/main/java/dev/ixixpercent/cache/store/remote/RemoteCache.java:176-184 | the loop computes ValuesOf of the reply |
| Remote.DecodePairs | cache_lib/src/main/java/dev/ixixpercent/cache/store/remote/RemoteCache.java:187-197 | the loop computes PairsOf of the reply |
| Remote.KeysOfStopsAtFailure | cache_lib/src/main/java/dev/ixixpercent/cache/store/remote/RemoteCache.java:169-171 | an entry whose key does not decode fails the whole keySet |
| Remote.ValuesOfStopsAtFailure | cache_lib/src/main/java/dev/ixixpercent/cache/store/remote/RemoteCache.java:180-182 | an entry whose value does not decode fails the whole values |
| Remote.PairsOfStopsAtFailure | cache_lib/src/main/java/dev/ixixpercent/cache/store/remote/RemoteCache.java:191-195 | an entry that does not decode fails the whole entrySet |
| Remote.StoredEntriesOfMap | cache_lib/src/main/java/dev/ixixpercent/cache/store/remote/RemoteCache.java:145-157 | a bulk put of a map's entries leaves the remote map as the old one overridden by that map |
| Remote.RemoteCache.constructor | cache_lib/src/main/java/dev/ixixpercent/cache/store/remote/RemoteCache.java:48-58 | the remote map is bound to its name and its node |
| Remote.RemoteCache.Size | cache_lib/src/main/java/dev/ixixpercent/cache/store/remote/RemoteCache.java:87-89 | the remote map's size, capped at the largest int; nothing else changes |
| Remote.RemoteCache.IsEmpty | cache_lib/src/main/java/dev/ixixpercent/cache/store/remote/RemoteCache.java:92-94 | whether the remote map is empty |
| Remote.RemoteCache.ContainsKey | cache_lib/src/main/java/dev/ixixpercent/cache/store/remote/RemoteCache.java:97-105 | whether the key is in the remote map |
| Remote.RemoteCache.Get | cache_lib/src/main/java/dev/ixixpercent/cache/store/remote/RemoteCache.java:114-121 | the key's value in the remote map, or nothing |
| Remote.RemoteCache.Put | cache_lib/src/main/java/dev/ixixpercent/cache/store/remote/RemoteCache.java:124-133 | stores the value and returns it (not the previous value) |
| Remote.RemoteCache.Remove | cache_lib/src/main/java/dev/ixixpercent/cache/store/remote/RemoteCache.java:136-142 | removes the key and returns nothing (not the previous value) |
| Remote.RemoteCache.PutAll | cache_lib/src/main/java/dev/ixixpercent/cache/store/remote/RemoteCache.java:145-157 | the remote map becomes the old one overridden by the given map |
| Remote.RemoteCache.Clear | cache_lib/src/main/java/dev/ixixpercent/cache/store/remote/RemoteCache.java:160-162 | the remote map becomes empty, other maps of the node are kept |
| Remote.RemoteCache.KeySet | cache_lib/src/main/java/dev/ixixpercent/cache/store/remote/RemoteCache.java:165-173 | always empty, since the bulk request names no keys |
| Remote.RemoteCache.Values | cache_lib/src/main/java/dev/ixixpercent/cache/store/remote/RemoteCache.java:176-184 | always empty, for the same reason |
| Remote.RemoteCache.EntrySet | cache_lib/src/main/java/dev/ixixpercent/cache/store/remote/RemoteCache.java:187-197 | always empty, for the same reason |
| Remote.RemoteCache.ContainsValue | cache_lib/src/main/java/dev/ixixpercent/cache/store/remote/RemoteCache.java:108-111 | always false |
| Remote.RemoteCache.GetOrDefault | cache_lib/src/main/java/dev/ixixpercent/cache/store/remote/RemoteCache.java:200-203 | the stored value, else the default |
| Remote.RemoteCache.PutIfAbsent | cache_lib/src/main/java/dev/ixixpercent/cache/store/remote/RemoteCache.java:223-229 | returns the previous value; stores only when the key was absent |
| Remote.RemoteCache.RemoveIfEquals | cache_lib/src/main/java/dev/ixixpercent/cache/store/remote/RemoteCache.java:232-238 | removes exactly when the key holds the given value, and says so |
| Remote.RemoteCache.ReplaceIfEquals | cache_lib/src/main/java/dev/ixixpercent/cache/store/remote/RemoteCache.java:241-247 | replaces exactly when the key holds the old value, and says so |
| Remote.RemoteCache.Replace | cache_lib/src/main/java/dev/ixixpercent/cache/store/remote/RemoteCache.java:250-256 | replaces only a present key, returning the new value, else nothing |
| Remote.RemoteCache.ComputeIfAbsent | cache_lib/src/main/java/dev/ixixpercent/cache/store/remote/RemoteCache.java:259-270 | a present key keeps its value; an absent one gets the function's non-null result |
| Remote.RemoteCache.ComputeIfPresent | cache_lib/src/main/java/dev/ixixpercent/cache/store/remote/RemoteCache.java:273-287 | an absent key is untouched; a present one is rewritten, or removed on a null result |
| Remote.RemoteCache.Compute | cache_lib/src/main/java/dev/ixixpercent/cache/store/remote/RemoteCache.java:290-301 | the key is written with the function's result on the current value; null removes |
| Remote.RemoteCache.Merge | cache_lib/src/main/java/dev/ixixpercent/cache/store/remote/RemoteCache.java:304-316 | the given value, or the function's merge with the current one, is written; null removes |
| Remote.Connect | cache_lib/src/main/java/dev/ixixpercent/cache/store/remote/RemoteCache.java:48-58 | constructing a remote map takes one stub from the registry and fails as that fetch fails |
| TwoTier.TierLookup | cache_lib/src/main/java/dev/ixixpercent/cache/store/CacheStoreManager.java:51-59 | the near value wins over the remote one; nothing exactly when neither tier has the key |
| TwoTier.ValuesOfOrder | cache_lib/src/main/java/dev/ixixpercent/cache/store/CacheStoreManager.java:101-105 | listing a map's values along an enumeration of its keys gives exactly its values |
| TwoTier.CacheStoreManager.constructor | cache_lib/src/main/java/dev/ixixpercent/cache/store/CacheStoreManager.java:20-26 | a new store has an empty near map over the given remote map |
| TwoTier.CacheStoreManager.Size | cache_lib/src/main/java/dev/ixixpercent/cache/store/CacheStoreManager.java:29-33 | the size of the near map only |
| TwoTier.CacheStoreManager.IsEmpty | cache_lib/src/main/java/dev/ixixpercent/cache/store/CacheStoreManager.java:36-38 | whether the near map is empty |
| TwoTier.CacheStoreManager.ContainsKey | cache_lib/src/main/java/dev/ixixpercent/cache/store/CacheStoreManager.java:41-43 | in the near map or in the remote map |
| TwoTier.CacheStoreManager.ContainsValue | cache_lib/src/main/java/dev/ixixpercent/cache/store/CacheStoreManager.java:46-48 | among the near values (the remote answer is always false) |
| TwoTier.CacheStoreManager.Get | cache_lib/src/main/java/dev/ixixpercent/cache/store/CacheStoreManager.java:51-59 | the two-tier lookup |
| TwoTier.CacheStoreManager.Put | cache_lib/src/main/java/dev/ixixpercent/cache/store/CacheStoreManager.java:62-70 | writes the remote map only and returns the value |
| TwoTier.CacheStoreManager.Remove | cache_lib/src/main/java/dev/ixixpercent/cache/store/CacheStoreManager.java:73-78 | removes from both tiers and returns the near map's previous value |
| TwoTier.CacheStoreManager.PutAll | cache_lib/src/main/java/dev/ixixpercent/cache/store/CacheStoreManager.java:81-84 | UnsupportedOperationException |
| TwoTier.CacheStoreManager.Clear | cache_lib/src/main/java/dev/ixixpercent/cache/store/CacheStoreManager.java:87-90 | both tiers become empty |
| TwoTier.CacheStoreManager.KeySet | cache_lib/src/main/java/dev/ixixpercent/cache/store/CacheStoreManager.java:93-98 | the near keys (the remote key set is always empty) |
| TwoTier.CacheStoreManager.Values | cache_lib/src/main/java/dev/ixixpercent/cache/store/CacheStoreManager.java:101-105 | an enumeration of the near keys, each exactly once, with the i-th value the near value of the i-th key; so exactly the near values, one per key |
| TwoTier.CacheStoreManager.EntrySet | cache_lib/src/main/java/dev/ixixpercent/cache/store/CacheStoreManager.java:108-111 | UnsupportedOperationException |
| TwoTier.CacheStoreManager.PutIfAbsent | cache_lib/src/main/java/dev/ixixpercent/cache/store/CacheStoreManager.java:14 | JDK default: never returns null; an absent key is written to the remote map |
| TwoTier.CacheStoreManager.RemoveIfEquals | cache_lib/src/main/java/dev/ixixpercent/cache/store/CacheStoreManager.java:14 | JDK default: removes from both tiers exactly when the lookup gives the value |
| TwoTier.CacheStoreManager.ReplaceIfEquals | cache_lib/src/main/java/dev/ixixpercent/cache/store/CacheStoreManager.java:14 | JDK default: writes remotely exactly when the lookup gives the old value |
| TwoTier.CacheStoreManager.Replace | cache_lib/src/main/java/dev/ixixpercent/cache/store/CacheStoreManager.java:14 | JDK default: writes remotely and returns the value exactly when the key is in a tier |
| TwoTier.CacheStoreManager.ComputeIfPresent | cache_lib/src/main/java/dev/ixixpercent/cache/store/CacheStoreManager.java:14 | JDK default: a found value is rewritten remotely, or removed from both tiers on a null result |
| TwoTier.Open | cache_lib/src/main/java/dev/ixixpercent/cache/store/CacheStoreManager.java:20-26 | opening a store connects its remote map; fails as that does |
| TwoTier.SizeIgnoresPut | cache_lib/src/main/java/dev/ixixpercent/cache/store/CacheStoreManager.java:29-70 | on a fresh store, a put is visible to get but size stays 0 |
| Jcache.IxIxCache.constructor | cache_lib/src/main/java/dev/ixixpercent/cache/IxIxCache.java:29-38 | a new cache is open, with its name, configuration and store |
| Jcache.IxIxCache.CheckClosed | cache_lib/src/main/java/dev/ixixpercent/cache/IxIxCache.java:79-83 | IllegalStateException exactly when closed |
| Jcache.IxIxCache.Close | cache_lib/src/main/java/dev/ixixpercent/cache/IxIxCache.java:86-89 | marks closed and empties both tiers |
| Jcache.IxIxCache.Get | cache_lib/src/main/java/dev/ixixpercent/cache/IxIxCache.java:92-98 | the two-tier lookup when open |
| Jcache.IxIxCache.GetAll | cache_lib/src/main/java/dev/ixixpercent/cache/IxIxCache.java:101-104 | the requested keys present in either tier, with their two-tier values |
| Jcache.IxIxCache.ContainsKey | cache_lib/src/main/java/dev/ixixpercent/cache/IxIxCache.java:107-111 | whether either tier has the key |
| Jcache.IxIxCache.Put | cache_lib/src/main/java/dev/ixixpercent/cache/IxIxCache.java:119-123 | writes the remote map |
| Jcache.IxIxCache.GetAndPut | cache_lib/src/main/java/dev/ixixpercent/cache/IxIxCache.java:126-130 | writes the remote map and returns the new value |
| Jcache.IxIxCache.PutIfAbsent | cache_lib/src/main/java/dev/ixixpercent/cache/IxIxCache.java:138-141 | always false when open; an absent key is still written |
| Jcache.IxIxCache.Remove | cache_lib/src/main/java/dev/ixixpercent/cache/IxIxCache.java:144-148 | removes from both tiers; true exactly when the near map had the key |
| Jcache.IxIxCache.RemoveIfEquals | cache_lib/src/main/java/dev/ixixpercent/cache/IxIxCache.java:151-155 | removes exactly when the two-tier lookup gives the value |
| Jcache.IxIxCache.GetAndRemove | cache_lib/src/main/java/dev/ixixpercent/cache/IxIxCache.java:158-162 | removes from both tiers, returning the near map's previous value |
| Jcache.IxIxCache.ReplaceIfEquals | cache_lib/src/main/java/dev/ixixpercent/cache/IxIxCache.java:165-173 | writes remotely exactly when the lookup gives the old value |
| Jcache.IxIxCache.Replace | cache_lib/src/main/java/dev/ixixpercent/cache/IxIxCache.java:176-180 | writes remotely exactly when the key is in a tier, and says so |
| Jcache.IxIxCache.GetAndReplace | cache_lib/src/main/java/dev/ixixpercent/cache/IxIxCache.java:183-187 | a present key gets the new value remotely, which is returned; an absent key gives nothing |
| Jcache.IxIxCache.RemoveAll | cache_lib/src/main/java/dev/ixixpercent/cache/IxIxCache.java:190-196 | removes every given key from both tiers |
| Jcache.IxIxCache.RemoveAllEntries | cache_lib/src/main/java/dev/ixixpercent/cache/IxIxCache.java:199-203 | empties both tiers |
| Jcache.IxIxCache.Clear | cache_lib/src/main/java/dev/ixixpercent/cache/IxIxCache.java:206-210 | empties both tiers |
| Jcache.IxIxCache.Iterator | cache_lib/src/main/java/dev/ixixpercent/cache/IxIxCache.java:233-235 | IllegalStateException when closed, else the store's UnsupportedOperationException |
| Jcache.IxIxCache.Invoke | cache_lib/src/main/java/dev/ixixpercent/cache/IxIxCache.java:60-64 | no result |
| Jcache.IxIxCache.InvokeAll | cache_lib/src/main/java/dev/ixixpercent/cache/IxIxCache.java:67-72 | an empty result |
| Jcache.BindTarget | cache_lib/src/main/java/dev/ixixpercent/cache/IxIxCache.java:37 | building a store fails with IllegalStateException on an empty registry, with the selection's error (an unparsable key or an out-of-range index) when it fails, and with Unavailable when the selected node is not in the cluster; when it binds, it binds to the node of the cluster that `getStub` selects |
| Jcache.NewCache | cache_lib/src/main/java/dev/ixixpercent/cache/IxIxCache.java:29-38 | a new open cache over a fresh store bound to the node the registry selects, or the selection's error |
| Jcache.IxIxCacheManager.constructor | cache_lib/src/main/java/dev/ixixpercent/cache/IxIxCacheManager.java:29-41 | an open manager with no caches over the given cluster, whose fresh registry holds localhost:50051, 50052, 50053 in that order, each with a cached channel and stub, and the round-robin counter at 0 |
| Jcache.AddLocalNode | cache_lib/src/main/java/dev/ixixpercent/cache/IxIxCacheManager.java:36-38 | adding a new local node appends its key |
| Jcache.LocalKeyText | cache_lib/src/main/java/dev/ixixpercent/cache/IxIxCacheManager.java:36-38 | the key `addNode("localhost", p)` builds for a port between 50051 and 50059 is "localhost:5005" followed by the last digit |
| Jcache.LocalNodesAreKeys | cache_lib/src/main/java/dev/ixixpercent/cache/IxIxCacheManager.java:36-38 | the local node list is exactly the keys built for localhost on ports 50051, 50052 and 50053, in that order |
| Jcache.LocalNodesReached | cache_lib/src/main/java/dev/ixixpercent/cache/IxIxCacheManager.java:34-38 | the constructor's three `addNode` calls lead from the empty registry to the local node list, each node with a cached channel and stub, and the counter at 0 |
| Jcache.AddNewNodeCaches | cache_lib/src/main/java/dev/ixixpercent/cache/IxIxCacheManager.java:36-38 | adding a node (on a host without ':') the registry has never seen appends its key, caches a new channel and a stub for it, succeeds, and keeps the counter |
| Jcache.AddWarmNode | cache_lib/src/main/java/dev/ixixpercent/cache/IxIxCacheManager.java:36-38 | adding a new node (on a host without ':') to a registry whose nodes all have cached channels and stubs gives such a registry of the longer list |
| Jcache.WarmKeys | cache_lib/src/main/java/dev/ixixpercent/cache/IxIxCacheManager.java:36-38 | the warm registry of a node list (each node with a cached channel and stub) caches a channel and a stub for exactly those nodes, with the counter at 0 |
| Jcache.TwoNodesReached | cache_lib/src/main/java/dev/ixixpercent/cache/IxIxCacheManager.java:36-37 | two `addNode(host, p)` calls with distinct keys (a host without ':') lead from the empty registry to those keys in order, each with a cached channel and stub |
| Jcache.ThreeNodesReached | cache_lib/src/main/java/dev/ixixpercent/cache/IxIxCacheManager.java:36-38 | three `addNode(host, p)` calls with distinct keys (a host without ':') lead from the empty registry to those keys in order, each with a cached channel and stub |
| Jcache.FirstCacheBindsFirstLocalNode | cache_lib/src/main/java/dev/ixixpercent/cache/IxIxCacheManager.java:64-75 | the first cache a new manager creates binds to localhost:50051 when the cluster has it (else Unavailable), and moves the counter to 1 |
| Jcache.IxIxCacheManager.CreateCache | cache_lib/src/main/java/dev/ixixpercent/cache/IxIxCacheManager.java:64-75 | IllegalStateException when closed, CacheException for a known name, else a new cache registered under the name whose fresh store has an empty near map and a remote map named after the cache on the cluster node `getStub` selects |
| Jcache.IxIxCacheManager.GetCache | cache_lib/src/main/java/dev/ixixpercent/cache/IxIxCacheManager.java:79-95 | the registered cache if its configured types admit the requested ones, ClassCastException if not, else a new open default-configured cache of that name over a fresh store bound to the selected node; the registry is untouched when closed and advanced by one `getStub` for an unknown name |
| Jcache.IxIxCacheManager.GetCacheUntyped | cache_lib/src/main/java/dev/ixixpercent/cache/IxIxCacheManager.java:98-105 | the registered cache, else a new open default-configured cache of that name over a fresh store bound to the selected node; the registry is untouched when closed and advanced by one `getStub` for an unknown name |
| Jcache.IxIxCacheManager.GetCacheNames | cache_lib/src/main/java/dev/ixixpercent/cache/IxIxCacheManager.java:108-113 | the registered names when open |
| Jcache.IxIxCacheManager.DestroyCache | cache_lib/src/main/java/dev/ixixpercent/cache/IxIxCacheManager.java:116-124 | unregisters the name and closes its cache, emptying its near map and its remote map while every other map on the node is kept |
| Jcache.IxIxCacheManager.Close | cache_lib/src/main/java/dev/ixixpercent/cache/IxIxCacheManager.java:137-145 | closes every cache, empties the registry and marks closed; a second call does nothing |
| Jcache.CreateIfNull | cache_lib/src/main/java/dev/ixixpercent/cache/IxIxCachingProvider.java:88-90 | the given value unless absent, then the supplied one |
| Jcache.IsSupported | cache_lib/src/main/java/dev/ixixpercent/cache/IxIxCachingProvider.java:83-86 | no optional feature is supported |
| Jcache.IxIxCachingProvider.constructor | cache_lib/src/main/java/dev/ixixpercent/cache/IxIxCachingProvider.java:16 | no managers |
| Jcache.IxIxCachingProvider.GetCacheManager | cache_lib/src/main/java/dev/ixixpercent/cache/IxIxCachingProvider.java:19-27 | NullPointerException for a null class loader; else the manager registered under the class loader and URI (default URI for null), created once, and a new one is open over the given cluster with a fresh registry of the three local nodes, each with a cached channel and stub, and the counter at 0 |
| Jcache.IxIxCachingProvider.Close | cache_lib/src/main/java/dev/ixixpercent/cache/IxIxCachingProvider.java:69-80 | unregisters and closes the manager, whose map of caches is emptied and each of whose open caches is closed with its near map emptied (a manager already closed is left as it was); drops the class loader once it has no managers; null arguments throw where the map lookups do |
| Jcache.SameManagerTwice | cache_lib/src/main/java/dev/ixixpercent/cache/IxIxCachingProvider.java:19-27 | asking twice for the same class loader and URI gives the same manager |
| KeyGenerators.ClassMapping | cache_tester/src/main/java/dev/ixixpercent/cache/cache_tester/controller/EndpointKeyGenerator.java:32-42 | empty without a class mapping or with no value; value[0] when it equals path[0], else path[0] + value[0]; an out-of-bounds error exactly when value is set and path is not |
| KeyGenerators.HttpMethod | cache_tester/src/main/java/dev/ixixpercent/cache/cache_tester/controller/EndpointKeyGenerator.java:52-70 | the first shortcut present in the order GET, POST, PUT, DELETE, PATCH names the method, else the first method of a request mapping; a non-empty, space-free name, UNKNOWN exactly when no mapping names a method |
| KeyGenerators.ExtractMappings | cache_tester/src/main/java/dev/ixixpercent/cache/cache_tester/controller/EndpointKeyGenerator.java:72-87 | the values of the first shortcut mapping present in the order GET, POST, PUT, DELETE, PATCH, else of the request mapping, else [""] |
| KeyGenerators.MethodMapping | cache_tester/src/main/java/dev/ixixpercent/cache/cache_tester/controller/EndpointKeyGenerator.java:44-50 | the first extracted mapping, or empty |
| KeyGenerators.EndpointRaw | cache_tester/src/main/java/dev/ixixpercent/cache/cache_tester/controller/EndpointKeyGenerator.java:24-30 | method, space, class mapping, method mapping; fails exactly when the class mapping does |
| KeyGenerators.Digest | cache_tester/src/main/java/dev/ixixpercent/cache/cache_tester/controller/EndpointKeyGenerator.java:20-22 | the hash of a raw key, or the raw key's error |
| KeyGenerators.EndpointKey | cache_tester/src/main/java/dev/ixixpercent/cache/cache_tester/controller/EndpointKeyGenerator.java:20-22 | the digest of "method class-mapping method-mapping"; an out-of-bounds error exactly when the class mapping fails |
| KeyGenerators.EndpointRawSeparatesMethods | cache_tester/src/main/java/dev/ixixpercent/cache/cache_tester/controller/EndpointKeyGenerator.java:24-30 | handlers with different HTTP methods never share a raw key |
| KeyGenerators.EndpointKeySeparatesMethods | cache_tester/src/main/java/dev/ixixpercent/cache/cache_tester/controller/EndpointKeyGenerator.java:19-30 | with a digest that has no collision between the texts compared, handlers with different HTTP methods never share a key |
| KeyGenerators.SessionId | cache_tester/src/main/java/dev/ixixpercent/cache/cache_tester/controller/SessionAwareKeyGenerator.java:32-41 | the existing session's id, else "NoSession" |
| KeyGenerators.SessionRaw | cache_tester/src/main/java/dev/ixixpercent/cache/cache_tester/controller/SessionAwareKeyGenerator.java:20-29 | the endpoint raw key, a space and the session part |
| KeyGenerators.SessionKey | cache_tester/src/main/java/dev/ixixpercent/cache/cache_tester/controller/SessionAwareKeyGenerator.java:16-18 | the digest of the endpoint text, a space and the session id; an out-of-bounds error exactly when the class mapping fails |
| KeyGenerators.SessionRawSeparatesSessions | cache_tester/src/main/java/dev/ixixpercent/cache/cache_tester/controller/SessionAwareKeyGenerator.java:20-29 | for one endpoint, different sessions give different raw keys |
| KeyGenerators.SessionKeySeparatesSessions | cache_tester/src/main/java/dev/ixixpercent/cache/cache_tester/controller/SessionAwareKeyGenerator.java:15-29 | with a digest that has no collision between the texts compared, different sessions on one endpoint never share a key |
| KeyGenerators.Present | cache_tester/src/main/java/dev/ixixpercent/cache/cache_tester/controller/key_generator/AttributesAwareKeyGenerator.java:58-62 | exactly the configured names that are present, never more than configured |
| KeyGenerators.PresentCount | cache_tester/src/main/java/dev/ixixpercent/cache/cache_tester/controller/key_generator/AttributesAwareKeyGenerator.java:58-61 | an available name is kept as often as it is configured, any other is dropped |
| KeyGenerators.PresentCons | cache_tester/src/main/java/dev/ixixpercent/cache/cache_tester/controller/key_generator/AttributesAwareKeyGenerator.java:58-61 | the filter keeps the configured order: the first name leads when present |
| KeyGenerators.ParameterEntries | cache_tester/src/main/java/dev/ixixpercent/cache/cache_tester/controller/key_generator/AttributesAwareKeyGenerator.java:55-64 | one `name=[v1, v2, ...]` entry per present configured parameter, in the order of the present names, each non-empty |
| KeyGenerators.ParameterEntriesCons | cache_tester/src/main/java/dev/ixixpercent/cache/cache_tester/controller/key_generator/AttributesAwareKeyGenerator.java:57-63 | the first configured parameter's entry, when present, leads the rest in configured order |
| KeyGenerators.HeaderEntries | cache_tester/src/main/java/dev/ixixpercent/cache/cache_tester/controller/key_generator/AttributesAwareKeyGenerator.java:66-74 | one `name=value` entry per present configured header, in the order of the present names, each non-empty |
| KeyGenerators.HeaderEntriesCons | cache_tester/src/main/java/dev/ixixpercent/cache/cache_tester/controller/key_generator/AttributesAwareKeyGenerator.java:67-73 | the first configured header's entry, when present, leads the rest in configured order |
| KeyGenerators.RequestAttributes | cache_tester/src/main/java/dev/ixixpercent/cache/cache_tester/controller/key_generator/AttributesAwareKeyGenerator.java:47-85 | "NoAttributes" outside a request; NullPointerException for a missing configuration; otherwise every present parameter entry, then every present header entry, joined by ", ", an unset list contributing none |
| KeyGenerators.CacheName | cache_tester/src/main/java/dev/ixixpercent/cache/cache_tester/controller/key_generator/AttributesAwareKeyGenerator.java:88-104 | the method's first cache name, else the class's (only when the method has no caching annotation), else "defaultCache" |
| KeyGenerators.AttributesRaw | cache_tester/src/main/java/dev/ixixpercent/cache/cache_tester/controller/key_generator/AttributesAwareKeyGenerator.java:34-45 | the session raw key, " Attributes:" and the attribute string; fails as either part fails |
| KeyGenerators.AttributesKey | cache_tester/src/main/java/dev/ixixpercent/cache/cache_tester/controller/key_generator/AttributesAwareKeyGenerator.java:30-32 | the class mapping's error; NullPointerException exactly when a request is current and the cache is unconfigured; otherwise the digest of the session-aware text, " Attributes:" and the attribute string ("NoAttributes" outside a request) |
| KeyGenerators.AttributesKeySeparatesAttributes | cache_tester/src/main/java/dev/ixixpercent/cache/cache_tester/controller/key_generator/AttributesAwareKeyGenerator.java:30-45 | with a digest that has no collision between the texts compared, two requests in one session with different attribute strings never share a key |
| KeyGenerators.JoinConcat | cache_tester/src/main/java/dev/ixixpercent/cache/cache_tester/controller/key_generator/AttributesAwareKeyGenerator.java:63 | joining two non-empty lists puts one separator between their joins |
| KeyGenerators.CombineIsJoin | cache_tester/src/main/java/dev/ixixpercent/cache/cache_tester/controller/key_generator/AttributesAwareKeyGenerator.java:76-82 | the combined string is the join of parameter entries then header entries: ", " appears between them exactly when both are non-empty |
| KeyGenerators.DemoEndpointKey | cache_tester/src/main/java/dev/ixixpercent/cache/cache_tester/controller/CachedController.java:10-23 | the demo endpoint's raw key is "GET /api/endpoint" in cache "endpoint" |
| KeyGenerators.DemoSessionKeyOutsideRequest | cache_tester/src/main/java/dev/ixixpercent/cache/cache_tester/controller/CachedController.java:25-29 | outside a request the session handler's raw key is "GET /api/session NoSession" |
| KeyGenerators.DemoAttributesKeyOutsideRequest | cache_tester/src/main/java/dev/ixixpercent/cache/cache_tester/controller/CachedController.java:31-35 | outside a request the attributes handler's raw key ends in " Attributes:NoAttributes" |
| KeyGenerators.ValueOnlyClassMappingThrows | cache_tester/src/main/java/dev/ixixpercent/cache/cache_tester/controller/EndpointKeyGenerator.java:32-42 | a class mapping with only `value` set makes every key of the controller fail |

## Left out

- Transport: RPCs are direct method calls on the node object the stub targets. Deadlines, retries and network failures are not modelled; a stub whose target has no node in the cluster map fails at construction with `Unavailable` (the library fails at the first call).
- Serialization: the object mapper and Kryo, with its pool, are replaced by one invertible text encoding (`Codec`); values are text; class-typed decoding (`valueType`) and mapper failures on arbitrary objects are not modelled.
- Null keys and values are not modelled; a null reply from the node (`onNext(null)` on a miss) is modelled as an absent value.
- Concurrency: concurrent maps, the copy-on-write list, the atomic counter and volatile flags are modelled as sequential state.
- Scheduling: the factory constructor's and the checker's periodic executors are not run; `StartPeriodicHealthChecks` only records that checks were started. Because `scheduleAtFixedRate` suppresses every later run once a run throws, and an IPv6 key such as "::1:50051" stays registered after its `addNode` throws (`AddNodeIpv6HostThrows`) and makes a health pass throw (`HealthPassStopsAtFailure`), a single IPv6 node stops both periodic health checks for good; the model does not follow runs past that point. Logging is left out.
- Channels are value tokens (state, shutdown and terminated flags, whether the probe throws); `channel.shutdown()` side effects are not modelled.
- `RemoteCache.forEach` and `RemoteCache.replaceAll`: they iterate `entrySet`, which is always empty, so they do nothing; not modelled as members.
- `CacheStoreManager.equals` and `hashCode` (object identity) are left out.
- `IxIxCache.getName`, `getCacheManager`, `isClosed`, `getConfiguration` and `unwrap`, the manager's `getCachingProvider`, `getURI`, `getClassLoader`, `getProperties`, `isClosed` and `unwrap`, and the provider's `getDefaultClassLoader`, `getDefaultURI` and `getDefaultProperties` are field reads or reflection; left out.
- The provider's `getCacheManager()`, `getCacheManager(uri, classLoader)`, `close()` and `close(classLoader)` only supply defaults (the context class loader, the default URI) to the modelled three-argument forms; the context class loader is an input there.
- `enableManagement`, `enableStatistics`, `registerCacheEntryListener`, `deregisterCacheEntryListener`, `loadAll` and `IxIxCache.putAll` do nothing in the source; `LoadAll` and `PutAll` are bodies without effect and the others are not modelled.
- The checker calls `getNodes` and `getChannelFromCache` on the factory, which its source does not define; they are modelled as reads of the node list and the channel cache.
- `Integer.parseInt` accepting non-ASCII digits is not modelled.
- Jcache.IxIxCache.GetAndReplace: the source's remapping function calls `store.put` itself and `computeIfPresent` puts the same value again; the model puts once, which leaves the same state.
- Jcache.IxIxCacheManager.Close: proved to close every cache and empty each near map; that each cache's remote map is emptied is not stated, to keep the frame reasoning over caches sharing a node small.
- Jcache.IxIxCachingProvider.Close: states what the manager's own `Close` states for the closed manager (each cache closed with its near map emptied, the map of caches emptied), not that the caches' remote maps are emptied, for the same reason.
- Jcache.IxIxCache.GetAll: a key present in a tier whose lookup gives no value would make `Collectors.toMap` throw; with non-null values this cannot happen and is not modelled.
- KeyGenerators: reflection and the servlet request are input records; annotation `value` and `path` are separate arrays, as plain reflection reads them. `md5Hex` is a function parameter. A null caches map in the configuration properties is not modelled.

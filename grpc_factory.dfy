/**
 * The node registry and connection manager: an ordered, duplicate-free list
 * of node keys, a round-robin counter and two caches (channel, stub) keyed by
 * node. `Registry` is its abstract state; the functions on it specify the
 * methods of `CacheServiceGrpcFactory`, and the lemmas state what the
 * registry promises: no duplicates, round-robin selection, and a health pass
 * that only ever removes nodes.
 */
module GrpcFactory {
  import opened Wrappers
  import opened NodeKeys

  /** The transport's connectivity signal. */
  datatype ConnectivityState = CONNECTING | READY | IDLE | TRANSIENT_FAILURE | SHUTDOWN

  /**
   * A transport channel as the registry observes it: its connectivity state,
   * its shutdown and terminated flags, and whether asking it for its state
   * (`getState(true)`) throws.
   */
  datatype Channel = Channel(state: ConnectivityState, isShutdown: bool, isTerminated: bool, probeThrows: bool)

  /** A freshly built channel is idle until its first use. */
  const NewChannel: Channel := Channel(IDLE, false, false, false)

  /** A blocking client stub bound to the channel for the node key `target`. */
  datatype Stub = Stub(target: string)

  datatype Registry = Registry(
    nodes: seq<string>,
    counter: Int32,
    channels: map<string, Channel>,
    stubs: map<string, Stub>)

  const EmptyRegistry: Registry := Registry([], 0, map[], map[])

  predicate NoDuplicates(s: seq<string>) {
    forall i, j :: 0 <= i < j < |s| ==> s[i] != s[j]
  }

  /** `CopyOnWriteArrayList.remove(Object)`: drops the first occurrence. */
  function RemoveFirst(s: seq<string>, x: string): seq<string> {
    if s == [] then []
    else if s[0] == x then s[1..]
    else [s[0]] + RemoveFirst(s[1..], x)
  }

  // ---------------------------------------------------------------------
  // Channel and stub caches

  /** `getChannel(host, port)`: the cached channel of `host:port`, built on first use. */
  function GetChannelSpec(s: Registry, host: string, port: Int32): Registry {
    var key := CreateKey(host, port);
    if key in s.channels then s else s.(channels := s.channels[key := NewChannel])
  }

  /**
   * `getStubFromCache(key)`: the cached stub, or a new stub over
   * `getChannel(parts[0], parseInt(parts[1]))` where `parts` splits the key on ':'.
   */
  function GetStubFromCacheSpec(s: Registry, key: string): (Registry, Result<Stub>) {
    if key in s.stubs then (s, Ok(s.stubs[key]))
    else
      match ParseKey(key)
      case Err(e) => (s, Err(e))
      case Ok((host, port)) =>
        var s1 := GetChannelSpec(s, host, port);
        var stub := Stub(CreateKey(host, port));
        (s1.(stubs := s1.stubs[key := stub]), Ok(stub))
  }

  // ---------------------------------------------------------------------
  // Membership

  /** `addNode(host, port)`: appends a new key and warms its stub; a known key is skipped. */
  function AddNodeSpec(s: Registry, host: string, port: Int32): (Registry, Result<()>) {
    var key := CreateKey(host, port);
    if key in s.nodes then (s, Ok(()))
    else
      var (s1, r) := GetStubFromCacheSpec(s.(nodes := s.nodes + [key]), key);
      (s1, if r.Ok? then Ok(()) else Err(r.error))
  }

  /** Removal of a key from the list together with its cached channel and stub. */
  function RemoveKeySpec(s: Registry, key: string): Registry {
    if key !in s.nodes then s
    else s.(nodes := RemoveFirst(s.nodes, key), channels := s.channels - {key}, stubs := s.stubs - {key})
  }

  /** `removeNode(host, port)`: removes `host:port` and invalidates it; an unknown node is skipped. */
  function RemoveNodeSpec(s: Registry, host: string, port: Int32): Registry {
    RemoveKeySpec(s, CreateKey(host, port))
  }

  /** `shutdownAllChannels()`: every cache and the node list are emptied; the counter stays. */
  function ShutdownAllSpec(s: Registry): Registry {
    Registry([], s.counter, map[], map[])
  }

  // ---------------------------------------------------------------------
  // Round-robin selection

  /** `AtomicInteger.getAndIncrement` leaves the successor, wrapping from the largest int to the smallest. */
  function Increment(c: Int32): Int32 {
    if c == Int32Max then Int32Min else c + 1
  }

  /** Java `Math.abs(int)`: the smallest int is its own absolute value. */
  function JavaAbs(c: Int32): Int32 {
    if c == Int32Min then c else if c < 0 then -c else c
  }

  /** Java `%` on ints, which truncates toward zero. */
  function JavaRem(a: int, n: int): int
    requires n > 0
  {
    if a >= 0 then a % n else -((-a) % n)
  }

  /**
   * The list index `Math.abs(counter) % size`; a negative index makes
   * `nodes.get` throw IndexOutOfBoundsException.
   */
  function SelectIndex(counter: Int32, size: nat): (r: Result<nat>)
    requires size > 0
    ensures r.Ok? ==> r.value < size
  {
    var index := JavaRem(JavaAbs(counter), size);
    if index < 0 then Err(IndexOutOfBoundsException) else Ok(index)
  }

  /** The node a call of `getStub` picks for a given counter value. */
  function SelectNode(nodes: seq<string>, counter: Int32): Result<string> {
    if nodes == [] then Err(IllegalStateException)
    else
      match SelectIndex(counter, |nodes|)
      case Err(e) => Err(e)
      case Ok(i) => Ok(nodes[i])
  }

  /** `getStub()`: fails on an empty registry; otherwise advances the counter and returns the selected node's stub. */
  function GetStubSpec(s: Registry): (Registry, Result<Stub>) {
    if s.nodes == [] then (s, Err(IllegalStateException))
    else
      var s1 := s.(counter := Increment(s.counter));
      match SelectNode(s.nodes, s.counter)
      case Err(e) => (s1, Err(e))
      case Ok(key) => GetStubFromCacheSpec(s1, key)
  }

  /** The nodes chosen by `m` consecutive calls of `getStub` starting at counter `c`, with no membership change. */
  function Selections(nodes: seq<string>, c: Int32, m: nat): seq<Result<string>>
    decreases m
  {
    if m == 0 then [] else [SelectNode(nodes, c)] + Selections(nodes, Increment(c), m - 1)
  }

  // ---------------------------------------------------------------------
  // Health checking

  datatype Verdict = Keep | Remove

  /** The connectivity switch: connecting, ready and idle keep a node; transient failure and shutdown remove it. */
  function Classify(state: ConnectivityState): Verdict {
    match state
    case CONNECTING | READY | IDLE => Keep
    case TRANSIENT_FAILURE | SHUTDOWN => Remove
  }

  function LookupChannel(channels: map<string, Channel>, key: string): Option<Channel> {
    if key in channels then Some(channels[key]) else None
  }

  /**
   * The verdict on one node: a missing, shut down or terminated channel is
   * removed without probing it; otherwise a probe that throws removes the
   * node, and a probed state is classified.
   */
  function ChannelVerdict(channel: Option<Channel>): Verdict {
    match channel
    case None => Remove
    case Some(c) =>
      if c.isShutdown || c.isTerminated then Remove
      else if c.probeThrows then Remove
      else Classify(c.state)
  }

  /**
   * The three loops over the node list: the factory's own (which has no
   * `continue` after removing a node without a usable channel), the
   * standalone health checker's, and a pass that removes by the node key
   * itself instead of re-parsing it.
   */
  datatype PassMode = FactoryLoop | CheckerLoop | ByKey

  /** One iteration for `key`; `Err` when re-parsing the key throws, which ends the pass. */
  function CheckNode(s: Registry, key: string, mode: PassMode): Result<Registry> {
    var channel := LookupChannel(s.channels, key);
    if mode == ByKey then
      Ok(if ChannelVerdict(channel) == Keep then s else RemoveKeySpec(s, key))
    else
      match ParseKey(key)
      case Err(e) => Err(e)
      case Ok((host, port)) =>
        if mode == CheckerLoop then
          Ok(if ChannelVerdict(channel) == Keep then s else RemoveNodeSpec(s, host, port))
        else
          var unusable := channel.None? || channel.value.isShutdown || channel.value.isTerminated;
          var s1 := if unusable then RemoveNodeSpec(s, host, port) else s;
          // the probe still runs: a missing channel throws NullPointerException, which is caught as a failure
          if channel.None? || channel.value.probeThrows || Classify(channel.value.state) == Remove
          then Ok(RemoveNodeSpec(s1, host, port))
          else Ok(s1)
  }

  datatype PassOutcome = PassOutcome(state: Registry, completed: bool)

  /** A health pass over the snapshot `keys`, applied left to right; an exception ends it where it happens. */
  function HealthPass(s: Registry, keys: seq<string>, mode: PassMode): PassOutcome
    decreases |keys|
  {
    if keys == [] then PassOutcome(s, true)
    else
      var prev := HealthPass(s, keys[..|keys| - 1], mode);
      if !prev.completed then prev
      else
        match CheckNode(prev.state, keys[|keys| - 1], mode)
        case Err(_) => PassOutcome(prev.state, false)
        case Ok(next) => PassOutcome(next, true)
  }

  /** The keys of `keys` whose channel in `channels` earns a `Keep`, in order. */
  function Healthy(channels: map<string, Channel>, keys: seq<string>): seq<string>
    decreases |keys|
  {
    if keys == [] then []
    else
      var last := keys[|keys| - 1];
      Healthy(channels, keys[..|keys| - 1]) + if ChannelVerdict(LookupChannel(channels, last)) == Keep then [last] else []
  }

  // ---------------------------------------------------------------------
  // Lemmas: list removal

  lemma {:induction false} RemoveFirstAbsent(s: seq<string>, x: string)
    requires x !in s
    ensures RemoveFirst(s, x) == s
  {
    if s != [] {
      RemoveFirstAbsent(s[1..], x);
      assert [s[0]] + s[1..] == s;
    }
  }

  lemma {:induction false} RemoveFirstSplit(a: seq<string>, x: string, b: seq<string>)
    requires x !in a
    ensures RemoveFirst(a + [x] + b, x) == a + b
  {
    if a != [] {
      assert (a + [x] + b)[1..] == a[1..] + [x] + b;
      RemoveFirstSplit(a[1..], x, b);
      assert [a[0]] + (a[1..] + b) == a + b;
    } else {
      assert (a + [x] + b)[1..] == b;
    }
  }

  /** Removing a present key from a duplicate-free list removes exactly that key and keeps the others' order. */
  lemma RemoveFirstPresent(s: seq<string>, x: string)
    requires NoDuplicates(s) && x in s
    ensures var r := RemoveFirst(s, x);
      && NoDuplicates(r)
      && |r| == |s| - 1
      && x !in r
      && forall y :: y in r <==> y in s && y != x
  {
    var i :| 0 <= i < |s| && s[i] == x;
    assert s == s[..i] + [x] + s[i + 1..];
    assert x !in s[..i];
    RemoveFirstSplit(s[..i], x, s[i + 1..]);
    var r := s[..i] + s[i + 1..];
    assert forall k :: 0 <= k < |r| ==> r[k] == (if k < i then s[k] else s[k + 1]);
  }

  // ---------------------------------------------------------------------
  // Lemmas: membership

  /**
   * `addNode` never creates a duplicate: a known key leaves the registry
   * unchanged; a new key becomes the last node and, when the host has no
   * ':', gets both a cached stub and a cached channel.
   */
  lemma AddNodeEffect(s: Registry, host: string, port: Int32)
    requires NoDuplicates(s.nodes)
    ensures var (r, result) := AddNodeSpec(s, host, port);
      var key := CreateKey(host, port);
      && NoDuplicates(r.nodes)
      && (key in s.nodes ==> r == s && result.Ok?)
      && (key !in s.nodes ==> r.nodes == s.nodes + [key] && r.counter == s.counter)
      && (key !in s.nodes && ':' !in host ==>
            && result.Ok? && key in r.stubs
            && (key !in s.stubs ==> r.stubs[key] == Stub(key) && key in r.channels))
      && (forall k :: k in s.channels ==> k in r.channels && r.channels[k] == s.channels[k])
  {
    var key := CreateKey(host, port);
    if key !in s.nodes && ':' !in host {
      ParseKeyCreateKey(host, port);
    }
  }

  /** With an IPv6 literal host, `addNode` registers the key and then throws while building its stub. */
  lemma AddNodeIpv6HostThrows()
    ensures AddNodeSpec(EmptyRegistry, "::1", 50051) == (Registry(["::1:50051"], 0, map[], map[]), Err(NumberFormatException))
  {
    ParseKeyRejectsIpv6Host();
    var s := EmptyRegistry.(nodes := ["::1:50051"]);
    assert "::1:50051" !in s.stubs;
    assert "::1:50051" !in EmptyRegistry.nodes;
    assert EmptyRegistry.(nodes := EmptyRegistry.nodes + ["::1:50051"]) == s;
    assert GetStubFromCacheSpec(s, "::1:50051") == (s, Err(NumberFormatException));
  }

  /**
   * `removeNode` on an absent key changes nothing; on a present key it drops
   * the key from the list and from both caches and leaves every other node,
   * channel and stub as it was.
   */
  lemma RemoveNodeEffect(s: Registry, host: string, port: Int32)
    requires NoDuplicates(s.nodes)
    ensures var r := RemoveNodeSpec(s, host, port);
      var key := CreateKey(host, port);
      && NoDuplicates(r.nodes)
      && (key !in s.nodes ==> r == s)
      && (key in s.nodes ==>
            && (forall k :: k in r.nodes <==> k in s.nodes && k != key)
            && |r.nodes| == |s.nodes| - 1
            && r.channels.Keys == s.channels.Keys - {key}
            && r.stubs.Keys == s.stubs.Keys - {key}
            && r.counter == s.counter
            && (forall k :: k in r.channels ==> r.channels[k] == s.channels[k])
            && (forall k :: k in r.stubs ==> r.stubs[k] == s.stubs[k]))
  {
    var key := CreateKey(host, port);
    if key in s.nodes {
      RemoveFirstPresent(s.nodes, key);
    }
  }

  /** A second `removeNode` of the same node is a no-op. */
  lemma RemoveNodeIdempotent(s: Registry, host: string, port: Int32)
    requires NoDuplicates(s.nodes)
    ensures RemoveNodeSpec(RemoveNodeSpec(s, host, port), host, port) == RemoveNodeSpec(s, host, port)
  {
    var key := CreateKey(host, port);
    if key in s.nodes {
      RemoveFirstPresent(s.nodes, key);
    }
  }

  // ---------------------------------------------------------------------
  // Lemmas: selection

  /**
   * `getStub` throws IllegalStateException exactly when there is no node;
   * otherwise it advances the counter by one (wrapping) and leaves the node
   * list alone. A selected node with a cached stub yields that stub; one
   * without a cached stub whose key round-trips gets a new stub for its key,
   * cached together with a channel; one whose key does not parse makes the
   * call fail with the parse error, as does an index that is out of range.
   */
  lemma GetStubEffect(s: Registry)
    ensures var (r, result) := GetStubSpec(s);
      var selected := SelectNode(s.nodes, s.counter);
      && (result == Err(IllegalStateException) <==> s.nodes == [])
      && r.nodes == s.nodes
      && (s.nodes != [] ==> r.counter == Increment(s.counter))
      && (s.nodes != [] && selected.Err? ==>
            result == Err(IndexOutOfBoundsException) && r == s.(counter := Increment(s.counter)))
      && (s.nodes != [] && selected.Ok? && selected.value in s.stubs ==>
            result == Ok(s.stubs[selected.value])
            && r == s.(counter := Increment(s.counter)))
      && (s.nodes != [] && selected.Ok? && selected.value !in s.stubs && RoundTrips(selected.value) ==>
            && result == Ok(Stub(selected.value))
            && selected.value in r.stubs && r.stubs[selected.value] == Stub(selected.value)
            && selected.value in r.channels)
      && (s.nodes != [] && selected.Ok? && selected.value !in s.stubs && ParseKey(selected.value).Err? ==>
            result == Err(ParseKey(selected.value).error) && r == s.(counter := Increment(s.counter)))
  {
    var (r, result) := GetStubSpec(s);
    if s.nodes != [] {
      match SelectNode(s.nodes, s.counter)
      case Err(e) =>
        assert e == IndexOutOfBoundsException;
      case Ok(key) =>
        if key !in s.stubs {
          match ParseKey(key)
          case Err(e) =>
            assert e != IllegalStateException;
          case Ok(_) =>
        }
    }
  }

  lemma SelectIndexNonNegative(c: Int32, size: nat)
    requires size > 0 && c >= 0
    ensures SelectIndex(c, size) == Ok(c % size)
  {
  }

  /**
   * Round-robin order: while the counter stays within the non-negative ints,
   * the k-th of m consecutive calls picks node `(c + k) mod size`.
   */
  lemma {:induction false} SelectionsInOrder(nodes: seq<string>, c: Int32, m: nat)
    requires nodes != [] && 0 <= c && c + m <= Int32Max + 1
    ensures |Selections(nodes, c, m)| == m
    ensures forall k :: 0 <= k < m ==> Selections(nodes, c, m)[k] == Ok(nodes[(c + k) % |nodes|])
    decreases m
  {
    if m > 0 {
      SelectIndexNonNegative(c, |nodes|);
      if m > 1 {
        SelectionsInOrder(nodes, c + 1, m - 1);
        var sel := Selections(nodes, c, m);
        forall k | 1 <= k < m
          ensures sel[k] == Ok(nodes[(c + k) % |nodes|])
        {
          assert sel[k] == Selections(nodes, c + 1, m - 1)[k - 1];
        }
      }
    }
  }

  /**
   * Fairness within a cycle: |nodes| consecutive calls return the nodes
   * rotated to start at `c mod |nodes|`, so every node exactly once.
   */
  lemma RoundRobinCycle(nodes: seq<string>, c: Int32)
    requires nodes != [] && 0 <= c && c + |nodes| <= Int32Max + 1
    ensures var n := |nodes|;
      var rotated := nodes[c % n..] + nodes[..c % n];
      && |Selections(nodes, c, n)| == n
      && (forall k :: 0 <= k < n ==> Selections(nodes, c, n)[k] == Ok(rotated[k]))
      && multiset(rotated) == multiset(nodes)
  {
    var n := |nodes|;
    var start := c % n;
    var rotated := nodes[start..] + nodes[..start];
    SelectionsInOrder(nodes, c, n);
    forall k | 0 <= k < n
      ensures Selections(nodes, c, n)[k] == Ok(rotated[k])
    {
      ModOfShift(c, k, n);
    }
    assert nodes == nodes[..start] + nodes[start..];
  }

  lemma ModUnique(a: int, n: int, q: int, r: int)
    requires n > 0 && 0 <= r < n && a == q * n + r
    ensures a % n == r
  {
    var q0 := a / n;
    var r0 := a % n;
    assert a == q0 * n + r0;
    assert (q - q0) * n == r0 - r by {
      assert (q - q0) * n == q * n - q0 * n;
    }
    if q > q0 {
      MulAtLeast(q - q0, n);
    } else if q < q0 {
      MulAtLeast(q0 - q, n);
    }
  }

  lemma MulAtLeast(d: int, n: int)
    requires d >= 1 && n > 0
    ensures d * n >= n
  {
    assert d * n == (d - 1) * n + n;
  }

  lemma ModOfShift(c: int, k: int, n: int)
    requires n > 0 && 0 <= k < n
    ensures (c + k) % n == if c % n + k < n then c % n + k else c % n + k - n
  {
    var q := c / n;
    if c % n + k < n {
      ModUnique(c + k, n, q, c % n + k);
    } else {
      ModUnique(c + k, n, q + 1, c % n + k - n);
    }
  }

  /**
   * Once the counter has wrapped to the smallest int, `Math.abs` keeps it
   * negative, and `getStub` throws IndexOutOfBoundsException exactly when
   * the node count does not divide 2^31; with 1, 2, 4, ... nodes the
   * remainder is 0 and node 0 is picked.
   */
  lemma SelectIndexFailsAtMinValue(size: nat)
    requires size > 0
    ensures Increment(Int32Max) == Int32Min
    ensures (Int32Max + 1) % size != 0 ==> SelectIndex(Int32Min, size) == Err(IndexOutOfBoundsException)
    ensures (Int32Max + 1) % size == 0 ==> SelectIndex(Int32Min, size) == Ok(0)
  {
  }

  /** The floor-modulo index that `Math.floorMod(counter, size)` would give. */
  function FloorModIndex(counter: Int32, size: nat): (r: nat)
    requires size > 0
    ensures r < size
  {
    counter % size
  }

  /** The floor-modulo index never fails and agrees with the current index wherever the counter is non-negative. */
  lemma FloorModIndexAgrees(counter: Int32, size: nat)
    requires size > 0
    ensures 0 <= FloorModIndex(counter, size) < size
    ensures counter >= 0 ==> SelectIndex(counter, size) == Ok(FloorModIndex(counter, size))
  {
  }

  // ---------------------------------------------------------------------
  // Lemmas: health passes

  lemma {:induction false} HealthySubset(channels: map<string, Channel>, keys: seq<string>)
    ensures forall k :: k in Healthy(channels, keys) ==> k in keys
    decreases |keys|
  {
    if keys != [] {
      HealthySubset(channels, keys[..|keys| - 1]);
    }
  }

  /** Every step of every pass keeps the list duplicate-free and only removes nodes, channels and stubs. */
  lemma CheckNodeOnlyRemoves(s: Registry, key: string, mode: PassMode)
    requires NoDuplicates(s.nodes)
    ensures var r := CheckNode(s, key, mode);
      r.Ok? ==>
        && NoDuplicates(r.value.nodes)
        && (forall k :: k in r.value.nodes ==> k in s.nodes)
        && r.value.channels.Keys <= s.channels.Keys
        && r.value.stubs.Keys <= s.stubs.Keys
        && r.value.counter == s.counter
  {
    match ParseKey(key)
    case Err(_) =>
      if mode == ByKey {
        RemoveKeyShrinks(s, key);
      }
    case Ok((host, port)) =>
      RemoveKeyShrinks(s, key);
      var k := CreateKey(host, port);
      RemoveKeyShrinks(s, k);
      RemoveKeyShrinks(RemoveKeySpec(s, k), k);
  }

  lemma RemoveKeyShrinks(s: Registry, key: string)
    requires NoDuplicates(s.nodes)
    ensures var r := RemoveKeySpec(s, key);
      && NoDuplicates(r.nodes)
      && (forall k :: k in r.nodes ==> k in s.nodes)
      && r.channels.Keys <= s.channels.Keys
      && r.stubs.Keys <= s.stubs.Keys
      && r.counter == s.counter
  {
    if key in s.nodes {
      RemoveFirstPresent(s.nodes, key);
    }
  }

  /**
   * A health pass never adds: whatever the channels report and wherever it
   * stops, the nodes afterwards are a subset of the nodes before, and so are
   * the cached channels and stubs.
   */
  lemma {:induction false} HealthPassOnlyRemoves(s: Registry, keys: seq<string>, mode: PassMode)
    requires NoDuplicates(s.nodes)
    ensures var o := HealthPass(s, keys, mode);
      && NoDuplicates(o.state.nodes)
      && (forall k :: k in o.state.nodes ==> k in s.nodes)
      && o.state.channels.Keys <= s.channels.Keys
      && o.state.stubs.Keys <= s.stubs.Keys
      && o.state.counter == s.counter
    decreases |keys|
  {
    if keys != [] {
      var prev := HealthPass(s, keys[..|keys| - 1], mode);
      HealthPassOnlyRemoves(s, keys[..|keys| - 1], mode);
      if prev.completed {
        CheckNodeOnlyRemoves(prev.state, keys[|keys| - 1], mode);
      }
    }
  }

  /** The pass over the first i + 1 keys is one more step after the pass over the first i. */
  lemma HealthPassStep(s: Registry, keys: seq<string>, i: nat, mode: PassMode)
    requires i < |keys|
    ensures var prev := HealthPass(s, keys[..i], mode);
      HealthPass(s, keys[..i + 1], mode) ==
        if !prev.completed then prev
        else if CheckNode(prev.state, keys[i], mode).Err? then PassOutcome(prev.state, false)
        else PassOutcome(CheckNode(prev.state, keys[i], mode).value, true)
  {
    assert keys[..i + 1][..i] == keys[..i];
  }

  /** An interrupted pass stays interrupted: the keys after the failing one are never visited. */
  lemma {:induction false} HealthPassStopsAtFailure(s: Registry, keys: seq<string>, j: nat, mode: PassMode)
    requires j <= |keys|
    requires !HealthPass(s, keys[..j], mode).completed
    ensures HealthPass(s, keys, mode) == HealthPass(s, keys[..j], mode)
    decreases |keys| - j
  {
    if j < |keys| {
      assert keys[..j + 1][..j] == keys[..j];
      HealthPassStopsAtFailure(s, keys, j + 1, mode);
    } else {
      assert keys[..j] == keys;
    }
  }

  /**
   * On a duplicate-free registry the factory's loop, which probes a node it
   * has just removed, ends in the same state as the checker's loop, which
   * skips that probe: the repeated `removeNode` is a no-op.
   */
  lemma CheckNodeMissingContinueHarmless(s: Registry, key: string)
    requires NoDuplicates(s.nodes)
    ensures CheckNode(s, key, FactoryLoop) == CheckNode(s, key, CheckerLoop)
  {
    match ParseKey(key)
    case Err(_) =>
    case Ok((host, port)) =>
      RemoveNodeIdempotent(s, host, port);
  }

  lemma {:induction false} HealthPassMissingContinueHarmless(s: Registry, keys: seq<string>)
    requires NoDuplicates(s.nodes)
    ensures HealthPass(s, keys, FactoryLoop) == HealthPass(s, keys, CheckerLoop)
    decreases |keys|
  {
    if keys != [] {
      var init := keys[..|keys| - 1];
      HealthPassMissingContinueHarmless(s, init);
      HealthPassOnlyRemoves(s, init, CheckerLoop);
      var prev := HealthPass(s, init, CheckerLoop);
      if prev.completed {
        CheckNodeMissingContinueHarmless(prev.state, keys[|keys| - 1]);
      }
    }
  }

  /** A node whose key re-parses to itself is the node a re-parsing pass removes. */
  lemma CheckNodeOnRoundTrippingKey(s: Registry, key: string)
    requires RoundTrips(key)
    ensures CheckNode(s, key, CheckerLoop) == CheckNode(s, key, ByKey)
  {
  }

  /** In a duplicate-free list, an element occurs neither before nor after its own position. */
  lemma NoDuplicatesSplit(a: seq<string>, x: string, b: seq<string>)
    requires NoDuplicates(a + [x] + b)
    ensures x !in a && x !in b
  {
    var s := a + [x] + b;
    assert s[|a|] == x;
    forall t | 0 <= t < |a|
      ensures a[t] != x
    {
      assert s[t] == a[t];
    }
    forall t | 0 <= t < |b|
      ensures b[t] != x
    {
      assert s[|a| + 1 + t] == b[t];
    }
  }

  /** One step of the by-key pass on the node list `kept + [key] + rest`. */
  lemma ByKeyStep(p: Registry, kept: seq<string>, key: string, rest: seq<string>)
    requires p.nodes == kept + [key] + rest && NoDuplicates(p.nodes)
    ensures var r := CheckNode(p, key, ByKey);
      && r.Ok?
      && r.value.nodes == kept + (if ChannelVerdict(LookupChannel(p.channels, key)) == Keep then [key] else []) + rest
      && (forall k :: k in rest ==> LookupChannel(r.value.channels, k) == LookupChannel(p.channels, k))
  {
    NoDuplicatesSplit(kept, key, rest);
    if ChannelVerdict(LookupChannel(p.channels, key)) == Remove {
      RemoveFirstSplit(kept, key, rest);
    }
  }

  /**
   * The pass that removes by key, over a duplicate-free snapshot of the node
   * list, after its first i keys: the healthy ones among them are kept, the
   * rest of the list is untouched and still has its original channels.
   */
  lemma {:induction false} ByKeyPassPrefix(s: Registry, i: nat)
    requires NoDuplicates(s.nodes) && i <= |s.nodes|
    ensures var o := HealthPass(s, s.nodes[..i], ByKey);
      && o.completed
      && o.state.nodes == Healthy(s.channels, s.nodes[..i]) + s.nodes[i..]
      && (forall k :: k in s.nodes[i..] ==> LookupChannel(o.state.channels, k) == LookupChannel(s.channels, k))
    decreases i
  {
    var keys := s.nodes;
    if i == 0 {
      assert keys[..0] == [];
    } else {
      var j := i - 1;
      ByKeyPassPrefix(s, j);
      HealthPassOnlyRemoves(s, keys[..j], ByKey);
      var prev := HealthPass(s, keys[..j], ByKey);
      var key := keys[j];
      var kept := Healthy(s.channels, keys[..j]);
      assert keys[j..] == [key] + keys[i..];
      assert keys[..i][..j] == keys[..j];
      assert keys[..i][j] == key;
      ByKeyStep(prev.state, kept, key, keys[i..]);
    }
  }

  /**
   * The corrected pass (remove by the node key itself) keeps exactly the
   * nodes whose channel is present, usable and in a healthy state, for every
   * registry, and always completes.
   */
  lemma ByKeyPassKeepsExactlyHealthy(s: Registry)
    requires NoDuplicates(s.nodes)
    ensures var o := HealthPass(s, s.nodes, ByKey);
      && o.completed
      && o.state.nodes == Healthy(s.channels, s.nodes)
  {
    ByKeyPassPrefix(s, |s.nodes|);
    assert s.nodes[..|s.nodes|] == s.nodes;
  }

  lemma {:induction false} CheckerPassIsByKeyPass(s: Registry, keys: seq<string>)
    requires forall k :: k in keys ==> RoundTrips(k)
    ensures HealthPass(s, keys, CheckerLoop) == HealthPass(s, keys, ByKey)
    decreases |keys|
  {
    if keys != [] {
      var init := keys[..|keys| - 1];
      CheckerPassIsByKeyPass(s, init);
      var prev := HealthPass(s, init, ByKey);
      CheckNodeOnRoundTrippingKey(prev.state, keys[|keys| - 1]);
    }
  }

  /**
   * When every node key re-parses to itself (no host contains ':'), both
   * loops of the source keep exactly the healthy nodes: those whose channel
   * exists, is neither shut down nor terminated, answers the probe, and is
   * connecting, ready or idle.
   */
  lemma HealthPassKeepsExactlyHealthy(s: Registry)
    requires NoDuplicates(s.nodes)
    requires forall k :: k in s.nodes ==> RoundTrips(k)
    ensures var o := HealthPass(s, s.nodes, CheckerLoop);
      && o == HealthPass(s, s.nodes, FactoryLoop)
      && o.completed
      && o.state.nodes == Healthy(s.channels, s.nodes)
  {
    CheckerPassIsByKeyPass(s, s.nodes);
    ByKeyPassKeepsExactlyHealthy(s);
    HealthPassMissingContinueHarmless(s, s.nodes);
  }

  /** The registry after `addNode("a", 5)` and then `addNode("a:5", 80)`. */
  const ColonHostRegistry: Registry :=
    Registry(["a:5", "a:5:80"], 0, map["a:5" := NewChannel], map["a:5" := Stub("a:5"), "a:5:80" := Stub("a:5")])

  lemma ColonHostRegistryReached()
    ensures AddNodeSpec(AddNodeSpec(EmptyRegistry, "a", 5).0, "a:5", 80).0 == ColonHostRegistry
  {
    ParseKeyMisreadsColonHost();
    ParseKeyCreateKey("a", 5);
    var s1 := Registry(["a:5"], 0, map["a:5" := NewChannel], map["a:5" := Stub("a:5")]);
    assert GetStubFromCacheSpec(EmptyRegistry.(nodes := ["a:5"]), "a:5") == (s1, Ok(Stub("a:5")));
    assert AddNodeSpec(EmptyRegistry, "a", 5).0 == s1;
    assert GetChannelSpec(s1.(nodes := ["a:5", "a:5:80"]), "a", 5) == s1.(nodes := ["a:5", "a:5:80"]);
  }

  /**
   * With a host containing ':', the health pass evicts a healthy node: the
   * stub of "a:5:80" was built over the channel of "a:5", "a:5:80" has no
   * channel of its own, and removing it re-parses the key as "a" on port 5.
   */
  lemma HealthPassEvictsHealthyNode()
    ensures ChannelVerdict(LookupChannel(ColonHostRegistry.channels, "a:5")) == Keep
    ensures HealthPass(ColonHostRegistry, ColonHostRegistry.nodes, CheckerLoop).state.nodes == ["a:5:80"]
    ensures HealthPass(ColonHostRegistry, ColonHostRegistry.nodes, ByKey).state.nodes == ["a:5"]
  {
    var s := ColonHostRegistry;
    ColonHostRegistryReached();
    ParseKeyMisreadsColonHost();
    ParseKeyCreateKey("a", 5);
    assert s.nodes[..1] == ["a:5"];
    assert s.nodes[..1][..0] == [];
    assert s.nodes[..2][..1] == ["a:5"];
    var first := HealthPass(s, ["a:5"], CheckerLoop);
    assert first == PassOutcome(s, true);
    assert HealthPass(s, s.nodes, CheckerLoop).state == RemoveNodeSpec(s, "a", 5);
    assert RemoveFirst(s.nodes, "a:5") == ["a:5:80"];
    var firstByKey := HealthPass(s, ["a:5"], ByKey);
    assert firstByKey == PassOutcome(s, true);
    assert RemoveFirst(s.nodes, "a:5:80") == ["a:5"];
  }

  // ---------------------------------------------------------------------
  // The registry object

  class CacheServiceGrpcFactory {
    var nodes: seq<string>
    var roundRobinIndex: Int32
    var channelCache: map<string, Channel>
    var stubCache: map<string, Stub>

    function State(): Registry
      reads this
    {
      Registry(nodes, roundRobinIndex, channelCache, stubCache)
    }

    ghost predicate Valid()
      reads this
    {
      NoDuplicates(nodes)
    }

    /** The periodic health-check schedule of the constructor is not part of the model. */
    constructor ()
      ensures Valid() && State() == EmptyRegistry
    {
      nodes := [];
      roundRobinIndex := 0;
      channelCache := map[];
      stubCache := map[];
    }

    method AddNode(host: string, port: Int32) returns (r: Result<()>)
      requires Valid()
      modifies this
      ensures Valid()
      ensures (State(), r) == AddNodeSpec(old(State()), host, port)
    {
      var key := CreateKey(host, port);
      if key in nodes {
        r := Ok(());
        return;
      }
      nodes := nodes + [key];
      assert NoDuplicates(nodes);
      var stub := GetStubFromCache(key);
      r := if stub.Ok? then Ok(()) else Err(stub.error);
    }

    method RemoveNode(host: string, port: Int32)
      requires Valid()
      modifies this
      ensures Valid()
      ensures State() == RemoveNodeSpec(old(State()), host, port)
    {
      var key := CreateKey(host, port);
      if key in nodes {
        RemoveFirstPresent(nodes, key);
        nodes := RemoveFirst(nodes, key);
        InvalidateNode(host, port);
      }
    }

    method GetStub() returns (r: Result<Stub>)
      modifies this
      ensures (State(), r) == GetStubSpec(old(State()))
      ensures nodes == old(nodes)
    {
      if nodes == [] {
        r := Err(IllegalStateException);
        return;
      }
      var current := roundRobinIndex;
      roundRobinIndex := Increment(roundRobinIndex);
      var index := SelectIndex(current, |nodes|);
      if index.Err? {
        r := Err(index.error);
        return;
      }
      r := GetStubFromCache(nodes[index.value]);
    }

    method InvalidateNode(host: string, port: Int32)
      modifies this
      ensures nodes == old(nodes) && roundRobinIndex == old(roundRobinIndex)
      ensures channelCache == old(channelCache) - {CreateKey(host, port)}
      ensures stubCache == old(stubCache) - {CreateKey(host, port)}
    {
      var key := CreateKey(host, port);
      channelCache := channelCache - {key};
      stubCache := stubCache - {key};
    }

    method ShutdownAllChannels()
      modifies this
      ensures Valid()
      ensures State() == ShutdownAllSpec(old(State()))
    {
      channelCache := map[];
      stubCache := map[];
      nodes := [];
    }

    method GetStubFromCache(key: string) returns (r: Result<Stub>)
      modifies this
      ensures (State(), r) == GetStubFromCacheSpec(old(State()), key)
    {
      if key in stubCache {
        r := Ok(stubCache[key]);
        return;
      }
      var parsed := ParseKey(key);
      if parsed.Err? {
        r := Err(parsed.error);
        return;
      }
      var (host, port) := parsed.value;
      var _ := GetChannel(host, port);
      var stub := Stub(CreateKey(host, port));
      stubCache := stubCache[key := stub];
      r := Ok(stub);
    }

    method GetChannel(host: string, port: Int32) returns (channel: Channel)
      modifies this
      ensures State() == GetChannelSpec(old(State()), host, port)
      ensures channel == channelCache[CreateKey(host, port)]
    {
      var key := CreateKey(host, port);
      if key !in channelCache {
        channelCache := channelCache[key := NewChannel];
      }
      channel := channelCache[key];
    }

    /** The node list as the standalone checker reads it. */
    method GetNodes() returns (keys: seq<string>)
      ensures keys == nodes
    {
      keys := nodes;
    }

    /** The cached channel of a node key as the standalone checker reads it; `None` for null. */
    method GetChannelFromCache(key: string) returns (channel: Option<Channel>)
      ensures channel == LookupChannel(channelCache, key)
    {
      channel := if key in channelCache then Some(channelCache[key]) else None;
    }

    /** The factory's own periodic pass, run once. */
    method PerformHealthChecks() returns (completed: bool)
      requires Valid()
      modifies this
      ensures Valid()
      ensures PassOutcome(State(), completed) == HealthPass(old(State()), old(nodes), FactoryLoop)
    {
      var snapshot := nodes;
      var i := 0;
      while i < |snapshot|
        invariant 0 <= i <= |snapshot|
        invariant Valid()
        invariant PassOutcome(State(), true) == HealthPass(old(State()), snapshot[..i], FactoryLoop)
      {
        HealthPassStep(old(State()), snapshot, i, FactoryLoop);
        var ok := CheckOneNode(snapshot[i]);
        if !ok {
          completed := false;
          HealthPassStopsAtFailure(old(State()), snapshot, i + 1, FactoryLoop);
          return;
        }
        i := i + 1;
      }
      completed := true;
      assert snapshot[..i] == snapshot;
    }

    /** The body of the factory's pass for one node key; `false` when re-parsing the key throws. */
    method CheckOneNode(key: string) returns (ok: bool)
      requires Valid()
      modifies this
      ensures Valid()
      ensures var r := CheckNode(old(State()), key, FactoryLoop);
        && ok == r.Ok?
        && State() == (if ok then r.value else old(State()))
    {
      var parsed := ParseKey(key);
      if parsed.Err? {
        return false;
      }
      var (host, port) := parsed.value;
      var channel := if key in channelCache then Some(channelCache[key]) else None;
      if channel.None? || channel.value.isShutdown || channel.value.isTerminated {
        RemoveNode(host, port);
      }
      // no `continue`: the probe below runs on the channel just examined
      if channel.None? {
        RemoveNode(host, port);
      } else if channel.value.probeThrows {
        RemoveNode(host, port);
      } else {
        match channel.value.state
        case CONNECTING | READY | IDLE =>
        case TRANSIENT_FAILURE =>
          RemoveNode(host, port);
        case SHUTDOWN =>
          RemoveNode(host, port);
      }
      ok := true;
    }
  }
}

/**
 * The standalone health checker and its builder. The checker runs the same
 * pass as the registry's own, but skips the probe of a node it has just
 * removed; the builder fills in a factory and an interval (60 seconds by
 * default) and refuses to build without a factory.
 */
module HealthCheck {
  import opened Wrappers
  import opened NodeKeys
  import opened GrpcFactory

  class HealthChecker {
    const factory: CacheServiceGrpcFactory
    const checkIntervalSeconds: int
    /** Whether a fixed-rate schedule of passes has been handed to the executor. */
    var started: bool

    constructor (factory: CacheServiceGrpcFactory, checkIntervalSeconds: int)
      ensures this.factory == factory && this.checkIntervalSeconds == checkIntervalSeconds
      ensures !started
    {
      this.factory := factory;
      this.checkIntervalSeconds := checkIntervalSeconds;
      started := false;
    }

    /**
     * One pass over a snapshot of the node list. It ends early, with
     * `completed` false, when a node key does not re-parse.
     */
    method PerformHealthChecks() returns (completed: bool)
      requires factory.Valid()
      modifies factory
      ensures factory.Valid()
      ensures PassOutcome(factory.State(), completed) == HealthPass(old(factory.State()), old(factory.nodes), CheckerLoop)
    {
      var snapshot := factory.GetNodes();
      var i := 0;
      while i < |snapshot|
        invariant 0 <= i <= |snapshot|
        invariant factory.Valid()
        invariant PassOutcome(factory.State(), true) == HealthPass(old(factory.State()), snapshot[..i], CheckerLoop)
      {
        HealthPassStep(old(factory.State()), snapshot, i, CheckerLoop);
        var ok := CheckOneNode(snapshot[i]);
        if !ok {
          completed := false;
          HealthPassStopsAtFailure(old(factory.State()), snapshot, i + 1, CheckerLoop);
          return;
        }
        i := i + 1;
      }
      completed := true;
      assert snapshot[..i] == snapshot;
    }

    /** The body of the pass for one node key; `false` when re-parsing the key throws. */
    method CheckOneNode(key: string) returns (ok: bool)
      requires factory.Valid()
      modifies factory
      ensures factory.Valid()
      ensures var r := CheckNode(old(factory.State()), key, CheckerLoop);
        && ok == r.Ok?
        && factory.State() == (if ok then r.value else old(factory.State()))
    {
      var parsed := ParseKey(key);
      if parsed.Err? {
        return false;
      }
      var (host, port) := parsed.value;
      var channel := factory.GetChannelFromCache(key);
      if channel.None? || channel.value.isShutdown || channel.value.isTerminated {
        factory.RemoveNode(host, port);
        return true;
      }
      if channel.value.probeThrows {
        factory.RemoveNode(host, port);
      } else if Classify(channel.value.state) == Remove {
        factory.RemoveNode(host, port);
      }
      ok := true;
    }

    /** Hands the pass to a fixed-rate schedule; a non-positive period is rejected by the executor. */
    method StartPeriodicHealthChecks() returns (r: Result<()>)
      modifies this
      ensures r == (if checkIntervalSeconds <= 0 then Err(IllegalArgumentException) else Ok(()))
      ensures started == (old(started) || checkIntervalSeconds > 0)
    {
      if checkIntervalSeconds <= 0 {
        r := Err(IllegalArgumentException);
        return;
      }
      started := true;
      r := Ok(());
    }
  }

  const DefaultCheckIntervalSeconds: int := 60

  class Builder {
    var factory: Option<CacheServiceGrpcFactory>
    var checkIntervalSeconds: int

    constructor ()
      ensures factory == None && checkIntervalSeconds == DefaultCheckIntervalSeconds
    {
      factory := None;
      checkIntervalSeconds := DefaultCheckIntervalSeconds;
    }

    method WithFactory(factory: CacheServiceGrpcFactory) returns (self: Builder)
      modifies this
      ensures self == this
      ensures this.factory == Some(factory) && checkIntervalSeconds == old(checkIntervalSeconds)
    {
      this.factory := Some(factory);
      self := this;
    }

    method WithCheckIntervalSeconds(interval: int) returns (self: Builder)
      modifies this
      ensures self == this
      ensures checkIntervalSeconds == interval && factory == old(factory)
    {
      checkIntervalSeconds := interval;
      self := this;
    }

    /** Fails with IllegalStateException when no factory was set; the checker is not started. */
    method Build() returns (r: Result<HealthChecker>)
      ensures r.Err? <==> factory.None?
      ensures r.Err? ==> r.error == IllegalStateException
      ensures r.Ok? ==>
        (fresh(r.value) && !r.value.started
         && r.value.factory == factory.value && r.value.checkIntervalSeconds == checkIntervalSeconds)
    {
      if factory.None? {
        r := Err(IllegalStateException);
        return;
      }
      var checker := new HealthChecker(factory.value, checkIntervalSeconds);
      r := Ok(checker);
    }

    /**
     * Like `Build`, then starts the schedule; a non-positive interval makes
     * the start throw IllegalArgumentException and no checker is returned.
     */
    method BuildAndStart() returns (r: Result<HealthChecker>)
      ensures factory.None? ==> r == Err(IllegalStateException)
      ensures factory.Some? && checkIntervalSeconds <= 0 ==> r == Err(IllegalArgumentException)
      ensures factory.Some? && checkIntervalSeconds > 0 ==>
        (r.Ok? && fresh(r.value) && r.value.started
         && r.value.factory == factory.value && r.value.checkIntervalSeconds == checkIntervalSeconds)
    {
      if factory.None? {
        r := Err(IllegalStateException);
        return;
      }
      var checker := new HealthChecker(factory.value, checkIntervalSeconds);
      var started := checker.StartPeriodicHealthChecks();
      if started.Err? {
        r := Err(started.error);
        return;
      }
      r := Ok(checker);
    }
  }

  /**
   * A builder given only a factory builds and starts a checker that runs
   * every 60 seconds over that factory.
   */
  method DefaultBuilderStartsEveryMinute(factory: CacheServiceGrpcFactory) returns (checker: HealthChecker)
    ensures checker.factory == factory && checker.checkIntervalSeconds == 60 && checker.started
  {
    var builder := new Builder();
    builder := builder.WithFactory(factory);
    var r := builder.BuildAndStart();
    checker := r.value;
  }
}

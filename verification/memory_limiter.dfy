/** The limit-application facade: the Kubernetes skip gate, the
    determination, the percentage check and scaling, and the write to the
    runtime's `memory_limit` setting, modelled as a sink holding the last
    value written. */
module MemoryLimiter {
  import opened Common
  import opened Filesystem
  import opened AvailableMemoryReader
  import opened RuntimeEnvironmentDetector

  /** PHP's `(int)` cast of a float: truncation toward zero. */
  function TruncateTowardZero(x: real): (n: int)
    ensures x >= 0.0 ==> 0 <= n && n as real <= x < n as real + 1.0
    ensures x < 0.0 ==> n <= 0 && n as real - 1.0 < x <= n as real
  {
    if x >= 0.0 then x.Floor else -((-x).Floor)
  }

  /** The documented range of the percentage: strictly between 0 and 100. */
  predicate ValidPercentage(percentage: real)
  {
    0.0 < percentage < 100.0
  }

  /** `memoryLimit * (percentage / 100)`, cast to an integer. */
  function ScaleToPercentage(memoryLimit: int, percentage: real): (r: int)
    // the exact share, rounded toward zero by less than one byte
    ensures memoryLimit as real * (percentage / 100.0) >= 0.0 ==>
      r as real <= memoryLimit as real * (percentage / 100.0) < r as real + 1.0
    ensures memoryLimit as real * (percentage / 100.0) < 0.0 ==>
      r as real - 1.0 < memoryLimit as real * (percentage / 100.0) <= r as real
  {
    TruncateTowardZero(memoryLimit as real * (percentage / 100.0))
  }

  /** A valid percentage of a non-negative byte count lies between zero and
      the count itself. */
  lemma ScaleWithinBounds(memoryLimit: int, percentage: real)
    requires memoryLimit >= 0 && ValidPercentage(percentage)
    ensures 0 <= ScaleToPercentage(memoryLimit, percentage) <= memoryLimit
  {
    var m := memoryLimit as real;
    var f := percentage / 100.0;
    assert 0.0 <= m * f <= m by {
      assert 0.0 < f < 1.0;
      assert m * f <= m * 1.0;
    }
    var r := ScaleToPercentage(memoryLimit, percentage);
    assert r as real <= m * f < r as real + 1.0;
    assert -1.0 < r as real <= m;
  }

  /** 10.10 % of 15985380 KiB is 1653271941 bytes. */
  lemma ScaleExample()
    ensures ScaleToPercentage(15985380 * 1024, 10.10) == 1653271941
  {
    assert (15985380 * 1024) as real * (10.10 / 100.0) == 1653271941.12;
  }

  /** How a call ended: skipped inside Kubernetes, a limit written, or an exception. */
  datatype Outcome = Skipped | LimitSet(bytes: int) | Raised(error: Error)

  /** One call of the facade: how it ended, the `memory_limit` sink after it
      (the last value written, `None` if nothing was ever written), the
      reader's memo, and the files that reached the filesystem. */
  datatype LimiterRun = LimiterRun(outcome: Outcome, sink: Option<int>, cache: Cache, fetches: seq<string>)

  /** `setMemoryLimitToCurrentlyAvailableMemory`. */
  method SetMemoryLimitToCurrentlyAvailableMemory(
    env: Environment, fs: Files, cache: Cache, paths: Paths, sink: Option<int>,
    skipIfRunningInsideKubernetesContainer: bool, percentage: Option<real>)
    returns (run: LimiterRun)
    // the skip gate: nothing is read and nothing is written
    ensures run.outcome.Skipped? <==> skipIfRunningInsideKubernetesContainer && InsideKubernetes(env)
    ensures run.outcome.Skipped? ==> run.sink == sink && run.cache == cache && run.fetches == []
    // the sink changes exactly when a limit is set, and then holds that limit
    ensures run.sink == if run.outcome.LimitSet? then Some(run.outcome.bytes) else sink
    // otherwise memory is always determined first, before the percentage is looked at
    ensures !run.outcome.Skipped? ==>
              var determined := DetermineAvailableMemoryBytes(fs, cache, paths);
              && run.cache == determined.cache
              && run.fetches == determined.fetches
              && (determined.result.Err? ==> run.outcome == Raised(FailedToDetermine))
              && (determined.result.Ok? && percentage.None? ==> run.outcome == LimitSet(determined.result.value))
              && (determined.result.Ok? && percentage.Some? && !ValidPercentage(percentage.value) ==>
                    run.outcome == Raised(InvalidPercentage(percentage.value)))
              && (determined.result.Ok? && percentage.Some? && ValidPercentage(percentage.value) ==>
                    run.outcome == LimitSet(ScaleToPercentage(determined.result.value, percentage.value)))
    // a scaled limit never exceeds the determined non-negative figure
    ensures !run.outcome.Skipped? && percentage.Some? && run.outcome.LimitSet? &&
            DetermineAvailableMemoryBytes(fs, cache, paths).result.value >= 0 ==>
              0 <= run.outcome.bytes <= DetermineAvailableMemoryBytes(fs, cache, paths).result.value
  {
    if skipIfRunningInsideKubernetesContainer {
      var inside := IsRunningInsideKubernetesContainer(env);
      if inside {
        return LimiterRun(Skipped, sink, cache, []);
      }
    }
    var determined := DetermineAvailableMemoryBytes(fs, cache, paths);
    if determined.result.Err? {
      return LimiterRun(Raised(determined.result.error), sink, determined.cache, determined.fetches);
    }
    var memoryLimit := determined.result.value;
    if percentage.Some? {
      if percentage.value <= 0.0 || percentage.value >= 100.0 {
        return LimiterRun(Raised(InvalidPercentage(percentage.value)), sink, determined.cache, determined.fetches);
      }
      if memoryLimit >= 0 {
        ScaleWithinBounds(memoryLimit, percentage.value);
      }
      memoryLimit := ScaleToPercentage(memoryLimit, percentage.value);
    }
    return LimiterRun(LimitSet(memoryLimit), Some(memoryLimit), determined.cache, determined.fetches);
  }
}

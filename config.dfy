/**
 * The tunable settings every client component reads, with the defaults the
 * client starts from. Rates and multiples are exact rationals, not floats.
 */
module Config {
  import opened Common

  /** The sliding window of the health counters. */
  datatype MetricConfig = MetricConfig(numBuckets: nat, bucketSizeInMs: nat)

  /** Circuit breaker thresholds. */
  datatype BreakerConfig = BreakerConfig(
    forceOpen: bool,
    forceClosed: bool,
    requestVolumeThreshold: nat,
    errorThresholdPercentage: nat,
    sleepWindowInMilliseconds: nat)

  /** Per-address weight regulation (single-machine fault isolation). */
  datatype FaultToleranceConfig = FaultToleranceConfig(
    maxIsolatedPercentage: real,
    leastWindowCount: nat,
    leastWindowRtMultiple: real,
    recoverWindowRtMultiple: real,
    leastWindowExceptionRateMultiple: real,
    recoverWindowExceptionRateMultiple: real,
    weightDegradeRate: real,
    weightRecoverRate: real,
    degradeLeastWeight: real,
    degradeEffective: bool,
    regulationEffective: bool)

  /**
   * Connection-pool (elastic control) settings. `enableThreshold` may be
   * missing from a group's own pool settings, and then no threshold applies.
   */
  datatype PoolConfig = PoolConfig(
    enableThreshold: Option<nat>,
    minAddressCount: nat,
    maxAddressCount: nat,
    initConnectionSize: nat,
    elasticControl: bool,
    capacityPerConnection: nat)

  const DefaultMetric := MetricConfig(6, 10000)

  const DefaultBreaker := BreakerConfig(false, false, 20, 50, 5000)

  const DefaultFaultTolerance := FaultToleranceConfig(
    0.4, 10, 10.0, 1.5, 3.0, 1.5, 0.05, 2.0, 1.0, true, true)

  const DefaultPool := PoolConfig(Some(50), 5, 50, 6, true, 300)
}

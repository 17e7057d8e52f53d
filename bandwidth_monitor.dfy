/**
 * `bandwidth_monitor_t` (src/bandwidth_monitor.cpp): turns two samples of an
 * interface's free-running byte counters into throughput and a utilisation
 * percentage.
 *
 * The counter source (sysfs, then /proc/net/dev) is not part of this model: each
 * operation that reads the counters receives the sample the source would return,
 * with both counters at UINT64_MAX when the read failed. Timestamps are whole
 * milliseconds of the monotonic clock. The source's doubles are modelled as reals.
 */
module BandwidthMonitor {
  import opened BoundedInts

  /** `network_stats_t`. */
  datatype NetworkStats = NetworkStats(rxBytes: uint64, txBytes: uint64, timestampMs: int)

  /** `bandwidth_info_t`. */
  datatype BandwidthInfo = BandwidthInfo(
    rxMbps: real, txMbps: real, totalMbps: real, usagePercentage: real, valid: bool)

  /** The reading returned whenever no throughput can be computed. */
  const INVALID_READING := BandwidthInfo(0.0, 0.0, 0.0, 0.0, false)

  /** Shortest interval between two samples that yields a reading. */
  const MIN_INTERVAL_MS := 100

  /** A counter of UINT64_MAX is the source's sentinel for a failed read. */
  predicate IsFailedRead(s: NetworkStats) {
    s.rxBytes == UINT64_MAX || s.txBytes == UINT64_MAX
  }

  /**
   * The byte delta between two counter values: the plain difference when the
   * counter did not go down, otherwise `(UINT64_MAX - prev) + cur`, which never
   * overflows 64 bits and counts one byte less than the modular difference.
   */
  function CounterDelta(prev: uint64, cur: uint64): (d: uint64)
    ensures cur >= prev ==> prev + d == cur
    ensures cur < prev ==> prev + d + 1 == cur + 0x1_0000_0000_0000_0000
  {
    if cur >= prev then cur - prev else (UINT64_MAX - prev) + cur
  }

  /** Across a wrap the delta is the 64-bit modular difference minus one; otherwise it is that difference. */
  lemma CounterDeltaModular(prev: uint64, cur: uint64)
    ensures CounterDelta(prev, cur) == (cur - prev) % 0x1_0000_0000_0000_0000 - (if cur < prev then 1 else 0)
  {
  }

  /** A counter that wrapped from 2^64 - 51 to 10 yields 60 bytes. */
  lemma CounterDeltaWrapExample()
    ensures CounterDelta(0xFFFF_FFFF_FFFF_FFFF - 50, 10) == 60
  {
  }

  /** Megabits per second for `bytes` transferred in `elapsedMs` milliseconds. */
  function Mbps(bytes: uint64, elapsedMs: int): (mbps: real)
    requires elapsedMs >= MIN_INTERVAL_MS
    ensures mbps >= 0.0
    ensures mbps * (elapsedMs as real) * 125.0 == bytes as real
  {
    var seconds := elapsedMs as real / 1000.0;
    (bytes as real * 8.0) / (seconds * 1000000.0)
  }

  /** Throughput as a percentage of the link capacity, capped at 100. */
  function UsagePercentage(totalMbps: real, capacityMbps: uint32): (p: real)
    requires capacityMbps > 0 && totalMbps >= 0.0
    ensures 0.0 <= p <= 100.0
    ensures p == 100.0 <==> totalMbps >= capacityMbps as real
    ensures p < 100.0 ==> p * (capacityMbps as real) == totalMbps * 100.0
  {
    var usage := (totalMbps / capacityMbps as real) * 100.0;
    assert usage * (capacityMbps as real) == totalMbps * 100.0;
    assert usage >= 100.0 <==> totalMbps >= capacityMbps as real by {
      var c := capacityMbps as real;
      assert usage * c - 100.0 * c == (totalMbps - c) * 100.0;
      assert usage * c - 100.0 * c == (usage - 100.0) * c;
    }
    if usage > 100.0 then 100.0 else usage
  }

  /**
   * What `get_bandwidth_usage` computes from the baseline `last` and a fresh sample
   * once the monitor is initialised: no reading when the sample is a failed read or
   * less than 100 ms have passed, whatever the counters; otherwise rx and tx
   * throughput from the wrap-safe deltas, their sum, and the capped percentage.
   */
  function Reading(last: NetworkStats, current: NetworkStats, capacityMbps: uint32): (info: BandwidthInfo)
    requires capacityMbps > 0
    ensures info.valid <==> !IsFailedRead(current) && current.timestampMs - last.timestampMs >= MIN_INTERVAL_MS
    ensures !info.valid ==> info == INVALID_READING
    ensures info.valid ==>
      var elapsedMs := current.timestampMs - last.timestampMs;
      && info.rxMbps == Mbps(CounterDelta(last.rxBytes, current.rxBytes), elapsedMs)
      && info.txMbps == Mbps(CounterDelta(last.txBytes, current.txBytes), elapsedMs)
      && info.totalMbps == info.rxMbps + info.txMbps
      && 0.0 <= info.usagePercentage <= 100.0
      && info.usagePercentage == UsagePercentage(info.totalMbps, capacityMbps)
  {
    if IsFailedRead(current) then INVALID_READING
    else
      var elapsedMs := current.timestampMs - last.timestampMs;
      if elapsedMs < MIN_INTERVAL_MS then INVALID_READING
      else
        var rx := Mbps(CounterDelta(last.rxBytes, current.rxBytes), elapsedMs);
        var tx := Mbps(CounterDelta(last.txBytes, current.txBytes), elapsedMs);
        BandwidthInfo(rx, tx, rx + tx, UsagePercentage(rx + tx, capacityMbps), true)
  }

  /** 125,000 bytes each way in one second on a 2000 Mbps link: 1 Mbps each way, 2 Mbps in all, 0.1 %. */
  lemma OneMegabitEachWay()
    ensures Reading(NetworkStats(0, 0, 0), NetworkStats(125000, 125000, 1000), 2000)
         == BandwidthInfo(1.0, 1.0, 2.0, 0.1, true)
  {
  }

  class Monitor {
    const interfaceName: string
    const capacityMbps: uint32
    var lastStats: NetworkStats
    var initialized: bool

    /** A monitor that has taken no sample yet; its baseline is meaningless until `Initialize`. */
    constructor (interfaceName: string, capacityMbps: uint32)
      ensures this.interfaceName == interfaceName && this.capacityMbps == capacityMbps
      ensures !initialized
    {
      this.interfaceName := interfaceName;
      this.capacityMbps := capacityMbps;
      lastStats := NetworkStats(0, 0, 0);
      initialized := false;
    }

    /**
     * `initialize`: fails without touching the monitor when the interface does not
     * exist; otherwise takes `sample` as the baseline and is initialised exactly when
     * neither counter is the failure sentinel.
     */
    method Initialize(interfaceExists: bool, sample: NetworkStats) returns (ok: bool)
      modifies this
      ensures !interfaceExists ==> !ok && lastStats == old(lastStats) && initialized == old(initialized)
      ensures interfaceExists ==> lastStats == sample && initialized == !IsFailedRead(sample)
      ensures interfaceExists ==> ok == initialized
      ensures ok <==> interfaceExists && !IsFailedRead(sample)
    {
      if !interfaceExists {
        return false;
      }
      lastStats := sample;
      initialized := lastStats.rxBytes != UINT64_MAX && lastStats.txBytes != UINT64_MAX;
      ok := initialized;
    }

    /**
     * `get_bandwidth_usage`: the invalid reading when not initialised; otherwise the
     * reading of `sample` against the baseline, which the sample replaces only when
     * the reading is valid.
     */
    method GetBandwidthUsage(sample: NetworkStats) returns (info: BandwidthInfo)
      requires capacityMbps > 0
      modifies this
      ensures initialized == old(initialized)
      ensures !initialized ==> info == INVALID_READING && lastStats == old(lastStats)
      ensures initialized ==> info == Reading(old(lastStats), sample, capacityMbps)
      ensures lastStats == if info.valid then sample else old(lastStats)
    {
      info := INVALID_READING;
      if !initialized {
        return;
      }
      var current := sample;
      if current.rxBytes == UINT64_MAX || current.txBytes == UINT64_MAX {
        return;
      }
      var timeDiff := current.timestampMs - lastStats.timestampMs;
      if timeDiff < 100 {
        return;
      }
      var seconds := timeDiff as real / 1000.0;
      var rxDiff := if current.rxBytes >= lastStats.rxBytes then current.rxBytes - lastStats.rxBytes
                    else (UINT64_MAX - lastStats.rxBytes) + current.rxBytes;
      var txDiff := if current.txBytes >= lastStats.txBytes then current.txBytes - lastStats.txBytes
                    else (UINT64_MAX - lastStats.txBytes) + current.txBytes;
      var rxMbps := (rxDiff as real * 8.0) / (seconds * 1000000.0);
      var txMbps := (txDiff as real * 8.0) / (seconds * 1000000.0);
      var totalMbps := rxMbps + txMbps;
      var usage := (totalMbps / capacityMbps as real) * 100.0;
      if usage > 100.0 {
        usage := 100.0;
      }
      info := BandwidthInfo(rxMbps, txMbps, totalMbps, usage, true);
      lastStats := current;
    }
  }
}

/**
 * The daemon's driver (src/main.cpp): the log-level mapping of `setup_logging`, the
 * polling loop of `run_normal_mode`, the state cycle of `run_testing_mode` and the
 * exit path of `main`.
 *
 * The stop flag `g_running` only ever goes from set to cleared and is read at the top
 * of each iteration, so what a run observes of it is how many iterations start: the
 * number of samples given to normal mode, or `cycles` in testing mode. The samples are
 * what the counter source returns at each iteration; sleeps are not modelled.
 */
module Daemon {
  import opened BoundedInts
  import opened LedCodec
  import opened I2c
  import opened LedController
  import opened BandwidthMonitor
  import opened LedStateManager
  import opened ConfigParser

  // ---------------------------------------------------------------------------
  // setup_logging
  // ---------------------------------------------------------------------------

  /** The syslog priorities the daemon uses. */
  datatype Priority = Debug | Info | Warning | Error

  /** The syslog number of a priority: LOG_DEBUG 7, LOG_INFO 6, LOG_WARNING 4, LOG_ERR 3. */
  function Severity(p: Priority): int {
    match p
    case Debug => 7
    case Info => 6
    case Warning => 4
    case Error => 3
  }

  /** The mask priority for a configured level name; any unknown name means INFO. */
  function LogPriority(level: string): (p: Priority)
    ensures p == Debug <==> level == "debug"
    ensures p == Warning <==> level == "warning"
    ensures p == Error <==> level == "error"
    ensures p == Info <==> level != "debug" && level != "warning" && level != "error"
  {
    if level == "debug" then Debug
    else if level == "info" then Info
    else if level == "warning" then Warning
    else if level == "error" then Error
    else Info
  }

  /** `setlogmask(LOG_UPTO(mask))` lets through messages whose priority number is at most the mask's. */
  predicate Admits(mask: Priority, message: Priority) {
    Severity(message) <= Severity(mask)
  }

  /** Errors are logged whatever the configured level; debug messages only at level "debug". */
  lemma LevelFiltering(level: string)
    ensures Admits(LogPriority(level), Error)
    ensures Admits(LogPriority(level), Debug) <==> level == "debug"
    ensures Admits(LogPriority(level), Info) <==> level == "debug" || (level != "warning" && level != "error")
  {
  }

  // ---------------------------------------------------------------------------
  // update_leds, as both modes use it
  // ---------------------------------------------------------------------------

  /** What applying a state does, starting at a given transaction: `apply_led_state` on the chip `o`. */
  function Applying(o: Oracle, brightness: uint8): (nat, LedState) -> Outcome {
    (m: nat, s: LedState) => ApplyRun(o, m, s, brightness)
  }

  /**
   * `apply` agrees with `apply_led_state` on the chip `o` wherever the latter is
   * considered (the trigger keeps the definition of `ApplyRun` out of proofs that only
   * need `apply`).
   */
  ghost predicate Realises(apply: (nat, LedState) -> Outcome, o: Oracle, brightness: uint8) {
    forall m: nat, s: LedState {:trigger ApplyRun(o, m, s, brightness)} :: apply(m, s) == ApplyRun(o, m, s, brightness)
  }

  lemma ApplyingRealises(o: Oracle, brightness: uint8)
    ensures Realises(Applying(o, brightness), o, brightness)
  {
  }

  /** Every application of a state succeeds exactly when all the writes it issued returned 0. */
  ghost predicate ReportsWrites(o: Oracle, apply: (nat, LedState) -> Outcome) {
    forall m: nat, s: LedState :: apply(m, s).ok <==> WritesSucceed(o, m, |apply(m, s).sent|)
  }

  /** `apply_led_state` reports its writes faithfully. */
  lemma ApplyingReportsWrites(o: Oracle, brightness: uint8)
    ensures ReportsWrites(o, Applying(o, brightness))
  {
    forall m: nat, s: LedState
      ensures Applying(o, brightness)(m, s).ok <==> WritesSucceed(o, m, |Applying(o, brightness)(m, s).sent|)
    {
      ApplySucceedsIffAllWritesAccepted(o, m, s, brightness);
    }
  }

  // ---------------------------------------------------------------------------
  // run_normal_mode
  // ---------------------------------------------------------------------------

  /** Consecutive invalid readings after which normal mode gives up. */
  const MAX_FAILURES: nat := 10

  /** The baseline the monitor holds and the reading taken at each sample, after `samples`. */
  datatype Fed = Fed(baseline: NetworkStats, readings: seq<BandwidthInfo>)

  /** Feeds `samples` to a monitor initialised on `initial`: each reading is taken against the current baseline. */
  function Feed(initial: NetworkStats, samples: seq<NetworkStats>, capacityMbps: uint32): (f: Fed)
    requires capacityMbps > 0
    ensures |f.readings| == |samples|
  {
    if samples == [] then Fed(initial, [])
    else
      var prev := Feed(initial, samples[..|samples| - 1], capacityMbps);
      var sample := samples[|samples| - 1];
      var info := Reading(prev.baseline, sample, capacityMbps);
      Fed(if info.valid then sample else prev.baseline, prev.readings + [info])
  }

  /** The readings taken at a prefix of the samples are a prefix of the readings. */
  lemma {:induction false} FeedPrefix(initial: NetworkStats, samples: seq<NetworkStats>, capacityMbps: uint32, k: nat)
    requires capacityMbps > 0 && k <= |samples|
    ensures Feed(initial, samples[..k], capacityMbps).readings == Feed(initial, samples, capacityMbps).readings[..k]
    decreases |samples|
  {
    if k < |samples| {
      var prefix := samples[..|samples| - 1];
      assert samples[..k] == prefix[..k];
      FeedPrefix(initial, prefix, capacityMbps, k);
    } else {
      assert samples[..k] == samples;
    }
  }

  /** Reading `i` is taken against the baseline left by the readings before it, and replaces it when valid. */
  lemma FeedStep(initial: NetworkStats, samples: seq<NetworkStats>, capacityMbps: uint32, i: nat)
    requires capacityMbps > 0 && i < |samples|
    ensures var before := Feed(initial, samples[..i], capacityMbps);
      var info := Feed(initial, samples, capacityMbps).readings[i];
      && info == Reading(before.baseline, samples[i], capacityMbps)
      && Feed(initial, samples[..i + 1], capacityMbps).baseline == if info.valid then samples[i] else before.baseline
  {
    FeedPrefix(initial, samples, capacityMbps, i + 1);
    assert samples[..i + 1][..i] == samples[..i];
  }

  /** Which readings were valid. */
  function Validity(readings: seq<BandwidthInfo>): (valid: seq<bool>)
    ensures |valid| == |readings|
  {
    seq(|readings|, k requires 0 <= k < |readings| => readings[k].valid)
  }

  lemma ValidityStep(readings: seq<BandwidthInfo>, i: nat)
    requires i < |readings|
    ensures Validity(readings)[..i + 1] == Validity(readings)[..i] + [readings[i].valid]
    ensures Validity(readings)[..i + 1][..i] == Validity(readings)[..i]
  {
  }

  lemma WindowStep<T>(s: seq<T>, i: nat, j: nat)
    requires i < j <= |s|
    ensures s[i..j] != [] && s[i..j][0] == s[i] && s[i..j][1..] == s[i + 1..j]
  {
  }

  /** `consecutive_failures` after the readings `valid`: the length of their trailing run of invalid ones. */
  function Streak(valid: seq<bool>): (n: nat)
    ensures n <= |valid|
  {
    if valid == [] || valid[|valid| - 1] then 0 else Streak(valid[..|valid| - 1]) + 1
  }

  /** The counter reached the limit after some prefix of `valid`. */
  predicate Reached(valid: seq<bool>) {
    valid != [] && (Reached(valid[..|valid| - 1]) || Streak(valid) >= MAX_FAILURES)
  }

  /** The counter is at least `m` exactly when the last `m` readings were all invalid. */
  lemma {:induction false} StreakWindow(valid: seq<bool>, m: nat)
    ensures Streak(valid) >= m <==> m <= |valid| && forall t | |valid| - m <= t < |valid| :: !valid[t]
    decreases |valid|
  {
    if valid != [] && m > 0 {
      var prefix := valid[..|valid| - 1];
      StreakWindow(prefix, m - 1);
      if m <= |valid| && forall t | |valid| - m <= t < |valid| :: !valid[t] {
        assert !valid[|valid| - 1];
        forall t | |prefix| - (m - 1) <= t < |prefix|
          ensures !prefix[t]
        {
          assert prefix[t] == valid[t];
        }
      }
      if Streak(valid) >= m {
        forall t | |valid| - m <= t < |valid|
          ensures !valid[t]
        {
          if t < |valid| - 1 {
            assert prefix[t] == valid[t];
          }
        }
      }
    }
  }

  /** Once the limit is reached after a prefix, it has been reached after the whole sequence. */
  lemma {:induction false} ReachedPrefix(valid: seq<bool>, k: nat)
    requires k <= |valid| && Reached(valid[..k])
    ensures Reached(valid)
    decreases |valid|
  {
    if k < |valid| {
      var prefix := valid[..|valid| - 1];
      assert valid[..k] == prefix[..k];
      ReachedPrefix(prefix, k);
    } else {
      assert valid[..k] == valid;
    }
  }

  /** The ten readings from position `j` on exist and are all invalid. */
  predicate InvalidRun(valid: seq<bool>, j: nat) {
    j + MAX_FAILURES <= |valid| && forall t | j <= t < j + MAX_FAILURES :: !valid[t]
  }

  /** The limit is reached exactly when ten consecutive readings were invalid. */
  lemma {:induction false} ReachedIffTenInvalidInARow(valid: seq<bool>)
    ensures Reached(valid) <==> exists j: nat :: InvalidRun(valid, j)
    decreases |valid|
  {
    if valid == [] {
      return;
    }
    var prefix := valid[..|valid| - 1];
    if Reached(valid) {
      if Reached(prefix) {
        ReachedIffTenInvalidInARow(prefix);
        var j: nat :| InvalidRun(prefix, j);
        forall t | j <= t < j + MAX_FAILURES
          ensures !valid[t]
        {
          assert !prefix[t];
        }
        assert InvalidRun(valid, j);
      } else {
        StreakWindow(valid, MAX_FAILURES);
        assert InvalidRun(valid, |valid| - MAX_FAILURES);
      }
    }
    if exists j: nat :: InvalidRun(valid, j) {
      var j: nat :| InvalidRun(valid, j);
      var k := j + MAX_FAILURES;
      var window := valid[..k];
      forall t | |window| - MAX_FAILURES <= t < |window|
        ensures !window[t]
      {
        assert window[t] == valid[t];
      }
      StreakWindow(window, MAX_FAILURES);
      assert Reached(window);
      ReachedPrefix(valid, k);
    }
  }

  /** Nine invalid readings in a row are survived, a tenth ends the run, and a valid one in between resets the count. */
  lemma TenthFailureIsFatal()
    ensures !Reached(seq(9, _ => false))
    ensures Reached(seq(10, _ => false))
    ensures !Reached(seq(5, _ => false) + [true] + seq(9, _ => false))
  {
    var nine: seq<bool> := seq(9, _ => false);
    ReachedIffTenInvalidInARow(nine);
    var ten: seq<bool> := seq(10, _ => false);
    assert InvalidRun(ten, 0);
    ReachedIffTenInvalidInARow(ten);
    var broken := seq(5, _ => false) + [true] + seq(9, _ => false);
    forall j: nat
      ensures !InvalidRun(broken, j)
    {
      if j + MAX_FAILURES <= |broken| {
        assert j <= 5 < j + MAX_FAILURES && broken[5];
      }
    }
    ReachedIffTenInvalidInARow(broken);
  }

  /**
   * How many readings normal mode takes before it stops: up to and including the one
   * at which the limit is first reached, or all of them.
   */
  function Stop(valid: seq<bool>): (taken: nat)
    ensures taken <= |valid|
  {
    if valid == [] || !Reached(valid[..|valid| - 1]) then |valid| else Stop(valid[..|valid| - 1])
  }

  /** A run still going after `i` readings takes more than `i` when readings remain. */
  lemma {:induction false} StopBeyond(valid: seq<bool>, i: nat)
    requires i < |valid| && !Reached(valid[..i])
    ensures i < Stop(valid)
    decreases |valid|
  {
    var prefix := valid[..|valid| - 1];
    if Reached(prefix) {
      assert prefix[..i] == valid[..i];
      StopBeyond(prefix, i);
    }
  }

  /** A run that first reaches the limit at reading `k` takes exactly `k` readings. */
  lemma {:induction false} StopAt(valid: seq<bool>, k: nat)
    requires 1 <= k <= |valid| && Reached(valid[..k]) && !Reached(valid[..k - 1])
    ensures Stop(valid) == k
    decreases |valid|
  {
    var prefix := valid[..|valid| - 1];
    if k == |valid| {
      assert valid[..k - 1] == prefix;
    } else {
      assert prefix[..k] == valid[..k];
      assert prefix[..k - 1] == valid[..k - 1];
      ReachedPrefix(prefix, k);
      StopAt(prefix, k);
    }
  }

  /** A run that never reaches the limit takes every reading. */
  lemma StopAll(valid: seq<bool>)
    requires !Reached(valid)
    ensures Stop(valid) == |valid|
  {
  }

  /** The commands sent to the LEDs and the state the manager holds afterwards. */
  datatype Shown = Shown(sent: seq<Sent>, state: LedState)

  /**
   * The LED updates of normal mode for `readings`, the first from transaction `n` on,
   * with `current` the manager's state: an invalid reading changes nothing; a valid one
   * is given to `update_leds`, which applies the state for its usage when that differs
   * from the current one and makes it current only when applying it succeeded. A
   * failed update does not stop the run.
   */
  function Updates(apply: (nat, LedState) -> Outcome, n: nat, low: uint8, medium: uint8, high: uint8,
                   current: LedState, readings: seq<BandwidthInfo>): Shown
    decreases |readings|
  {
    if readings == [] then Shown([], current)
    else
      var target := DetermineState(readings[0].usagePercentage, low, medium, high);
      if !readings[0].valid || target == current then
        Updates(apply, n, low, medium, high, current, readings[1..])
      else
        var a := apply(n, target);
        var rest := Updates(apply, n + |a.sent|, low, medium, high, if a.ok then target else current, readings[1..]);
        Shown(a.sent + rest.sent, rest.state)
  }

  /** The state the LEDs should show after `readings`: that of the last valid one, if any. */
  function LastTarget(current: LedState, low: uint8, medium: uint8, high: uint8, readings: seq<BandwidthInfo>): LedState
    decreases |readings|
  {
    if readings == [] then current
    else
      var next := if readings[0].valid then DetermineState(readings[0].usagePercentage, low, medium, high)
                  else current;
      LastTarget(next, low, medium, high, readings[1..])
  }

  /** When every write is accepted, normal mode leaves current the state of the last valid reading. */
  lemma {:induction false} UpdatesFollowLastValid(o: Oracle, apply: (nat, LedState) -> Outcome, n: nat,
                                                 low: uint8, medium: uint8, high: uint8, current: LedState,
                                                 readings: seq<BandwidthInfo>)
    requires ReportsWrites(o, apply)
    requires WritesSucceed(o, n, |Updates(apply, n, low, medium, high, current, readings).sent|)
    ensures Updates(apply, n, low, medium, high, current, readings).state
         == LastTarget(current, low, medium, high, readings)
    decreases |readings|
  {
    if readings != [] {
      var target := DetermineState(readings[0].usagePercentage, low, medium, high);
      if !readings[0].valid || target == current {
        UpdatesFollowLastValid(o, apply, n, low, medium, high, current, readings[1..]);
      } else {
        var a := apply(n, target);
        var rest := Updates(apply, n + |a.sent|, low, medium, high, if a.ok then target else current, readings[1..]);
        WritesSucceedSplit(o, n, |a.sent|, |rest.sent|);
        UpdatesFollowLastValid(o, apply, n + |a.sent|, low, medium, high, target, readings[1..]);
      }
    }
  }

  /** Normal mode on the chip, when every write it issued returned 0, leaves current the state of the last valid reading. */
  lemma NormalModeShowsLastValid(o: Oracle, brightness: uint8, n: nat, low: uint8, medium: uint8, high: uint8,
                                 current: LedState, readings: seq<BandwidthInfo>)
    requires WritesSucceed(o, n, |Updates(Applying(o, brightness), n, low, medium, high, current, readings).sent|)
    ensures Updates(Applying(o, brightness), n, low, medium, high, current, readings).state
         == LastTarget(current, low, medium, high, readings)
  {
    ApplyingReportsWrites(o, brightness);
    UpdatesFollowLastValid(o, Applying(o, brightness), n, low, medium, high, current, readings);
  }

  /** A failed update leaves the state unchanged, so the next reading with the same target applies it again. */
  lemma UpdatesRetryAfterFailure(apply: (nat, LedState) -> Outcome, n: nat, low: uint8, medium: uint8, high: uint8,
                                 current: LedState, info: BandwidthInfo)
    requires info.valid
    requires DetermineState(info.usagePercentage, low, medium, high) != current
    requires !apply(n, DetermineState(info.usagePercentage, low, medium, high)).ok
    ensures var target := DetermineState(info.usagePercentage, low, medium, high);
      var first := apply(n, target);
      var second := apply(n + |first.sent|, target);
      Updates(apply, n, low, medium, high, current, [info, info]).sent == first.sent + second.sent
  {
    var target := DetermineState(info.usagePercentage, low, medium, high);
    var first := apply(n, target);
    assert [info, info][1..] == [info];
    assert [info][1..] == [];
    var second := apply(n + |first.sent|, target);
    assert Updates(apply, n + |first.sent|, low, medium, high, current, [info]).sent == second.sent + [];
  }

  /** The outcome `whole` of a run is what was sent so far followed by the outcome of the rest. */
  predicate ShownSoFar(whole: Shown, sent: seq<Sent>, rest: Shown) {
    whole == Shown(sent + rest.sent, rest.state)
  }

  /** One reading `info` moves what its update sends from the rest of the run to what was sent. */
  lemma {:induction false} UpdatesAdvance(whole: Shown, sent: seq<Sent>, apply: (nat, LedState) -> Outcome, n: nat,
                                          low: uint8, medium: uint8, high: uint8, current: LedState,
                                          readings: seq<BandwidthInfo>, info: BandwidthInfo, rest: seq<BandwidthInfo>)
    requires readings != [] && readings[0] == info && readings[1..] == rest
    requires ShownSoFar(whole, sent, Updates(apply, n, low, medium, high, current, readings))
    ensures var target := DetermineState(info.usagePercentage, low, medium, high);
      var a := apply(n, target);
      && (!info.valid || target == current ==>
            ShownSoFar(whole, sent, Updates(apply, n, low, medium, high, current, rest)))
      && (info.valid && target != current ==>
            ShownSoFar(whole, sent + a.sent, Updates(apply, n + |a.sent|, low, medium, high,
                                                     if a.ok then target else current, rest)))
  {
    var target := DetermineState(info.usagePercentage, low, medium, high);
    var a := apply(n, target);
    if info.valid && target != current {
      var after := Updates(apply, n + |a.sent|, low, medium, high, if a.ok then target else current, rest);
      assert sent + (a.sent + after.sent) == sent + a.sent + after.sent;
    }
  }

  /**
   * The LED update of one iteration of `run_normal_mode` on the valid reading `info`,
   * whose result the loop ignores. What it sends moves from the rest of the run
   * `whole` to what was sent.
   */
  method ShowReading(manager: LedStateManager, info: BandwidthInfo, ghost apply: (nat, LedState) -> Outcome,
                     ghost readings: seq<BandwidthInfo>, ghost rest: seq<BandwidthInfo>, ghost whole: Shown,
                     ghost start: seq<Transaction>, ghost sent: seq<Sent>)
    returns (ghost sentNow: seq<Sent>)
    requires info.valid && readings != [] && readings[0] == info && readings[1..] == rest
    requires Realises(apply, manager.controller.i2c.oracle, manager.brightness)
    requires manager.controller.i2c.log == start + Transmit(sent)
    requires ShownSoFar(whole, sent, Updates(apply, |manager.controller.i2c.log|, manager.lowThreshold,
                                             manager.mediumThreshold, manager.highThreshold,
                                             manager.currentState, readings))
    modifies manager, manager.controller.i2c
    ensures manager.controller.i2c.log == start + Transmit(sentNow)
    ensures ShownSoFar(whole, sentNow, Updates(apply, |manager.controller.i2c.log|, manager.lowThreshold,
                                               manager.mediumThreshold, manager.highThreshold,
                                               manager.currentState, rest))
  {
    ghost var n := |manager.controller.i2c.log|;
    ghost var before := manager.currentState;
    ghost var target := manager.StateForUsage(info.usagePercentage);
    ghost var a := apply(n, target);
    UpdatesAdvance(whole, sent, apply, n, manager.lowThreshold, manager.mediumThreshold, manager.highThreshold,
                   before, readings, info, rest);
    var _ := manager.UpdateLeds(info);
    sentNow := sent;
    if target != before {
      assert a == ApplyRun(manager.controller.i2c.oracle, n, target, manager.brightness);
      TransmitAppend(sent, a.sent);
      sentNow := sent + a.sent;
      assert |manager.controller.i2c.log| == n + |a.sent|;
      assert manager.currentState == if a.ok then target else before;
    }
  }

  /**
   * After `i` readings with `failures` counted and the limit not reached, reading `i`
   * is taken; a valid one resets the count, an invalid one raises it, and when that
   * reaches the limit the run has reached it and takes exactly `i + 1` readings.
   */
  lemma {:induction false} CountReading(valid: seq<bool>, i: nat, failures: int)
    requires i < |valid| && failures == Streak(valid[..i]) && !Reached(valid[..i])
    ensures i < Stop(valid)
    ensures valid[i] ==> 0 == Streak(valid[..i + 1]) && !Reached(valid[..i + 1])
    ensures !valid[i] && failures + 1 < MAX_FAILURES ==>
      failures + 1 == Streak(valid[..i + 1]) && !Reached(valid[..i + 1])
    ensures !valid[i] && failures + 1 >= MAX_FAILURES ==> Reached(valid) && Stop(valid) == i + 1
  {
    StopBeyond(valid, i);
    assert valid[..i + 1][..i] == valid[..i];
    if !valid[i] && failures + 1 >= MAX_FAILURES {
      ReachedPrefix(valid, i + 1);
      StopAt(valid, i + 1);
    }
  }

  /** Once no readings remain, the run's outcome is what was sent and the current state. */
  lemma UpdatesDone(whole: Shown, sent: seq<Sent>, apply: (nat, LedState) -> Outcome, n: nat,
                    low: uint8, medium: uint8, high: uint8, current: LedState, rest: seq<BandwidthInfo>)
    requires rest == [] && ShownSoFar(whole, sent, Updates(apply, n, low, medium, high, current, rest))
    ensures whole == Shown(sent, current)
  {
    assert sent + [] == sent;
  }

  /**
   * One iteration of the loop of `run_normal_mode`, after `i` readings of `all` with
   * `failures` consecutive invalid ones: take the next reading, update the LEDs on a
   * valid one, count an invalid one, and give up when the count reaches the limit.
   */
  method NormalIteration(monitor: Monitor, manager: LedStateManager, initial: NetworkStats, samples: seq<NetworkStats>,
                         i: nat, failures: int, ghost all: seq<BandwidthInfo>, ghost valid: seq<bool>,
                         ghost apply: (nat, LedState) -> Outcome, ghost taken: nat, ghost whole: Shown,
                         ghost start: seq<Transaction>, ghost sent: seq<Sent>)
    returns (failuresNow: int, giveUp: bool, ghost sentNow: seq<Sent>)
    requires monitor.capacityMbps > 0 && monitor.initialized && i < |samples|
    requires all == Feed(initial, samples, monitor.capacityMbps).readings && valid == Validity(all)
    requires Realises(apply, manager.controller.i2c.oracle, manager.brightness)
    requires taken == Stop(valid) && i <= taken
    requires monitor.lastStats == Feed(initial, samples[..i], monitor.capacityMbps).baseline
    requires failures == Streak(valid[..i]) && !Reached(valid[..i])
    requires manager.controller.i2c.log == start + Transmit(sent)
    requires ShownSoFar(whole, sent, Updates(apply, |manager.controller.i2c.log|, manager.lowThreshold,
                                             manager.mediumThreshold, manager.highThreshold,
                                             manager.currentState, all[i..taken]))
    modifies monitor, manager, manager.controller.i2c
    ensures monitor.initialized && manager.controller.i2c.log == start + Transmit(sentNow)
    ensures giveUp ==> Reached(valid) && taken == i + 1 && whole == Shown(sentNow, manager.currentState)
    ensures !giveUp ==>
      && i + 1 <= taken
      && monitor.lastStats == Feed(initial, samples[..i + 1], monitor.capacityMbps).baseline
      && failuresNow == Streak(valid[..i + 1]) && !Reached(valid[..i + 1])
      && ShownSoFar(whole, sentNow, Updates(apply, |manager.controller.i2c.log|, manager.lowThreshold,
                                            manager.mediumThreshold, manager.highThreshold,
                                            manager.currentState, all[i + 1..taken]))
  {
    CountReading(valid, i, failures);
    FeedStep(initial, samples, monitor.capacityMbps, i);
    WindowStep(all, i, taken);
    var info := monitor.GetBandwidthUsage(samples[i]);
    assert info == all[i] && valid[i] == info.valid;
    giveUp := false;
    if info.valid {
      failuresNow := 0;
      sentNow := ShowReading(manager, info, apply, all[i..taken], all[i + 1..taken], whole, start, sent);
    } else {
      sentNow := sent;
      UpdatesAdvance(whole, sent, apply, |manager.controller.i2c.log|, manager.lowThreshold, manager.mediumThreshold,
                     manager.highThreshold, manager.currentState, all[i..taken], info, all[i + 1..taken]);
      failuresNow := failures + 1;
      if failuresNow >= MAX_FAILURES {
        UpdatesDone(whole, sentNow, apply, |manager.controller.i2c.log|, manager.lowThreshold,
                    manager.mediumThreshold, manager.highThreshold, manager.currentState, all[i + 1..taken]);
        giveUp := true;
      }
    }
  }

  /**
   * `run_normal_mode`: fails before any iteration when the monitor cannot be
   * initialised; otherwise takes one reading per sample, resets the failure counter
   * on a valid reading and updates the LEDs, and counts an invalid one, giving up when
   * the counter reaches ten. It returns true exactly when initialisation worked and the
   * limit was never reached, and it sends what `Updates` describes for the readings
   * taken.
   */
  method RunNormalMode(monitor: Monitor, manager: LedStateManager, interfaceExists: bool,
                       initial: NetworkStats, samples: seq<NetworkStats>)
    returns (ok: bool)
    requires monitor.capacityMbps > 0
    modifies monitor, manager, manager.controller.i2c
    ensures var readings := Feed(initial, samples, monitor.capacityMbps).readings;
      ok <==> interfaceExists && !IsFailedRead(initial) && !Reached(Validity(readings))
    ensures var readings := Feed(initial, samples, monitor.capacityMbps).readings;
      var taken := if interfaceExists && !IsFailedRead(initial) then Stop(Validity(readings)) else 0;
      var u := Updates(Applying(manager.controller.i2c.oracle, manager.brightness),
                       |old(manager.controller.i2c.log)|, manager.lowThreshold, manager.mediumThreshold,
                       manager.highThreshold, old(manager.currentState), readings[..taken]);
      manager.controller.i2c.log == old(manager.controller.i2c.log) + Transmit(u.sent)
      && manager.currentState == u.state
  {
    ghost var apply := Applying(manager.controller.i2c.oracle, manager.brightness);
    ApplyingRealises(manager.controller.i2c.oracle, manager.brightness);
    ghost var start := manager.controller.i2c.log;
    ghost var all := Feed(initial, samples, monitor.capacityMbps).readings;
    ghost var valid := Validity(all);
    ok := monitor.Initialize(interfaceExists, initial);
    if !ok {
      assert all[..0] == [];
      assert Transmit([]) == [];
      return false;
    }
    ghost var taken := Stop(valid);
    ghost var whole := Updates(apply, |start|, manager.lowThreshold, manager.mediumThreshold,
                               manager.highThreshold, manager.currentState, all[..taken]);
    ghost var sent: seq<Sent> := [];
    assert all[..taken] == all[0..taken];
    assert [] + whole.sent == whole.sent;
    var consecutiveFailures := 0;
    var i := 0;
    while i < |samples|
      invariant 0 <= i <= |samples| && i <= taken
      invariant monitor.initialized
      invariant monitor.lastStats == Feed(initial, samples[..i], monitor.capacityMbps).baseline
      invariant consecutiveFailures == Streak(valid[..i]) && !Reached(valid[..i])
      invariant manager.controller.i2c.log == start + Transmit(sent)
      invariant ShownSoFar(whole, sent, Updates(apply, |manager.controller.i2c.log|, manager.lowThreshold,
                                                manager.mediumThreshold, manager.highThreshold,
                                                manager.currentState, all[i..taken]))
    {
      var giveUp;
      consecutiveFailures, giveUp, sent := NormalIteration(monitor, manager, initial, samples, i, consecutiveFailures,
                                                           all, valid, apply, taken, whole, start, sent);
      if giveUp {
        return false;
      }
      i := i + 1;
    }
    assert samples[..i] == samples;
    assert valid[..i] == valid;
    StopAll(valid);
    assert sent + [] == sent;
    return true;
  }

  // ---------------------------------------------------------------------------
  // run_testing_mode
  // ---------------------------------------------------------------------------

  /** The usage percentages testing mode cycles through. */
  const TEST_USAGES: seq<real> := [5.0, 25.0, 60.0, 90.0]

  /** The fake reading of testing-mode iteration `k`: always valid, at the usage of the cycle's position. */
  function TestReading(k: nat): (info: BandwidthInfo)
    ensures info.valid && info.usagePercentage == TEST_USAGES[k % 4]
  {
    var usage := TEST_USAGES[k % 4];
    BandwidthInfo(usage * 10.0, usage * 10.0, usage * 20.0, usage, true)
  }

  /** With the default thresholds 10/40/80 the cycle walks the four states in order. */
  lemma TestCycleVisitsEveryState(k: nat)
    ensures DetermineState(TestReading(k).usagePercentage, 10, 40, 80)
         == [UtilizationOff, NetdevGreen, NetdevDisk1Blue, AllUtilizationRed][k % 4]
  {
  }

  /** Advancing the cycle position by one, modulo the cycle's length, follows the iteration count. */
  lemma NextPosition(i: nat)
    ensures (i % 4 + 1) % 4 == (i + 1) % 4
  {
  }

  /** The commands testing mode sends, whether it succeeds, and the state it leaves current. */
  datatype TestOutcome = TestOutcome(sent: seq<Sent>, ok: bool, state: LedState)

  /**
   * Testing mode from iteration `k` on, with `current` the manager's state and `apply`
   * what applying a state from transaction `n` does: each iteration is one
   * `update_leds` with that iteration's reading, which writes nothing when the state
   * does not change; the first failed update ends the run.
   */
  function TestingFrom(apply: (nat, LedState) -> Outcome, n: nat, low: uint8, medium: uint8, high: uint8,
                       current: LedState, k: nat, cycles: nat): TestOutcome
    decreases cycles - k
  {
    if k >= cycles then TestOutcome([], true, current)
    else
      var target := DetermineState(TestReading(k).usagePercentage, low, medium, high);
      if target == current then TestingFrom(apply, n, low, medium, high, current, k + 1, cycles)
      else
        var a := apply(n, target);
        if !a.ok then TestOutcome(a.sent, false, current)
        else
          var rest := TestingFrom(apply, n + |a.sent|, low, medium, high, target, k + 1, cycles);
          TestOutcome(a.sent + rest.sent, rest.ok, rest.state)
  }

  /** A testing run whose state applications report their writes succeeds exactly when every write returned 0. */
  lemma {:induction false} TestingSucceedsIffWritesAccepted(o: Oracle, apply: (nat, LedState) -> Outcome, n: nat,
                                                            low: uint8, medium: uint8, high: uint8,
                                                            current: LedState, k: nat, cycles: nat)
    requires ReportsWrites(o, apply)
    ensures var r := TestingFrom(apply, n, low, medium, high, current, k, cycles);
      r.ok <==> WritesSucceed(o, n, |r.sent|)
    decreases cycles - k
  {
    var r := TestingFrom(apply, n, low, medium, high, current, k, cycles);
    if k < cycles {
      var target := DetermineState(TestReading(k).usagePercentage, low, medium, high);
      if target == current {
        assert r == TestingFrom(apply, n, low, medium, high, current, k + 1, cycles);
        TestingSucceedsIffWritesAccepted(o, apply, n, low, medium, high, current, k + 1, cycles);
      } else {
        var a := apply(n, target);
        assert a.ok <==> WritesSucceed(o, n, |a.sent|);
        if a.ok {
          var rest := TestingFrom(apply, n + |a.sent|, low, medium, high, target, k + 1, cycles);
          assert r == TestOutcome(a.sent + rest.sent, rest.ok, rest.state);
          TestingSucceedsIffWritesAccepted(o, apply, n + |a.sent|, low, medium, high, target, k + 1, cycles);
          WritesSucceedSplit(o, n, |a.sent|, |rest.sent|);
        } else {
          assert r == TestOutcome(a.sent, false, current);
        }
      }
    } else {
      assert r == TestOutcome([], true, current);
    }
  }

  /** Testing mode on the chip succeeds exactly when every write it issued returned 0. */
  lemma TestingModeSucceedsIffAllWritesAccepted(o: Oracle, brightness: uint8, n: nat, low: uint8, medium: uint8,
                                               high: uint8, current: LedState, cycles: nat)
    ensures var r := TestingFrom(Applying(o, brightness), n, low, medium, high, current, 0, cycles);
      r.ok <==> WritesSucceed(o, n, |r.sent|)
  {
    ApplyingReportsWrites(o, brightness);
    TestingSucceedsIffWritesAccepted(o, Applying(o, brightness), n, low, medium, high, current, 0, cycles);
  }

  /** A successful testing run leaves current the state of its last reading. */
  lemma {:induction false} TestingEndsInLastState(apply: (nat, LedState) -> Outcome, n: nat, low: uint8,
                                                  medium: uint8, high: uint8, current: LedState,
                                                  k: nat, cycles: nat)
    requires k < cycles
    ensures var r := TestingFrom(apply, n, low, medium, high, current, k, cycles);
      r.ok ==> r.state == DetermineState(TestReading(cycles - 1).usagePercentage, low, medium, high)
    decreases cycles - k
  {
    if k + 1 < cycles {
      var target := DetermineState(TestReading(k).usagePercentage, low, medium, high);
      if target == current {
        TestingEndsInLastState(apply, n, low, medium, high, current, k + 1, cycles);
      } else {
        TestingEndsInLastState(apply, n + |apply(n, target).sent|, low, medium, high, target, k + 1, cycles);
      }
    }
  }

  /** A successful testing run with the default thresholds ends in the state of the cycle position it stopped at. */
  lemma DefaultTestingEndsInCycleState(o: Oracle, brightness: uint8, n: nat, current: LedState, cycles: nat)
    requires cycles > 0
    ensures var r := TestingFrom(Applying(o, brightness), n, 10, 40, 80, current, 0, cycles);
      r.ok ==> r.state == [UtilizationOff, NetdevGreen, NetdevDisk1Blue, AllUtilizationRed][(cycles - 1) % 4]
  {
    TestingEndsInLastState(Applying(o, brightness), n, 10, 40, 80, current, 0, cycles);
    TestCycleVisitsEveryState(cycles - 1);
  }

  /** The outcome `whole` of a run is what was sent so far followed by the outcome of the rest. */
  predicate RunSoFar(whole: TestOutcome, sent: seq<Sent>, rest: TestOutcome) {
    whole == TestOutcome(sent + rest.sent, rest.ok, rest.state)
  }

  /** One iteration of `TestingFrom` moves what it sends from the rest of the run to what was sent. */
  lemma {:induction false} TestingAdvance(whole: TestOutcome, sent: seq<Sent>, apply: (nat, LedState) -> Outcome,
                                          n: nat, low: uint8, medium: uint8, high: uint8,
                                          current: LedState, k: nat, cycles: nat)
    requires k < cycles
    requires RunSoFar(whole, sent, TestingFrom(apply, n, low, medium, high, current, k, cycles))
    ensures var target := DetermineState(TestReading(k).usagePercentage, low, medium, high);
      var a := apply(n, target);
      && (target == current ==>
            RunSoFar(whole, sent, TestingFrom(apply, n, low, medium, high, current, k + 1, cycles)))
      && (target != current && !a.ok ==> whole == TestOutcome(sent + a.sent, false, current))
      && (target != current && a.ok ==>
            RunSoFar(whole, sent + a.sent, TestingFrom(apply, n + |a.sent|, low, medium, high, target, k + 1, cycles)))
  {
    var target := DetermineState(TestReading(k).usagePercentage, low, medium, high);
    var a := apply(n, target);
    if target != current && a.ok {
      var rest := TestingFrom(apply, n + |a.sent|, low, medium, high, target, k + 1, cycles);
      assert sent + (a.sent + rest.sent) == sent + a.sent + rest.sent;
    }
  }

  /**
   * One iteration of `run_testing_mode`: `update_leds` with the reading of iteration
   * `k`. What it sends moves from the rest of the run `whole` to what was sent.
   */
  method TestIteration(manager: LedStateManager, usage: real, ghost apply: (nat, LedState) -> Outcome,
                       ghost k: nat, ghost cycles: nat, ghost whole: TestOutcome,
                       ghost start: seq<Transaction>, ghost sent: seq<Sent>)
    returns (updated: bool, ghost sentNow: seq<Sent>)
    requires k < cycles && usage == TestReading(k).usagePercentage
    requires var target := manager.StateForUsage(usage);
      apply(|manager.controller.i2c.log|, target)
        == ApplyRun(manager.controller.i2c.oracle, |manager.controller.i2c.log|, target, manager.brightness)
    requires manager.controller.i2c.log == start + Transmit(sent)
    requires RunSoFar(whole, sent, TestingFrom(apply, |manager.controller.i2c.log|, manager.lowThreshold,
                                               manager.mediumThreshold, manager.highThreshold,
                                               manager.currentState, k, cycles))
    modifies manager, manager.controller.i2c
    ensures manager.controller.i2c.log == start + Transmit(sentNow)
    ensures updated ==> RunSoFar(whole, sentNow, TestingFrom(apply, |manager.controller.i2c.log|, manager.lowThreshold,
                                                             manager.mediumThreshold, manager.highThreshold,
                                                             manager.currentState, k + 1, cycles))
    ensures !updated ==> whole == TestOutcome(sentNow, false, manager.currentState)
  {
    var info := BandwidthInfo(usage * 10.0, usage * 10.0, usage * 20.0, usage, true);
    ghost var n := |manager.controller.i2c.log|;
    ghost var before := manager.currentState;
    ghost var a := apply(n, manager.StateForUsage(usage));
    TestingAdvance(whole, sent, apply, n, manager.lowThreshold, manager.mediumThreshold, manager.highThreshold,
                   before, k, cycles);
    ghost var target := manager.StateForUsage(usage);
    updated := manager.UpdateLeds(info);
    sentNow := sent;
    if target != before {
      assert a == ApplyRun(manager.controller.i2c.oracle, n, target, manager.brightness);
      assert manager.controller.i2c.log == start + Transmit(sent) + Transmit(a.sent);
      TransmitAppend(sent, a.sent);
      assert start + Transmit(sent) + Transmit(a.sent) == start + (Transmit(sent) + Transmit(a.sent));
      sentNow := sent + a.sent;
      assert |manager.controller.i2c.log| == n + |a.sent|;
      assert updated == a.ok && (updated ==> manager.currentState == target);
    }
  }

  /**
   * `run_testing_mode`: `cycles` iterations, iteration `k` updating the LEDs with the
   * reading at position `k mod 4` of the cycle, returning false on the first failed
   * update. It issues what `TestingFrom` describes.
   */
  method RunTestingMode(manager: LedStateManager, cycles: nat) returns (ok: bool)
    modifies manager, manager.controller.i2c
    ensures var r := TestingFrom(Applying(manager.controller.i2c.oracle, manager.brightness),
                                 |old(manager.controller.i2c.log)|, manager.lowThreshold, manager.mediumThreshold,
                                 manager.highThreshold, old(manager.currentState), 0, cycles);
      && manager.controller.i2c.log == old(manager.controller.i2c.log) + Transmit(r.sent)
      && ok == r.ok && manager.currentState == r.state
  {
    ghost var apply := Applying(manager.controller.i2c.oracle, manager.brightness);
    ghost var start := manager.controller.i2c.log;
    ghost var whole := TestingFrom(apply, |start|, manager.lowThreshold, manager.mediumThreshold,
                                   manager.highThreshold, manager.currentState, 0, cycles);
    ghost var sent: seq<Sent> := [];
    assert [] + whole.sent == whole.sent;
    var currentState := 0;
    var i := 0;
    while i < cycles
      invariant 0 <= i <= cycles && currentState == i % 4
      invariant manager.controller.i2c.log == start + Transmit(sent)
      invariant RunSoFar(whole, sent, TestingFrom(apply, |manager.controller.i2c.log|, manager.lowThreshold,
                                                  manager.mediumThreshold, manager.highThreshold,
                                                  manager.currentState, i, cycles))
    {
      var updated;
      assert apply(|manager.controller.i2c.log|, manager.StateForUsage(TEST_USAGES[currentState]))
          == ApplyRun(manager.controller.i2c.oracle, |manager.controller.i2c.log|,
                      manager.StateForUsage(TEST_USAGES[currentState]), manager.brightness);
      updated, sent := TestIteration(manager, TEST_USAGES[currentState], apply, i, cycles, whole, start, sent);
      if !updated {
        return false;
      }
      NextPosition(i);
      currentState := (currentState + 1) % 4;
      i := i + 1;
    }
    assert sent + [] == sent;
    return true;
  }

  // ---------------------------------------------------------------------------
  // main
  // ---------------------------------------------------------------------------

  /**
   * The mode `main` runs once the LEDs were set to the utilisation-off state: testing
   * mode for `cycles` iterations, or normal mode on a monitor built from the
   * configuration's interface and capacity.
   */
  method RunMode(testMode: bool, manager: LedStateManager, config: Config, cycles: nat,
                 interfaceExists: bool, initial: NetworkStats, samples: seq<NetworkStats>)
    returns (success: bool)
    requires !testMode ==> config.capacityMbps > 0
    requires manager.currentState == UtilizationOff && manager.brightness == config.brightness
    requires manager.lowThreshold == config.lowThreshold && manager.mediumThreshold == config.mediumThreshold
    requires manager.highThreshold == config.highThreshold
    modifies manager, manager.controller.i2c
    ensures testMode ==>
      var r := TestingFrom(Applying(manager.controller.i2c.oracle, config.brightness), |old(manager.controller.i2c.log)|,
                           config.lowThreshold, config.mediumThreshold, config.highThreshold, UtilizationOff, 0, cycles);
      manager.controller.i2c.log == old(manager.controller.i2c.log) + Transmit(r.sent) && success == r.ok
    ensures !testMode ==>
      var readings := Feed(initial, samples, config.capacityMbps).readings;
      var taken := if interfaceExists && !IsFailedRead(initial) then Stop(Validity(readings)) else 0;
      var u := Updates(Applying(manager.controller.i2c.oracle, config.brightness), |old(manager.controller.i2c.log)|,
                       config.lowThreshold, config.mediumThreshold, config.highThreshold, UtilizationOff,
                       readings[..taken]);
      && manager.controller.i2c.log == old(manager.controller.i2c.log) + Transmit(u.sent)
      && (success <==> interfaceExists && !IsFailedRead(initial) && !Reached(Validity(readings)))
  {
    if testMode {
      success := RunTestingMode(manager, cycles);
    } else {
      var monitor := new Monitor(config.interfaceName, config.capacityMbps);
      success := RunNormalMode(monitor, manager, interfaceExists, initial, samples);
    }
  }

  /**
   * The exit path of `main` with the configuration already loaded (loading always
   * succeeds): exit code 1 without touching the LEDs when the controller could not be
   * started; otherwise the LEDs are first set to the utilisation-off state (whatever
   * that returns), the chosen mode runs, all LEDs are switched off, and the exit code
   * is 0 exactly when the mode returned true.
   */
  method RunDaemon(testMode: bool, config: Config, device: Device, started: bool, cycles: nat,
                   interfaceExists: bool, initial: NetworkStats, samples: seq<NetworkStats>)
    returns (exitCode: int, ghost modeOk: bool, ghost beforeShutdown: seq<Transaction>)
    requires !testMode ==> config.capacityMbps > 0
    modifies device
    ensures !started ==> exitCode == 1 && device.log == old(device.log)
    ensures started ==> exitCode == (if modeOk then 0 else 1)
    ensures started ==> device.log == beforeShutdown + TurnOffAllRun(device.oracle, |beforeShutdown|).ops
    ensures started && testMode ==>
      var first := ApplyRun(device.oracle, |old(device.log)|, UtilizationOff, config.brightness);
      var r := TestingFrom(Applying(device.oracle, config.brightness), |old(device.log)| + |first.sent|,
                           config.lowThreshold, config.mediumThreshold, config.highThreshold, UtilizationOff, 0, cycles);
      beforeShutdown == old(device.log) + Transmit(first.sent) + Transmit(r.sent) && modeOk == r.ok
    ensures started && !testMode ==>
      var first := ApplyRun(device.oracle, |old(device.log)|, UtilizationOff, config.brightness);
      var readings := Feed(initial, samples, config.capacityMbps).readings;
      var taken := if interfaceExists && !IsFailedRead(initial) then Stop(Validity(readings)) else 0;
      var u := Updates(Applying(device.oracle, config.brightness), |old(device.log)| + |first.sent|,
                       config.lowThreshold, config.mediumThreshold, config.highThreshold, UtilizationOff,
                       readings[..taken]);
      && beforeShutdown == old(device.log) + Transmit(first.sent) + Transmit(u.sent)
      && (modeOk <==> interfaceExists && !IsFailedRead(initial) && !Reached(Validity(readings)))
  {
    modeOk := false;
    beforeShutdown := device.log;
    if !started {
      return 1, modeOk, beforeShutdown;
    }
    var controller := new LedController(device);
    var manager := new LedStateManager(controller, config);
    ghost var first := ApplyRun(device.oracle, |device.log|, UtilizationOff, config.brightness);
    var _ := manager.SetState(UtilizationOff);
    assert device.log == old(device.log) + Transmit(first.sent);
    var success := RunMode(testMode, manager, config, cycles, interfaceExists, initial, samples);
    modeOk := success;
    beforeShutdown := device.log;
    var _ := controller.TurnOffAllLeds();
    exitCode := if success then 0 else 1;
  }
}

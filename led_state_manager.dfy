/**
 * `led_state_manager_t` (src/led_state_manager.cpp): maps a utilisation percentage to
 * one of four LED states and drives the power, netdev, disk1 and disk2 LEDs to it
 * through the LED controller. The delays between LED updates are not modelled.
 */
module LedStateManager {
  import opened BoundedInts
  import opened LedCodec
  import opened I2c
  import opened LedController
  import opened BandwidthMonitor
  import opened ConfigParser

  /** `led_state_t`, in order of rising utilisation. */
  datatype LedState = UtilizationOff | NetdevGreen | NetdevDisk1Blue | AllUtilizationRed

  /** The position of a state in that order. */
  function Level(s: LedState): nat {
    match s
    case UtilizationOff => 0
    case NetdevGreen => 1
    case NetdevDisk1Blue => 2
    case AllUtilizationRed => 3
  }

  /**
   * `determine_state_from_usage`: the band of the usage, tested against the low,
   * medium and high thresholds in that order.
   */
  function DetermineState(usage: real, low: uint8, medium: uint8, high: uint8): (s: LedState)
    ensures s == UtilizationOff <==> usage < low as real
    ensures s == NetdevGreen <==> low as real <= usage < medium as real
    ensures s == NetdevDisk1Blue <==> low as real <= usage && medium as real <= usage < high as real
    ensures s == AllUtilizationRed <==> low as real <= usage && medium as real <= usage && high as real <= usage
  {
    if usage < low as real then UtilizationOff
    else if usage < medium as real then NetdevGreen
    else if usage < high as real then NetdevDisk1Blue
    else AllUtilizationRed
  }

  /** How many of the thresholds `usage` has reached. */
  function ThresholdsReached(usage: real, low: uint8, medium: uint8, high: uint8): nat {
    (if low as real <= usage then 1 else 0)
    + (if medium as real <= usage then 1 else 0)
    + (if high as real <= usage then 1 else 0)
  }

  /** With ordered thresholds the state's level is the number of thresholds reached. */
  lemma DetermineStateCountsThresholds(usage: real, low: uint8, medium: uint8, high: uint8)
    requires low <= medium <= high
    ensures Level(DetermineState(usage, low, medium, high)) == ThresholdsReached(usage, low, medium, high)
  {
  }

  /** With ordered thresholds more traffic never gives a lower state. */
  lemma {:induction false} DetermineStateMonotone(u1: real, u2: real, low: uint8, medium: uint8, high: uint8)
    requires low <= medium <= high && u1 <= u2
    ensures Level(DetermineState(u1, low, medium, high)) <= Level(DetermineState(u2, low, medium, high))
  {
    DetermineStateCountsThresholds(u1, low, medium, high);
    DetermineStateCountsThresholds(u2, low, medium, high);
  }

  /** The bands of the example configuration's thresholds 10, 40 and 80. */
  lemma ExampleBands()
    ensures DetermineState(0.1, 10, 40, 80) == UtilizationOff
    ensures DetermineState(15.0, 10, 40, 80) == NetdevGreen
    ensures DetermineState(40.0, 10, 40, 80) == NetdevDisk1Blue
    ensures DetermineState(100.0, 10, 40, 80) == AllUtilizationRed
  {
  }

  /** Which of netdev, disk1 and disk2 a state lights, and in what colour. */
  datatype Target = Target(netdevOn: bool, disk1On: bool, disk2On: bool, color: Rgb)

  function LitCount(t: Target): nat {
    (if t.netdevOn then 1 else 0) + (if t.disk1On then 1 else 0) + (if t.disk2On then 1 else 0)
  }

  /** The colour of each level: off, green, blue, red. */
  const LEVEL_COLORS := [COLOR_OFF, COLOR_GREEN, COLOR_BLUE, COLOR_RED]

  /**
   * `get_target_led_states`: a state of level k lights k LEDs, always the first k of
   * netdev, disk1, disk2, in the colour of that level.
   */
  function TargetLedStates(s: LedState): (t: Target)
    ensures LitCount(t) == Level(s)
    ensures (t.disk1On ==> t.netdevOn) && (t.disk2On ==> t.disk1On)
    ensures t.color == LEVEL_COLORS[Level(s)]
  {
    match s
    case UtilizationOff => Target(false, false, false, COLOR_OFF)
    case NetdevGreen => Target(true, false, false, COLOR_GREEN)
    case NetdevDisk1Blue => Target(true, true, false, COLOR_BLUE)
    case AllUtilizationRed => Target(true, true, true, COLOR_RED)
  }

  /** `get_state_name`. */
  function StateName(s: LedState): (name: string)
    ensures name != "UNKNOWN"
  {
    match s
    case UtilizationOff => "UTILIZATION_OFF"
    case NetdevGreen => "NETDEV_GREEN"
    case NetdevDisk1Blue => "NETDEV_DISK1_BLUE"
    case AllUtilizationRed => "ALL_UTILIZATION_RED"
  }

  /** No two states share a name, so the log tells them apart. */
  lemma StateNamesDistinct(s1: LedState, s2: LedState)
    requires s1 != s2
    ensures StateName(s1) != StateName(s2)
  {
    assert |StateName(s1)| != |StateName(s2)|;
  }

  /** What `apply_led_state` issues and whether it reports success. */
  datatype Outcome = Outcome(sent: seq<Sent>, ok: bool)

  /**
   * The utilisation half of `apply_led_state`: netdev, disk1 and disk2 are each set
   * (lit LEDs through `set_led_state`, the others through `turn_off_led`) whatever
   * the results before them, and success means all three returned 0.
   */
  function TargetRun(o: Oracle, n: nat, t: Target, brightness: uint8): Outcome {
    var netdev := SetLedStateRun(o, n, Netdev, t.netdevOn, t.color, brightness);
    var n1 := n + |netdev.sent|;
    var disk1 := SetLedStateRun(o, n1, Disk1, t.disk1On, t.color, brightness);
    var n2 := n1 + |disk1.sent|;
    var disk2 := SetLedStateRun(o, n2, Disk2, t.disk2On, t.color, brightness);
    Outcome(netdev.sent + disk1.sent + disk2.sent, netdev.result == 0 && disk1.result == 0 && disk2.result == 0)
  }

  /**
   * `apply_led_state`: the power LED is set to white first and, when that fails,
   * nothing else happens; otherwise the utilisation LEDs are set to the state's target.
   */
  function ApplyRun(o: Oracle, n: nat, state: LedState, brightness: uint8): Outcome {
    var power := SetLedStateRun(o, n, Power, true, COLOR_WHITE, brightness);
    if power.result != 0 then Outcome(power.sent, false)
    else
      var rest := TargetRun(o, n + |power.sent|, TargetLedStates(state), brightness);
      Outcome(power.sent + rest.sent, rest.ok)
  }

  /** Two stretches of writes, the second right after the first, all succeed exactly when each does. */
  lemma {:induction false} SucceedsThen(o: Oracle, n: nat, ok1: bool, len1: nat, ok2: bool, len2: nat)
    requires ok1 <==> WritesSucceed(o, n, len1)
    requires ok2 <==> WritesSucceed(o, n + len1, len2)
    ensures ok1 && ok2 <==> WritesSucceed(o, n, len1 + len2)
  {
    WritesSucceedSplit(o, n, len1, len2);
  }

  lemma {:induction false} TargetSucceedsIffAllWritesAccepted(o: Oracle, n: nat, t: Target, brightness: uint8)
    ensures var a := TargetRun(o, n, t, brightness);
      a.ok <==> WritesSucceed(o, n, |a.sent|)
  {
    var netdev := SetLedStateRun(o, n, Netdev, t.netdevOn, t.color, brightness);
    SetLedStateRunShape(o, n, Netdev, t.netdevOn, t.color, brightness);
    var n1 := n + |netdev.sent|;
    var disk1 := SetLedStateRun(o, n1, Disk1, t.disk1On, t.color, brightness);
    SetLedStateRunShape(o, n1, Disk1, t.disk1On, t.color, brightness);
    var n2 := n1 + |disk1.sent|;
    var disk2 := SetLedStateRun(o, n2, Disk2, t.disk2On, t.color, brightness);
    SetLedStateRunShape(o, n2, Disk2, t.disk2On, t.color, brightness);
    SucceedsThen(o, n1, disk1.result == 0, |disk1.sent|, disk2.result == 0, |disk2.sent|);
    SucceedsThen(o, n, netdev.result == 0, |netdev.sent|,
                 disk1.result == 0 && disk2.result == 0, |disk1.sent| + |disk2.sent|);
    TargetRunSteps(o, n, t, brightness, netdev, n1, disk1, n2, disk2);
  }

  /** `apply_led_state` succeeds exactly when every write it issued returned 0. */
  lemma {:induction false} ApplySucceedsIffAllWritesAccepted(o: Oracle, n: nat, state: LedState, brightness: uint8)
    ensures var a := ApplyRun(o, n, state, brightness);
      a.ok <==> WritesSucceed(o, n, |a.sent|)
  {
    var power := SetLedStateRun(o, n, Power, true, COLOR_WHITE, brightness);
    SetLedStateRunShape(o, n, Power, true, COLOR_WHITE, brightness);
    if power.result == 0 {
      var m := n + |power.sent|;
      var rest := TargetRun(o, m, TargetLedStates(state), brightness);
      TargetSucceedsIffAllWritesAccepted(o, m, TargetLedStates(state), brightness);
      SucceedsThen(o, n, true, |power.sent|, rest.ok, |rest.sent|);
      ApplyRunSteps(o, n, state, brightness, power, m, rest);
    } else {
      ApplyRunPowerFailed(o, n, state, brightness, power);
    }
  }

  /** The LEDs `sent` addresses, in order, with each run of commands to one LED listed once. */
  function LedsTouched(sent: seq<Sent>): (leds: seq<LedType>)
    ensures sent != [] ==> leds != [] && leds[0] == sent[0].id
  {
    if sent == [] then []
    else
      var rest := LedsTouched(sent[1..]);
      if rest != [] && rest[0] == sent[0].id then rest else [sent[0].id] + rest
  }

  lemma {:induction false} LedsTouchedPrepend(seg: seq<Sent>, id: LedType, rest: seq<Sent>)
    requires seg != [] && OnlyLed(seg, id)
    requires rest == [] || rest[0].id != id
    ensures LedsTouched(seg + rest) == [id] + LedsTouched(rest)
    decreases |seg|
  {
    if |seg| > 1 {
      assert (seg + rest)[1..] == seg[1..] + rest;
      LedsTouchedPrepend(seg[1..], id, rest);
    } else {
      assert (seg + rest)[1..] == rest;
    }
  }

  /** Writes to netdev, then disk1, then disk2 touch those three LEDs in that order. */
  lemma {:induction false} ThreeLedsInOrder(netdev: seq<Sent>, disk1: seq<Sent>, disk2: seq<Sent>)
    requires netdev != [] && OnlyLed(netdev, Netdev)
    requires disk1 != [] && OnlyLed(disk1, Disk1)
    requires disk2 != [] && OnlyLed(disk2, Disk2)
    ensures LedsTouched(netdev + disk1 + disk2) == [Netdev, Disk1, Disk2]
  {
    LedsTouchedPrepend(disk2, Disk2, []);
    assert disk2 + [] == disk2;
    LedsTouchedPrepend(disk1, Disk1, disk2);
    LedsTouchedPrepend(netdev, Netdev, disk1 + disk2);
    assert netdev + disk1 + disk2 == netdev + (disk1 + disk2);
  }

  /** Writes to the power LED followed by writes touching netdev, disk1 and disk2 touch all four in order. */
  lemma {:induction false} PowerThenThree(power: seq<Sent>, rest: seq<Sent>)
    requires power != [] && OnlyLed(power, Power)
    requires LedsTouched(rest) == [Netdev, Disk1, Disk2]
    ensures LedsTouched(power + rest) == [Power, Netdev, Disk1, Disk2]
  {
    assert rest != [];
    LedsTouchedPrepend(power, Power, rest);
  }

  lemma {:induction false} TargetTouchesLedsInOrder(o: Oracle, n: nat, t: Target, brightness: uint8)
    ensures LedsTouched(TargetRun(o, n, t, brightness).sent) == [Netdev, Disk1, Disk2]
  {
    var netdev := SetLedStateRun(o, n, Netdev, t.netdevOn, t.color, brightness);
    SetLedStateRunShape(o, n, Netdev, t.netdevOn, t.color, brightness);
    var n1 := n + |netdev.sent|;
    var disk1 := SetLedStateRun(o, n1, Disk1, t.disk1On, t.color, brightness);
    SetLedStateRunShape(o, n1, Disk1, t.disk1On, t.color, brightness);
    var n2 := n1 + |disk1.sent|;
    var disk2 := SetLedStateRun(o, n2, Disk2, t.disk2On, t.color, brightness);
    SetLedStateRunShape(o, n2, Disk2, t.disk2On, t.color, brightness);
    ThreeLedsInOrder(netdev.sent, disk1.sent, disk2.sent);
    TargetRunSteps(o, n, t, brightness, netdev, n1, disk1, n2, disk2);
  }

  /**
   * The LEDs `apply_led_state` addresses, in order: only the power LED when setting it
   * failed, otherwise power, netdev, disk1 and disk2, each of the last three reached
   * even when an earlier one failed.
   */
  lemma {:induction false} ApplyTouchesLedsInOrder(o: Oracle, n: nat, state: LedState, brightness: uint8)
    ensures var power := SetLedStateRun(o, n, Power, true, COLOR_WHITE, brightness);
      var a := ApplyRun(o, n, state, brightness);
      && (power.result != 0 ==> !a.ok && LedsTouched(a.sent) == [Power])
      && (power.result == 0 ==> LedsTouched(a.sent) == [Power, Netdev, Disk1, Disk2])
  {
    var power := SetLedStateRun(o, n, Power, true, COLOR_WHITE, brightness);
    SetLedStateRunShape(o, n, Power, true, COLOR_WHITE, brightness);
    if power.result != 0 {
      ApplyRunPowerFailed(o, n, state, brightness, power);
      LedsTouchedPrepend(power.sent, Power, []);
      assert power.sent + [] == power.sent;
    } else {
      var m := n + |power.sent|;
      var rest := TargetRun(o, m, TargetLedStates(state), brightness);
      TargetTouchesLedsInOrder(o, m, TargetLedStates(state), brightness);
      PowerThenThree(power.sent, rest.sent);
      ApplyRunSteps(o, n, state, brightness, power, m, rest);
    }
  }

  /** The commands that set one utilisation LED: on in `color`, or off. */
  function LedCommands(id: LedType, on: bool, color: Rgb, brightness: uint8): seq<Sent> {
    if on then SwitchOnCommands(id, color, brightness) else [Sent(id, OnOffCmd(0))]
  }

  /** The commands that put netdev, disk1 and disk2 into target `t`. */
  function TargetCommands(t: Target, brightness: uint8): seq<Sent> {
    LedCommands(Netdev, t.netdevOn, t.color, brightness)
    + LedCommands(Disk1, t.disk1On, t.color, brightness)
    + LedCommands(Disk2, t.disk2On, t.color, brightness)
  }

  /** The commands that put all four LEDs into `state`: power on in white, then the target. */
  function StateCommands(state: LedState, brightness: uint8): seq<Sent> {
    SwitchOnCommands(Power, COLOR_WHITE, brightness) + TargetCommands(TargetLedStates(state), brightness)
  }

  /** A `set_led_state` that returned 0 sent every command for its LED. */
  lemma {:induction false} LedSuccessCommands(o: Oracle, n: nat, id: LedType, on: bool, color: Rgb, brightness: uint8)
    requires SetLedStateRun(o, n, id, on, color, brightness).result == 0
    ensures SetLedStateRun(o, n, id, on, color, brightness).sent == LedCommands(id, on, color, brightness)
  {
    SetLedStateRunStops(o, n, id, on, color, brightness);
    var commands := SwitchOnCommands(id, color, brightness);
    assert commands[..3] == commands;
  }

  lemma {:induction false} TargetSuccessCommands(o: Oracle, n: nat, t: Target, brightness: uint8)
    requires TargetRun(o, n, t, brightness).ok
    ensures TargetRun(o, n, t, brightness).sent == TargetCommands(t, brightness)
  {
    var netdev := SetLedStateRun(o, n, Netdev, t.netdevOn, t.color, brightness);
    var n1 := n + |netdev.sent|;
    var disk1 := SetLedStateRun(o, n1, Disk1, t.disk1On, t.color, brightness);
    var n2 := n1 + |disk1.sent|;
    var disk2 := SetLedStateRun(o, n2, Disk2, t.disk2On, t.color, brightness);
    LedSuccessCommands(o, n, Netdev, t.netdevOn, t.color, brightness);
    LedSuccessCommands(o, n1, Disk1, t.disk1On, t.color, brightness);
    LedSuccessCommands(o, n2, Disk2, t.disk2On, t.color, brightness);
  }

  /** A successful `apply_led_state` has sent exactly the writes that put the LEDs into `state`. */
  lemma {:induction false} ApplySuccessSendsState(o: Oracle, n: nat, state: LedState, brightness: uint8)
    requires ApplyRun(o, n, state, brightness).ok
    ensures ApplyRun(o, n, state, brightness).sent == StateCommands(state, brightness)
  {
    var power := SetLedStateRun(o, n, Power, true, COLOR_WHITE, brightness);
    LedSuccessCommands(o, n, Power, true, COLOR_WHITE, brightness);
    TargetSuccessCommands(o, n + |power.sent|, TargetLedStates(state), brightness);
  }

  /** `TargetRun` in terms of the three `set_led_state` runs it is made of, started at `n`, `n1` and `n2`. */
  lemma TargetRunSteps(o: Oracle, n: nat, t: Target, brightness: uint8, netdev: LedRun, n1: nat, disk1: LedRun,
                       n2: nat, disk2: LedRun)
    requires netdev == SetLedStateRun(o, n, Netdev, t.netdevOn, t.color, brightness)
    requires n1 == n + |netdev.sent| && disk1 == SetLedStateRun(o, n1, Disk1, t.disk1On, t.color, brightness)
    requires n2 == n1 + |disk1.sent| && disk2 == SetLedStateRun(o, n2, Disk2, t.disk2On, t.color, brightness)
    ensures TargetRun(o, n, t, brightness)
         == Outcome(netdev.sent + disk1.sent + disk2.sent, netdev.result == 0 && disk1.result == 0 && disk2.result == 0)
  {
  }

  /** `ApplyRun` once the power LED was set, the target run starting at `m`. */
  lemma ApplyRunSteps(o: Oracle, n: nat, state: LedState, brightness: uint8, power: LedRun, m: nat, target: Outcome)
    requires power == SetLedStateRun(o, n, Power, true, COLOR_WHITE, brightness) && power.result == 0
    requires m == n + |power.sent| && target == TargetRun(o, m, TargetLedStates(state), brightness)
    ensures ApplyRun(o, n, state, brightness) == Outcome(power.sent + target.sent, target.ok)
  {
  }

  /** `ApplyRun` once setting the power LED failed. */
  lemma ApplyRunPowerFailed(o: Oracle, n: nat, state: LedState, brightness: uint8, power: LedRun)
    requires power == SetLedStateRun(o, n, Power, true, COLOR_WHITE, brightness) && power.result != 0
    ensures ApplyRun(o, n, state, brightness) == Outcome(power.sent, false)
  {
  }

  /** Three operations' writes, logged one after the other, are the writes of their commands together. */
  lemma {:induction false} TransmitThree(log: seq<Transaction>, a: seq<Sent>, b: seq<Sent>, c: seq<Sent>)
    ensures log + Transmit(a) + Transmit(b) + Transmit(c) == log + Transmit(a + b + c)
  {
    TransmitAppend(a, b);
    TransmitAppend(a + b, c);
    assert log + Transmit(a) + Transmit(b) + Transmit(c) == log + ((Transmit(a) + Transmit(b)) + Transmit(c));
  }

  class LedStateManager {
    const controller: LedController
    var currentState: LedState
    const brightness: uint8
    const lowThreshold: uint8
    const mediumThreshold: uint8
    const highThreshold: uint8

    /** A new manager believes the LEDs are off and takes brightness and thresholds from `config`. */
    constructor (controller: LedController, config: Config)
      ensures this.controller == controller && currentState == UtilizationOff
      ensures brightness == config.brightness
      ensures lowThreshold == config.lowThreshold && mediumThreshold == config.mediumThreshold
      ensures highThreshold == config.highThreshold
    {
      this.controller := controller;
      currentState := UtilizationOff;
      brightness := config.brightness;
      lowThreshold := config.lowThreshold;
      mediumThreshold := config.mediumThreshold;
      highThreshold := config.highThreshold;
    }

    /** `determine_state_from_usage` with this manager's thresholds. */
    function StateForUsage(usage: real): LedState {
      DetermineState(usage, lowThreshold, mediumThreshold, highThreshold)
    }

    /** One utilisation LED as `apply_led_state` sets it: `set_led_state` when lit, `turn_off_led` otherwise. */
    method SetUtilisationLed(id: LedType, on: bool, color: Rgb) returns (result: int32)
      modifies controller.i2c
      ensures var r := SetLedStateRun(controller.i2c.oracle, |old(controller.i2c.log)|, id, on, color, brightness);
        controller.i2c.log == old(controller.i2c.log) + Transmit(r.sent) && result == r.result
    {
      if on {
        result := controller.SetLedState(id, true, color, brightness);
      } else {
        result := controller.TurnOffLed(id);
      }
    }

    /**
     * The utilisation half of `apply_led_state`: sets netdev, disk1 and disk2 as `t`
     * says, going on after a failure, and issues what `TargetRun` describes.
     */
    method ApplyTarget(t: Target) returns (success: bool)
      modifies controller.i2c
      ensures var a := TargetRun(controller.i2c.oracle, |old(controller.i2c.log)|, t, brightness);
        controller.i2c.log == old(controller.i2c.log) + Transmit(a.sent) && success == a.ok
    {
      ghost var o := controller.i2c.oracle;
      ghost var start := controller.i2c.log;
      ghost var n := |start|;
      success := true;
      ghost var netdev := SetLedStateRun(o, n, Netdev, t.netdevOn, t.color, brightness);
      var result := SetUtilisationLed(Netdev, t.netdevOn, t.color);
      if result != 0 {
        success := false;
      }
      ghost var n1 := |controller.i2c.log|;
      assert n1 == n + |netdev.sent|;
      ghost var disk1 := SetLedStateRun(o, n1, Disk1, t.disk1On, t.color, brightness);
      result := SetUtilisationLed(Disk1, t.disk1On, t.color);
      if result != 0 {
        success := false;
      }
      ghost var n2 := |controller.i2c.log|;
      assert n2 == n1 + |disk1.sent|;
      ghost var disk2 := SetLedStateRun(o, n2, Disk2, t.disk2On, t.color, brightness);
      result := SetUtilisationLed(Disk2, t.disk2On, t.color);
      if result != 0 {
        success := false;
      }
      TargetRunSteps(o, n, t, brightness, netdev, n1, disk1, n2, disk2);
      TransmitThree(start, netdev.sent, disk1.sent, disk2.sent);
    }

    /** `apply_led_state`: issues what `ApplyRun` describes. */
    method ApplyLedState(state: LedState) returns (ok: bool)
      modifies controller.i2c
      ensures var a := ApplyRun(controller.i2c.oracle, |old(controller.i2c.log)|, state, brightness);
        controller.i2c.log == old(controller.i2c.log) + Transmit(a.sent) && ok == a.ok
    {
      ghost var o := controller.i2c.oracle;
      ghost var start := controller.i2c.log;
      var t := TargetLedStates(state);

      var result := controller.SetLedState(Power, true, COLOR_WHITE, brightness);
      if result != 0 {
        return false;
      }
      ghost var power := SetLedStateRun(o, |start|, Power, true, COLOR_WHITE, brightness);
      assert controller.i2c.log == start + Transmit(power.sent);
      ghost var n := |controller.i2c.log|;
      assert n == |start| + |power.sent|;
      ghost var rest := TargetRun(o, n, t, brightness);
      var success := ApplyTarget(t);
      assert controller.i2c.log == start + Transmit(power.sent) + Transmit(rest.sent);
      assert success == rest.ok;
      ApplyRunSteps(o, |start|, state, brightness, power, n, rest);
      TransmitAppend(power.sent, rest.sent);
      assert start + Transmit(power.sent) + Transmit(rest.sent) == start + (Transmit(power.sent) + Transmit(rest.sent));
      assert controller.i2c.log == start + Transmit(power.sent + rest.sent);
      if !success {
        return false;
      }
      return true;
    }

    /**
     * `update_leds`: an invalid reading changes nothing and fails; a reading whose
     * state is the current one succeeds without touching the LEDs; otherwise the new
     * state is applied and becomes current only if applying it succeeded.
     */
    method UpdateLeds(info: BandwidthInfo) returns (ok: bool)
      modifies this, controller.i2c
      ensures !info.valid ==> !ok && currentState == old(currentState)
                              && controller.i2c.log == old(controller.i2c.log)
      ensures info.valid && StateForUsage(info.usagePercentage) == old(currentState) ==>
                ok && currentState == old(currentState) && controller.i2c.log == old(controller.i2c.log)
      ensures info.valid && StateForUsage(info.usagePercentage) != old(currentState) ==>
                var a := ApplyRun(controller.i2c.oracle, |old(controller.i2c.log)|, StateForUsage(info.usagePercentage), brightness);
                && controller.i2c.log == old(controller.i2c.log) + Transmit(a.sent)
                && ok == a.ok
                && currentState == (if a.ok then StateForUsage(info.usagePercentage) else old(currentState))
      ensures ok ==> currentState == StateForUsage(info.usagePercentage)
    {
      if !info.valid {
        return false;
      }
      var newState := StateForUsage(info.usagePercentage);
      if newState != currentState {
        var applied := ApplyLedState(newState);
        if applied {
          currentState := newState;
          return true;
        } else {
          return false;
        }
      }
      return true;
    }

    /** `set_state`: applies `state` even when it is the current one; it becomes current only on success. */
    method SetState(state: LedState) returns (ok: bool)
      modifies this, controller.i2c
      ensures var a := ApplyRun(controller.i2c.oracle, |old(controller.i2c.log)|, state, brightness);
        && controller.i2c.log == old(controller.i2c.log) + Transmit(a.sent)
        && ok == a.ok
        && currentState == (if ok then state else old(currentState))
    {
      var applied := ApplyLedState(state);
      if applied {
        currentState := state;
        return true;
      }
      return false;
    }
  }
}

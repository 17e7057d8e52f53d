/**
 * `led_controller_t` (src/led_controller.cpp): per-LED operations built from
 * checksummed command frames written over the I2C device.
 *
 * Each operation that issues several transactions has a specification function
 * returning a `Run`: the transactions it issues, in order, and the result it
 * returns, given the chip's answers. The methods of `LedController` are proved to
 * issue exactly those transactions; the properties of the operations are proved
 * about the `Run` functions.
 */
module LedController {
  import opened BoundedInts
  import opened Wrappers
  import opened LedCodec
  import opened I2c

  /** Register whose value is 1 when the chip accepted the last write. */
  const WRITE_ACK_REGISTER: uint8 := 0x80

  /** The transactions an operation issues and the result it returns. */
  datatype Run = Run(ops: seq<Transaction>, result: int32)

  /** The block write that sends `c` to LED `id`: the frame goes to the register numbered like the LED. */
  function Write(id: LedType, c: Command): Transaction {
    WriteBlock(LedIndex(id), Frame(id, c))
  }

  /** A command sent to one LED, before it is framed into a block write. */
  datatype Sent = Sent(id: LedType, command: Command)

  /** The block writes that carry `sent`, one per command, in order. */
  function Transmit(sent: seq<Sent>): (ops: seq<Transaction>)
    ensures |ops| == |sent|
  {
    seq(|sent|, k requires 0 <= k < |sent| => Write(sent[k].id, sent[k].command))
  }

  lemma TransmitAppend(a: seq<Sent>, b: seq<Sent>)
    ensures Transmit(a + b) == Transmit(a) + Transmit(b)
  {
    assert forall k | 0 <= k < |b| :: (a + b)[|a| + k] == b[k];
  }

  lemma TransmitOne(a: Sent)
    ensures Transmit([a]) == [Write(a.id, a.command)]
  {
  }

  /** The commands an operation sends and the result it returns. */
  datatype LedRun = LedRun(sent: seq<Sent>, result: int32)

  /** `set_onoff`: a status of 2 or more is refused with -1 and nothing is written. */
  function SetOnOffRun(o: Oracle, n: nat, id: LedType, status: uint8): (r: LedRun)
    ensures status >= 2 ==> r.sent == [] && r.result == -1
    ensures status < 2 ==> r.sent == [Sent(id, OnOffCmd(status))] && r.result == o.writeResult(n)
  {
    if status >= 2 then LedRun([], -1) else LedRun([Sent(id, OnOffCmd(status))], o.writeResult(n))
  }

  /** Every write issued from transaction `n` on, `count` of them, returned 0. */
  predicate WritesSucceed(o: Oracle, n: nat, count: nat) {
    forall j | n <= j < n + count :: o.writeResult(j) == 0
  }

  lemma WritesSucceedSplit(o: Oracle, n: nat, a: nat, b: nat)
    ensures WritesSucceed(o, n, a + b) <==> WritesSucceed(o, n, a) && WritesSucceed(o, n + a, b)
  {
  }

  /** Every command in `sent` goes to LED `id`. */
  predicate OnlyLed(sent: seq<Sent>, id: LedType) {
    forall k | 0 <= k < |sent| :: sent[k].id == id
  }

  /** The three commands that switch an LED on, in the order `set_led_state` sends them. */
  function SwitchOnCommands(id: LedType, color: Rgb, brightness: uint8): seq<Sent> {
    [Sent(id, ColorCmd(color)), Sent(id, BrightnessCmd(brightness)), Sent(id, OnOffCmd(1))]
  }

  /**
   * Sends `commands[k..]` in order, the command at index `j` as transaction `n + j`,
   * stopping after the first write with a non-zero result; returns every command sent
   * since index 0 and the last result.
   */
  function SendUntilFailure(o: Oracle, n: nat, commands: seq<Sent>, k: nat): LedRun
    requires k < |commands|
    decreases |commands| - k
  {
    var result := o.writeResult(n + k);
    if result != 0 || k == |commands| - 1 then LedRun(commands[..k + 1], result)
    else SendUntilFailure(o, n, commands, k + 1)
  }

  /**
   * Started at index `k` after `k` accepted writes, what was sent is a prefix of
   * `commands` longer than `k`, cut short only by a failure; the result is that of the
   * last write sent, and it is 0 exactly when every write of `commands` would return 0,
   * which is also exactly when every write sent returned 0.
   */
  lemma {:induction false} SendUntilFailureStops(o: Oracle, n: nat, commands: seq<Sent>, k: nat)
    requires k < |commands| && WritesSucceed(o, n, k)
    ensures var r := SendUntilFailure(o, n, commands, k);
      && k + 1 <= |r.sent| <= |commands| && r.sent == commands[..|r.sent|]
      && r.result == o.writeResult(n + |r.sent| - 1)
      && (|r.sent| == |commands| || r.result != 0)
      && (r.result == 0 <==> WritesSucceed(o, n, |commands|))
      && (r.result == 0 <==> WritesSucceed(o, n, |r.sent|))
    decreases |commands| - k
  {
    WritesSucceedSplit(o, n, k, 1);
    if o.writeResult(n + k) != 0 {
      assert !WritesSucceed(o, n, |commands|) by {
        assert n <= n + k < n + |commands|;
      }
    } else if k == |commands| - 1 {
    } else {
      SendUntilFailureStops(o, n, commands, k + 1);
    }
  }

  /**
   * `set_led_state`: switching off is the single write `turn_off_led` issues; switching
   * on sends the colour, then the brightness, then on(1), stopping at the first write
   * with a non-zero result and returning that result.
   */
  function SetLedStateRun(o: Oracle, n: nat, id: LedType, on: bool, color: Rgb, brightness: uint8): LedRun {
    if !on then LedRun([Sent(id, OnOffCmd(0))], o.writeResult(n))
    else SendUntilFailure(o, n, SwitchOnCommands(id, color, brightness), 0)
  }

  /**
   * Switching off is one write whose result is returned. Switching on issues a prefix of
   * the three writes, returns the result of the last one issued, returns 0 exactly when
   * all three writes returned 0, and stops early only on a non-zero result.
   */
  lemma {:induction false} SetLedStateRunStops(o: Oracle, n: nat, id: LedType, on: bool, color: Rgb, brightness: uint8)
    ensures var r := SetLedStateRun(o, n, id, on, color, brightness);
      && (!on ==> r.sent == [Sent(id, OnOffCmd(0))] && r.result == o.writeResult(n))
      && (on ==> 1 <= |r.sent| <= 3 && r.sent == SwitchOnCommands(id, color, brightness)[..|r.sent|])
      && (on ==> r.result == o.writeResult(n + |r.sent| - 1))
      && (on ==> (r.result == 0 <==> o.writeResult(n) == 0 && o.writeResult(n + 1) == 0 && o.writeResult(n + 2) == 0))
      && (on ==> (|r.sent| == 3 || r.result != 0))
  {
    if on {
      SendUntilFailureStops(o, n, SwitchOnCommands(id, color, brightness), 0);
      assert WritesSucceed(o, n, 3) <==> o.writeResult(n) == 0 && o.writeResult(n + 1) == 0 && o.writeResult(n + 2) == 0 by {
        if o.writeResult(n) == 0 && o.writeResult(n + 1) == 0 && o.writeResult(n + 2) == 0 {
          forall j | n <= j < n + 3 ensures o.writeResult(j) == 0 {
            assert j == n || j == n + 1 || j == n + 2;
          }
        }
      }
    }
  }

  /**
   * A `set_led_state` addresses only its own LED, issues at least one write, and
   * returns 0 exactly when every write it issued returned 0.
   */
  lemma {:induction false} SetLedStateRunShape(o: Oracle, n: nat, id: LedType, on: bool, color: Rgb, brightness: uint8)
    ensures var r := SetLedStateRun(o, n, id, on, color, brightness);
      r.sent != [] && OnlyLed(r.sent, id) && (r.result == 0 <==> WritesSucceed(o, n, |r.sent|))
  {
    if on {
      var commands := SwitchOnCommands(id, color, brightness);
      SendUntilFailureStops(o, n, commands, 0);
      var r := SendUntilFailure(o, n, commands, 0);
      forall k | 0 <= k < |r.sent| ensures r.sent[k].id == id {
        assert r.sent[k] == commands[k];
      }
    }
  }

  /** 2 to the power `k`. */
  function Pow2(k: nat): (p: nat)
    ensures p >= 1
  {
    if k == 0 then 1 else 2 * Pow2(k - 1)
  }

  lemma Pow2Word()
    ensures Pow2(32) == 0x1_0000_0000
  {
    assert Pow2(8) == 0x100;
    assert Pow2(16) == 0x1_0000;
    assert Pow2(24) == 0x100_0000;
  }

  /** Bitwise OR of two naturals, taken bit by bit from the least significant. */
  function NatOr(x: nat, y: nat): nat
    decreases x + y
  {
    if x == 0 && y == 0 then 0
    else (if x % 2 == 1 || y % 2 == 1 then 1 else 0) + 2 * NatOr(x / 2, y / 2)
  }

  /** An OR has no bit set exactly when neither operand has. */
  lemma {:induction false} NatOrZero(x: nat, y: nat)
    ensures NatOr(x, y) == 0 <==> x == 0 && y == 0
    decreases x + y
  {
    if !(x == 0 && y == 0) && x % 2 == 0 && y % 2 == 0 {
      NatOrZero(x / 2, y / 2);
    }
  }

  /** The OR of two `k`-bit values is a `k`-bit value. */
  lemma {:induction false} NatOrBound(x: nat, y: nat, k: nat)
    requires x < Pow2(k) && y < Pow2(k)
    ensures NatOr(x, y) < Pow2(k)
    decreases k
  {
    if k > 0 && !(x == 0 && y == 0) {
      NatOrBound(x / 2, y / 2, k - 1);
    }
  }

  /** OR-ing a value with itself gives it back. */
  lemma {:induction false} NatOrIdempotent(x: nat)
    ensures NatOr(x, x) == x
    decreases x
  {
    if x != 0 {
      NatOrIdempotent(x / 2);
    }
  }

  /**
   * C's `|` on two `int`s: the OR of their 32-bit two's-complement patterns, read back
   * as a signed 32-bit value. It is 0 exactly when both operands are.
   */
  function BitOr(a: int32, b: int32): (r: int32)
    ensures r == 0 <==> a == 0 && b == 0
  {
    var x := a % 0x1_0000_0000;
    var y := b % 0x1_0000_0000;
    Pow2Word();
    NatOrBound(x, y, 32);
    NatOrZero(x, y);
    var u := NatOr(x, y);
    if u < 0x8000_0000 then u else u - 0x1_0000_0000
  }

  /** `result |= temp_result` when `temp_result` is non-zero, as `turn_off_all_leds` folds in each LED's result. */
  function Accumulate(result: int32, temp: int32): (r: int32)
    ensures r == 0 <==> result == 0 && temp == 0
  {
    if temp != 0 then BitOr(result, temp) else result
  }

  /** The four switch-off commands of `turn_off_all_leds`, in order. */
  const TURN_OFF_ALL := [Sent(Power, OnOffCmd(0)), Sent(Netdev, OnOffCmd(0)),
                         Sent(Disk1, OnOffCmd(0)), Sent(Disk2, OnOffCmd(0))]

  lemma TurnOffAllTransmit()
    ensures Transmit(TURN_OFF_ALL) == Transmit([Sent(Power, OnOffCmd(0))]) + Transmit([Sent(Netdev, OnOffCmd(0))])
                                      + Transmit([Sent(Disk1, OnOffCmd(0))]) + Transmit([Sent(Disk2, OnOffCmd(0))])
  {
    var t := TURN_OFF_ALL;
    assert t == [t[0]] + [t[1]] + [t[2]] + [t[3]];
    TransmitAppend([t[0]] + [t[1]] + [t[2]], [t[3]]);
    TransmitAppend([t[0]] + [t[1]], [t[2]]);
    TransmitAppend([t[0]], [t[1]]);
  }

  lemma AppendFour<T>(s: seq<T>, a: seq<T>, b: seq<T>, c: seq<T>, d: seq<T>)
    ensures s + a + b + c + d == s + (a + b + c + d)
  {
  }

  /** All four switch-off writes of a `turn_off_all_leds` starting at transaction `n` succeed. */
  predicate AllFourSucceed(o: Oracle, n: nat) {
    o.writeResult(n) == 0 && o.writeResult(n + 1) == 0 && o.writeResult(n + 2) == 0 && o.writeResult(n + 3) == 0
  }

  /**
   * `turn_off_all_leds`: all four LEDs are switched off whatever the earlier results; the
   * write-ack register is read only when all four writes returned 0, and the result is 0
   * exactly when they did and the register read back 1.
   */
  function TurnOffAllRun(o: Oracle, n: nat): Run {
    var result := o.writeResult(n);
    var result := Accumulate(result, o.writeResult(n + 1));
    var result := Accumulate(result, o.writeResult(n + 2));
    var result := Accumulate(result, o.writeResult(n + 3));
    if result == 0 then
      Run(Transmit(TURN_OFF_ALL) + [ReadByte(WRITE_ACK_REGISTER)], if o.byteData(n + 4) == 1 then 0 else -1)
    else
      Run(Transmit(TURN_OFF_ALL), result)
  }

  /**
   * `turn_off_all_leds` always sends the four switch-off writes first, reads the
   * write-ack register after them only when all four succeeded, and returns 0 exactly
   * when they did and the register read back 1.
   */
  lemma {:induction false} TurnOffAllSwitchesAllOff(o: Oracle, n: nat)
    ensures var r := TurnOffAllRun(o, n);
      && |r.ops| >= 4 && r.ops[..4] == Transmit(TURN_OFF_ALL)
      && (AllFourSucceed(o, n) ==> r.ops == Transmit(TURN_OFF_ALL) + [ReadByte(WRITE_ACK_REGISTER)])
      && (!AllFourSucceed(o, n) ==> r.ops == Transmit(TURN_OFF_ALL))
      && (r.result == 0 <==> AllFourSucceed(o, n) && o.byteData(n + 4) == 1)
  {
    var writes := Transmit(TURN_OFF_ALL);
    assert (writes + [ReadByte(WRITE_ACK_REGISTER)])[..4] == writes;
    assert writes[..4] == writes;
  }

  /** `compute_checksum`: sums the first `size` bytes in a loop. */
  method ComputeChecksum(data: seq<uint8>, size: int) returns (sum: int)
    ensures sum == Checksum(data, size)
  {
    if size < 2 || size > |data| {
      return 0;
    }
    sum := 0;
    var i := 0;
    while i < size
      invariant 0 <= i <= size
      invariant sum == Sum(data[..i])
    {
      SumStep(data, i);
      sum := sum + data[i];
      i := i + 1;
    }
  }

  /** `append_checksum`: pushes the checksum of the whole vector, high byte then low byte. */
  method AppendChecksum(data: seq<uint8>) returns (framed: seq<uint8>)
    ensures framed == WithChecksum(data)
    ensures |data| >= 2 && 0 < Sum(data) <= 0xFFFF ==> VerifyChecksum(framed)
  {
    var sum := ComputeChecksum(data, |data|);
    framed := data + [(sum / 256) % 256];
    framed := framed + [sum % 256];
    if |data| >= 2 && 0 < Sum(data) <= 0xFFFF {
      ChecksumRoundTrip(data);
    }
  }

  class LedController {
    const i2c: Device

    /** The controller once `start` has bound it to the chip's device. */
    constructor (i2c: Device)
      ensures this.i2c == i2c
    {
      this.i2c := i2c;
    }

    /**
     * `_change_status`: builds the ten payload bytes with byte 0 still 0, appends their
     * checksum, overwrites byte 0 with the LED index and writes the 12 bytes to the
     * register numbered like the LED.
     */
    method ChangeStatus(id: LedType, command: uint8, params: seq<Option<uint8>>) returns (result: int32)
      requires |params| == 4
      modifies i2c
      ensures i2c.log == old(i2c.log) + [WriteBlock(LedIndex(id), CommandFrame(id, command, params))]
      ensures result == i2c.oracle.writeResult(|old(i2c.log)|)
    {
      var data := [0x00, 0xA0, 0x01, 0x00, 0x00, command,
                   params[0].GetOr(0), params[1].GetOr(0), params[2].GetOr(0), params[3].GetOr(0)];
      assert data == Payload(command, params);
      data := AppendChecksum(data);
      data := data[0 := LedIndex(id)];
      result := i2c.WriteBlockData(LedIndex(id), data);
    }

    method SetOnOff(id: LedType, status: uint8) returns (result: int32)
      modifies i2c
      ensures var r := SetOnOffRun(i2c.oracle, |old(i2c.log)|, id, status);
        i2c.log == old(i2c.log) + Transmit(r.sent) && result == r.result
    {
      if status >= 2 {
        return -1;
      }
      TransmitOne(Sent(id, OnOffCmd(status)));
      result := ChangeStatus(id, 0x03, [Some(status), None, None, None]);
    }

    method SetRgb(id: LedType, r: uint8, g: uint8, b: uint8) returns (result: int32)
      modifies i2c
      ensures i2c.log == old(i2c.log) + Transmit([Sent(id, ColorCmd(Rgb(r, g, b)))])
      ensures result == i2c.oracle.writeResult(|old(i2c.log)|)
    {
      TransmitOne(Sent(id, ColorCmd(Rgb(r, g, b))));
      result := ChangeStatus(id, 0x02, [Some(r), Some(g), Some(b), None]);
    }

    method SetBrightness(id: LedType, brightness: uint8) returns (result: int32)
      modifies i2c
      ensures i2c.log == old(i2c.log) + Transmit([Sent(id, BrightnessCmd(brightness))])
      ensures result == i2c.oracle.writeResult(|old(i2c.log)|)
    {
      TransmitOne(Sent(id, BrightnessCmd(brightness)));
      result := ChangeStatus(id, 0x01, [Some(brightness), None, None, None]);
    }

    /** `_set_blink_or_breath`: `t_on + t_off` is computed in 16 bits, so it wraps. */
    method SetBlinkOrBreath(command: uint8, id: LedType, tOn: uint16, tOff: uint16) returns (result: int32)
      modifies i2c
      ensures i2c.log == old(i2c.log) + [WriteBlock(LedIndex(id), CommandFrame(id, command, TimingParams(tOn, tOff)))]
      ensures result == i2c.oracle.writeResult(|old(i2c.log)|)
    {
      var tHigh: uint16 := (tOn + tOff) % 0x1_0000;
      var tLow: uint16 := tOn;
      result := ChangeStatus(id, command, [Some(tHigh / 256), Some(tHigh % 256), Some(tLow / 256), Some(tLow % 256)]);
    }

    method SetBlink(id: LedType, tOn: uint16, tOff: uint16) returns (result: int32)
      modifies i2c
      ensures i2c.log == old(i2c.log) + Transmit([Sent(id, BlinkCmd(tOn, tOff))])
      ensures result == i2c.oracle.writeResult(|old(i2c.log)|)
    {
      TransmitOne(Sent(id, BlinkCmd(tOn, tOff)));
      result := SetBlinkOrBreath(0x04, id, tOn, tOff);
    }

    method SetBreath(id: LedType, tOn: uint16, tOff: uint16) returns (result: int32)
      modifies i2c
      ensures i2c.log == old(i2c.log) + Transmit([Sent(id, BreathCmd(tOn, tOff))])
      ensures result == i2c.oracle.writeResult(|old(i2c.log)|)
    {
      TransmitOne(Sent(id, BreathCmd(tOn, tOff)));
      result := SetBlinkOrBreath(0x05, id, tOn, tOff);
    }

    method TurnOffLed(id: LedType) returns (result: int32)
      modifies i2c
      ensures i2c.log == old(i2c.log) + Transmit([Sent(id, OnOffCmd(0))])
      ensures result == i2c.oracle.writeResult(|old(i2c.log)|)
    {
      result := SetOnOff(id, 0);
    }

    method SetLedState(id: LedType, on: bool, color: Rgb := COLOR_WHITE, brightness: uint8 := DEFAULT_BRIGHTNESS)
      returns (result: int32)
      modifies i2c
      ensures var r := SetLedStateRun(i2c.oracle, |old(i2c.log)|, id, on, color, brightness);
        i2c.log == old(i2c.log) + Transmit(r.sent) && result == r.result
    {
      if !on {
        result := TurnOffLed(id);
        return;
      }
      ghost var o := i2c.oracle;
      ghost var start := i2c.log;
      ghost var n := |start|;
      ghost var commands := SwitchOnCommands(id, color, brightness);
      ghost var c0, c1, c2 := commands[0], commands[1], commands[2];
      assert Rgb(color.r, color.g, color.b) == color;
      result := SetRgb(id, color.r, color.g, color.b);
      if result != 0 {
        assert commands[..1] == [c0];
        assert SendUntilFailure(o, n, commands, 0) == LedRun([c0], result);
        return;
      }
      result := SetBrightness(id, brightness);
      TransmitAppend([c0], [c1]);
      assert i2c.log == start + Transmit([c0, c1]) by {
        assert i2c.log == start + Transmit([c0]) + Transmit([c1]);
        assert [c0] + [c1] == [c0, c1];
      }
      if result != 0 {
        assert commands[..2] == [c0, c1];
        assert SendUntilFailure(o, n, commands, 1) == LedRun([c0, c1], result);
        return;
      }
      result := SetOnOff(id, 1);
      TransmitAppend([c0, c1], [c2]);
      assert i2c.log == start + Transmit(commands) by {
        assert [c0, c1] + [c2] == commands;
      }
      assert commands[..3] == commands;
      assert SendUntilFailure(o, n, commands, 2) == LedRun(commands, result);
      assert SendUntilFailure(o, n, commands, 0) == LedRun(commands, result);
    }

    method IsLastModificationSuccessful() returns (ok: bool)
      modifies i2c
      ensures i2c.log == old(i2c.log) + [ReadByte(WRITE_ACK_REGISTER)]
      ensures ok <==> i2c.oracle.byteData(|old(i2c.log)|) == 1
    {
      var b := i2c.ReadByteData(WRITE_ACK_REGISTER);
      ok := b == 1;
    }

    method TurnOffAllLeds() returns (result: int32)
      modifies i2c
      ensures var r := TurnOffAllRun(i2c.oracle, |old(i2c.log)|);
        i2c.log == old(i2c.log) + r.ops && result == r.result
    {
      ghost var start := i2c.log;
      ghost var o := i2c.oracle;
      ghost var n := |start|;
      TurnOffAllTransmit();
      result := TurnOffLed(Power);
      var tempResult := TurnOffLed(Netdev);
      if tempResult != 0 {
        result := BitOr(result, tempResult);
      }
      assert result == Accumulate(o.writeResult(n), o.writeResult(n + 1));
      ghost var acc := result;
      tempResult := TurnOffLed(Disk1);
      if tempResult != 0 {
        result := BitOr(result, tempResult);
      }
      assert result == Accumulate(acc, o.writeResult(n + 2));
      acc := result;
      tempResult := TurnOffLed(Disk2);
      if tempResult != 0 {
        result := BitOr(result, tempResult);
      }
      assert result == Accumulate(acc, o.writeResult(n + 3));
      AppendFour(start, Transmit([Sent(Power, OnOffCmd(0))]), Transmit([Sent(Netdev, OnOffCmd(0))]),
                 Transmit([Sent(Disk1, OnOffCmd(0))]), Transmit([Sent(Disk2, OnOffCmd(0))]));
      assert result == 0 <==> AllFourSucceed(o, n);
      if result == 0 {
        var ok := IsLastModificationSuccessful();
        if !ok {
          result := -1;
        }
      }
    }

    /** `get_status`: one 11-byte read at the LED's status register, then the decode. */
    method GetStatus(id: LedType) returns (d: LedData)
      modifies i2c
      ensures i2c.log == old(i2c.log) + [ReadBlock(StatusRegister(id), STATUS_FRAME_LENGTH)]
      ensures d == DecodeStatus(i2c.oracle.blockData(|old(i2c.log)|))
    {
      var raw := i2c.ReadBlockData(StatusRegister(id), STATUS_FRAME_LENGTH);
      d := DecodeStatus(raw);
    }
  }
}

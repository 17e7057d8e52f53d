/**
 * The LED chip's vocabulary (src/led_controller.h) and the pure part of its
 * wire protocol (src/led_controller.cpp): the additive checksum, the command
 * frames `_change_status` writes, and the decoder of the 11-byte status frame
 * `get_status` reads.
 */
module LedCodec {
  import opened BoundedInts
  import opened Wrappers

  /** Bus address of the LED chip. */
  const LED_I2C_ADDR: uint8 := 0x3a

  /** `led_type_t`: the chip drives up to ten LEDs. */
  datatype LedType = Power | Netdev | Disk1 | Disk2 | Disk3 | Disk4 | Disk5 | Disk6 | Disk7 | Disk8

  /** The enumerator value of an LED, which is also the register its commands are written to. */
  function LedIndex(id: LedType): (n: uint8)
    ensures n <= 9
    ensures n == 0 <==> id == Power
  {
    match id
    case Power => 0
    case Netdev => 1
    case Disk1 => 2
    case Disk2 => 3
    case Disk3 => 4
    case Disk4 => 5
    case Disk5 => 6
    case Disk6 => 7
    case Disk7 => 8
    case Disk8 => 9
  }

  /** The register holding an LED's status frame. */
  function StatusRegister(id: LedType): (reg: uint8)
    ensures 0x81 <= reg <= 0x8A
  {
    0x81 + LedIndex(id)
  }

  /** Distinct LEDs are written at distinct registers and read at distinct status registers. */
  lemma LedRegistersDistinct(a: LedType, b: LedType)
    ensures a != b ==> LedIndex(a) != LedIndex(b) && StatusRegister(a) != StatusRegister(b)
  {
  }

  /** `op_mode_t`. */
  datatype OpMode = Off | On | Blink | Breath

  function ModeValue(m: OpMode): uint8 {
    match m
    case Off => 0
    case On => 1
    case Blink => 2
    case Breath => 3
  }

  /** The mode a status frame's byte 0 selects; any other value is not a mode. */
  function ModeOf(b: uint8): (m: Option<OpMode>)
    ensures m.Some? <==> b <= 3
    ensures m.Some? ==> ModeValue(m.value) == b
  {
    if b == 0 then Some(Off)
    else if b == 1 then Some(On)
    else if b == 2 then Some(Blink)
    else if b == 3 then Some(Breath)
    else None
  }

  /** Every mode's value is accepted back by `ModeOf`, so the accepted byte-0 values are exactly the modes. */
  lemma ModeValueRoundTrip(m: OpMode)
    ensures ModeOf(ModeValue(m)) == Some(m)
  {
  }

  /** `rgb_color_t`. */
  datatype Rgb = Rgb(r: uint8, g: uint8, b: uint8)

  const COLOR_WHITE := Rgb(255, 255, 255)
  const COLOR_GREEN := Rgb(0, 255, 0)
  const COLOR_BLUE := Rgb(0, 0, 255)
  const COLOR_RED := Rgb(255, 0, 0)
  const COLOR_OFF := Rgb(0, 0, 0)

  const DEFAULT_BRIGHTNESS: uint8 := 255

  /** `led_data_t`, the decoded status of one LED. */
  datatype LedData = LedData(
    isAvailable: bool,
    opMode: OpMode,
    brightness: uint8,
    colorR: uint8, colorG: uint8, colorB: uint8,
    tOn: uint16, tOff: uint16)

  /** The value-initialised `led_data_t` that `get_status` returns when a read is rejected. */
  const UNAVAILABLE := LedData(false, Off, 0, 0, 0, 0, 0, 0)

  // ---------------------------------------------------------------------------
  // Checksum
  // ---------------------------------------------------------------------------

  /** Sum of the bytes of `s`, accumulated from the front as `compute_checksum` does. */
  function Sum(s: seq<uint8>): nat {
    if s == [] then 0 else Sum(s[..|s| - 1]) + s[|s| - 1]
  }

  lemma {:induction false} SumAppend(a: seq<uint8>, b: seq<uint8>)
    ensures Sum(a + b) == Sum(a) + Sum(b)
    decreases |b|
  {
    if b == [] {
      assert a + b == a;
    } else {
      assert (a + b)[..|a + b| - 1] == a + b[..|b| - 1];
      SumAppend(a, b[..|b| - 1]);
    }
  }

  lemma SumStep(s: seq<uint8>, k: nat)
    requires k < |s|
    ensures Sum(s[..k + 1]) == Sum(s[..k]) + s[k]
  {
    assert s[..k + 1][..k] == s[..k];
  }

  lemma {:induction false} SumBound(s: seq<uint8>)
    ensures Sum(s) <= 255 * |s|
    decreases |s|
  {
    if s != [] {
      SumBound(s[..|s| - 1]);
    }
  }

  /** A byte sum is zero exactly when every byte is zero. */
  lemma {:induction false} SumZero(s: seq<uint8>)
    ensures Sum(s) == 0 <==> forall k :: 0 <= k < |s| ==> s[k] == 0
    decreases |s|
  {
    if s != [] {
      var p := s[..|s| - 1];
      SumZero(p);
      assert forall k :: 0 <= k < |p| ==> p[k] == s[k];
    }
  }

  /** What `compute_checksum(data, size)` returns: the sum of the first `size` bytes, or 0 when `size` is below 2 or past the end. */
  function Checksum(data: seq<uint8>, size: int): nat {
    if size < 2 || size > |data| then 0 else Sum(data[..size])
  }

  /** The 16-bit big-endian value of two bytes. */
  function BigEndian16(hi: uint8, lo: uint8): (v: uint16)
    ensures v / 256 == hi && v % 256 == lo
  {
    hi * 256 + lo
  }

  /**
   * `verify_checksum`: the frame is accepted when the checksum of everything but the
   * last two bytes is non-zero and equals those two bytes read big-endian. Because the
   * checksum of fewer than two bytes is 0, frames of length 2 and 3 are never accepted.
   */
  function VerifyChecksum(data: seq<uint8>): (ok: bool)
    ensures ok <==>
      && |data| >= 4
      && Sum(data[..|data| - 2]) != 0
      && Sum(data[..|data| - 2]) == BigEndian16(data[|data| - 2], data[|data| - 1])
  {
    if |data| < 2 then false
    else
      var sum := Checksum(data, |data| - 2);
      sum != 0 && sum == data[|data| - 1] as int + data[|data| - 2] as int * 256
  }

  /** A frame whose payload bytes are all zero, such as a zeroed buffer, is rejected whatever its last two bytes hold. */
  lemma ZeroPayloadRejected(data: seq<uint8>)
    requires |data| >= 2
    requires forall k :: 0 <= k < |data| - 2 ==> data[k] == 0
    ensures !VerifyChecksum(data)
  {
    if |data| >= 4 {
      var p := data[..|data| - 2];
      assert forall k :: 0 <= k < |p| ==> p[k] == 0;
      SumZero(p);
    }
  }

  /** What `append_checksum` makes of a vector: the vector followed by its checksum, high byte first, each byte truncated to 8 bits. */
  function WithChecksum(data: seq<uint8>): (framed: seq<uint8>)
    ensures |framed| == |data| + 2 && framed[..|data|] == data
  {
    var sum := Checksum(data, |data|);
    data + [(sum / 256) % 256, sum % 256]
  }

  /** Round trip: a vector of at least two bytes whose sum is non-zero and fits in 16 bits is accepted once its checksum is appended. */
  lemma ChecksumRoundTrip(data: seq<uint8>)
    requires |data| >= 2 && 0 < Sum(data) <= 0xFFFF
    ensures VerifyChecksum(WithChecksum(data))
  {
    var framed := WithChecksum(data);
    var sum := Sum(data);
    assert data[..|data|] == data;
    assert Checksum(data, |data|) == sum;
    assert framed[..|framed| - 2] == data;
    var hi, lo := sum / 256, sum % 256;
    assert hi < 256 && hi % 256 == hi;
    assert framed[|data|] == hi && framed[|data| + 1] == lo;
    assert hi * 256 + lo == sum;
  }

  // ---------------------------------------------------------------------------
  // Command frames
  // ---------------------------------------------------------------------------

  /** The commands `_change_status` can send, with the arguments their callers pass. */
  datatype Command =
    | BrightnessCmd(brightness: uint8)
    | ColorCmd(color: Rgb)
    | OnOffCmd(status: uint8)
    | BlinkCmd(tOn: uint16, tOff: uint16)
    | BreathCmd(tOn: uint16, tOff: uint16)

  function Opcode(c: Command): uint8 {
    match c
    case BrightnessCmd(_) => 0x01
    case ColorCmd(_) => 0x02
    case OnOffCmd(_) => 0x03
    case BlinkCmd(_, _) => 0x04
    case BreathCmd(_, _) => 0x05
  }

  /**
   * The four parameter bytes of blink and breath: the 16-bit sum `t_on + t_off`
   * (wrapping on overflow) and then `t_on`, both big-endian.
   */
  function TimingParams(tOn: uint16, tOff: uint16): seq<Option<uint8>> {
    var high := (tOn + tOff) % 0x1_0000;
    [Some(high / 256), Some(high % 256), Some(tOn / 256), Some(tOn % 256)]
  }

  /** The optional parameters each command passes; unset ones are sent as 0. */
  function Params(c: Command): (p: seq<Option<uint8>>)
    ensures |p| == 4
  {
    match c
    case BrightnessCmd(b) => [Some(b), None, None, None]
    case ColorCmd(rgb) => [Some(rgb.r), Some(rgb.g), Some(rgb.b), None]
    case OnOffCmd(s) => [Some(s), None, None, None]
    case BlinkCmd(tOn, tOff) => TimingParams(tOn, tOff)
    case BreathCmd(tOn, tOff) => TimingParams(tOn, tOff)
  }

  /** The ten bytes `_change_status` checksums: byte 0 is still 0 at that point. */
  function Payload(opcode: uint8, params: seq<Option<uint8>>): (p: seq<uint8>)
    requires |params| == 4
    ensures |p| == 10
  {
    [0x00, 0xA0, 0x01, 0x00, 0x00, opcode,
     params[0].GetOr(0), params[1].GetOr(0), params[2].GetOr(0), params[3].GetOr(0)]
  }

  lemma PayloadSum(opcode: uint8, params: seq<Option<uint8>>)
    requires |params| == 4
    ensures Sum(Payload(opcode, params)) ==
      0xA1 + opcode + params[0].GetOr(0) + params[1].GetOr(0) + params[2].GetOr(0) + params[3].GetOr(0)
  {
    var p := Payload(opcode, params);
    assert p[..0] == [];
    SumStep(p, 0); SumStep(p, 1); SumStep(p, 2); SumStep(p, 3); SumStep(p, 4);
    SumStep(p, 5); SumStep(p, 6); SumStep(p, 7); SumStep(p, 8); SumStep(p, 9);
    assert p[..10] == p;
  }

  /**
   * The frame `_change_status` writes: the 10-byte payload, its checksum taken while
   * byte 0 was still 0, and then byte 0 overwritten with the LED's index.
   */
  function CommandFrame(id: LedType, opcode: uint8, params: seq<Option<uint8>>): (f: seq<uint8>)
    requires |params| == 4
    ensures |f| == 12
    ensures f[0] == LedIndex(id)
    ensures f[1..10] == [0xA0, 0x01, 0x00, 0x00, opcode,
                         params[0].GetOr(0), params[1].GetOr(0), params[2].GetOr(0), params[3].GetOr(0)]
    ensures BigEndian16(f[10], f[11]) ==
      0xA1 + opcode + params[0].GetOr(0) + params[1].GetOr(0) + params[2].GetOr(0) + params[3].GetOr(0)
  {
    var data := Payload(opcode, params);
    PayloadSum(opcode, params);
    assert data[..|data|] == data;
    var sum := Sum(data);
    assert (sum / 256) % 256 == sum / 256;
    WithChecksum(data)[0 := LedIndex(id)]
  }

  /** The frame written for a command. */
  function Frame(id: LedType, c: Command): seq<uint8> {
    CommandFrame(id, Opcode(c), Params(c))
  }

  /**
   * The checksum never covers the LED index: with byte 0 put back to 0 every frame
   * verifies, while the frame as sent verifies only for the power LED (index 0).
   */
  lemma FrameChecksumSkipsId(id: LedType, opcode: uint8, params: seq<Option<uint8>>)
    requires |params| == 4
    ensures VerifyChecksum(CommandFrame(id, opcode, params)[0 := 0])
    ensures VerifyChecksum(CommandFrame(id, opcode, params)) <==> id == Power
  {
    var f := CommandFrame(id, opcode, params);
    var data := Payload(opcode, params);
    PayloadSum(opcode, params);
    assert f[0 := 0][..10] == data;
    assert f[..10] == [LedIndex(id)] + data[1..];
    assert data == [0] + data[1..];
    SumAppend([0], data[1..]);
    SumAppend([LedIndex(id)], data[1..]);
  }

  // ---------------------------------------------------------------------------
  // Status frames
  // ---------------------------------------------------------------------------

  const STATUS_FRAME_LENGTH := 0x0b

  /**
   * The decoding half of `get_status`: the snapshot is available only when exactly
   * 11 bytes came back, their checksum verifies and byte 0 is a mode; otherwise every
   * field is zero. `t_on` is bytes 7-8 and `t_off` is bytes 5-6 minus `t_on`, both
   * big-endian and reduced to 16 bits, so `t_on + t_off` is bytes 5-6 modulo 2^16.
   */
  function DecodeStatus(raw: seq<uint8>): (d: LedData)
    ensures d.isAvailable <==> |raw| == STATUS_FRAME_LENGTH && VerifyChecksum(raw) && raw[0] <= 3
    ensures !d.isAvailable ==> d == UNAVAILABLE
    ensures d.isAvailable ==>
      && ModeValue(d.opMode) == raw[0]
      && d.brightness == raw[1]
      && Rgb(d.colorR, d.colorG, d.colorB) == Rgb(raw[2], raw[3], raw[4])
      && d.tOn == BigEndian16(raw[7], raw[8])
      && (d.tOn + d.tOff) % 0x1_0000 == BigEndian16(raw[5], raw[6])
  {
    if |raw| != STATUS_FRAME_LENGTH || !VerifyChecksum(raw) then UNAVAILABLE
    else
      match ModeOf(raw[0])
      case None => UNAVAILABLE
      case Some(mode) =>
        var tHigh := raw[5] as int * 256 + raw[6];
        var tLow := raw[7] as int * 256 + raw[8];
        LedData(true, mode, raw[1], raw[2], raw[3], raw[4], tLow, (tHigh - tLow) % 0x1_0000)
  }

  /**
   * The status frame the chip would report for an LED in state `d`: bytes 5-8 carry the
   * same timing encoding blink and breath commands send.
   */
  function StatusFrame(d: LedData): (raw: seq<uint8>)
    ensures |raw| == STATUS_FRAME_LENGTH
  {
    var timing := TimingParams(d.tOn, d.tOff);
    WithChecksum([ModeValue(d.opMode), d.brightness, d.colorR, d.colorG, d.colorB,
                  timing[0].value, timing[1].value, timing[2].value, timing[3].value])
  }

  /** An LED that is off, dark, black and untimed: its status frame is all zeros. */
  const DARK := LedData(true, Off, 0, 0, 0, 0, 0, 0)

  /** The timing bytes blink and breath send decode back to the original `t_on` and `t_off`, even when their sum wrapped. */
  lemma TimingRoundTrip(tOn: uint16, tOff: uint16)
    ensures var p := TimingParams(tOn, tOff);
      && BigEndian16(p[2].value, p[3].value) == tOn
      && (BigEndian16(p[0].value, p[1].value) - tOn) % 0x1_0000 == tOff
  {
  }

  /** The payload of a status frame is all zero only for DARK. */
  lemma StatusPayloadZero(d: LedData)
    requires d.isAvailable
    ensures Sum(StatusFrame(d)[..9]) == 0 ==> d == DARK
    ensures Sum(StatusFrame(d)[..9]) <= 0xFFFF
  {
    var payload := StatusFrame(d)[..9];
    SumBound(payload);
    SumZero(payload);
    if Sum(payload) == 0 {
      assert payload[0] == 0 && payload[1] == 0 && payload[2] == 0 && payload[3] == 0 && payload[4] == 0;
      assert payload[7] == 0 && payload[8] == 0;
      assert payload[5] == 0 && payload[6] == 0;
    }
  }

  /**
   * Decoding inverts the chip's encoding, including timings whose sum wrapped past
   * 16 bits, for every state except DARK.
   */
  lemma StatusRoundTrip(d: LedData)
    requires d.isAvailable && d != DARK
    ensures DecodeStatus(StatusFrame(d)) == d
  {
    var timing := TimingParams(d.tOn, d.tOff);
    var payload := [ModeValue(d.opMode), d.brightness, d.colorR, d.colorG, d.colorB,
                    timing[0].value, timing[1].value, timing[2].value, timing[3].value];
    var raw := WithChecksum(payload);
    assert raw == StatusFrame(d);
    StatusPayloadZero(d);
    ChecksumRoundTrip(payload);
    assert raw[..9] == payload;
    ModeValueRoundTrip(d.opMode);
    TimingRoundTrip(d.tOn, d.tOff);
    var t := DecodeStatus(raw);
    assert t.isAvailable;
    assert t.opMode == d.opMode;
    assert t.tOn == d.tOn && t.tOff == d.tOff;
  }

  /** A dark LED cannot be read back: its all-zero frame fails the zero-checksum rule. */
  lemma DarkStatusUnreadable()
    ensures DecodeStatus(StatusFrame(DARK)) == UNAVAILABLE
  {
    var raw := StatusFrame(DARK);
    assert raw[..9] == [0, 0, 0, 0, 0, 0, 0, 0, 0];
    ZeroPayloadRejected(raw);
  }
}

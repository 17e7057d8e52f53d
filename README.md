# ugreen_leds_ethutild in Dafny

This project models the core of `ugreen_leds_ethutild`. The daemon shows a network interface's bandwidth utilisation on the four front LEDs of a UGREEN NAS, which it drives through an LED controller chip on the I2C bus at address 0x3a. The daemon:

- samples the interface's byte counters once a second;
- turns two samples into a utilisation percentage;
- maps that percentage through three thresholds to one of four LED states:
  - utilisation off;
  - netdev green;
  - netdev and disk1 blue;
  - netdev, disk1 and disk2 red;
- applies the state: the power LED is always white, and the netdev, disk1 and disk2 LEDs show the utilisation.

Settings come from an INI-style configuration file. A testing mode cycles through the four states without reading any counters.

The modules follow the source files:

| module | file | models |
|---|---|---|
| `BoundedInts`, `Wrappers` | `base.dfy` | fixed-width integer types, `Option` |
| `LedCodec` | `led_codec.dfy` | `led_controller.h` types, colours, and the checksum, command-frame and status-frame formats of `led_controller.cpp` |
| `I2c` | `i2c.dfy` | the I2C device as a class with a transaction log; the chip's answers come from an `Oracle` indexed by transaction number |
| `LedController` | `led_controller.dfy` | `led_controller_t`: a class whose methods append to the device log; `Run`/`LedRun` specification functions state what each operation sends and returns |
| `LedStateManager` | `led_state_manager.dfy` | `led_state_manager_t`: state selection, target LEDs, `apply_led_state` (`ApplyRun`), `update_leds`, `set_state` |
| `BandwidthMonitor` | `bandwidth_monitor.dfy` | `bandwidth_monitor_t`: counter deltas, Mbps, usage percentage, and the monitor class |
| `ConfigParser` | `config_parser.dfy` | `config_parser_t`: `trim`, line parsing, `parse_file` as a loop over the lines, `get_value`, and loading settings into the configuration |
| `Daemon` | `daemon.dfy` | `main.cpp`: the log-level mapping, the normal-mode and testing-mode loops, and `main` from the LED controller's start to the exit code |

Each imperative operation is a method. Its postcondition ties the new device log, the new fields and the result to a specification function of the old state and the chip's answers. The properties are proved about those functions as lemmas.

The two loops of `main.cpp` are methods with invariants:

- normal mode follows the recursive function `Updates` over the readings taken;
- testing mode follows `TestingFrom` over the iterations run.

The stop flag `g_running` only goes from set to clear. Its effect is therefore modelled as how many iterations run: the sample sequence in normal mode, `cycles` in testing mode.

Behaviour of the code worth noting:

- **Baseline.** `get_bandwidth_usage` replaces the stored baseline only on a valid reading (`src/bandwidth_monitor.cpp:80`). Every early return keeps the old one.
- **Frame length.** A command frame is 12 bytes: ten bytes of data and a two-byte checksum (`src/led_controller.cpp:181-195`).
- **Thresholds.** The low, medium and high thresholds are read from `[leds]` (`src/config_parser.cpp:66-106`), but the configuration header does not list them. They are modelled as fields of `Config` with the defaults 10, 40 and 80.
- **Counter wrap.** The wrap-around delta is modelled as written, `(UINT64_MAX - last) + current` (`src/bandwidth_monitor.cpp:58-64`). That is one less than the modular difference; `CounterDeltaModular` states the exact relation.
- **`get_value`.** Keys stored before any section header are stored bare. `get_value` always looks up `section.key`, so a bare key is found only if it happens to contain a dot. `BareKeysUnreachable` states this for a file with no headers and no dotted keys.

## Model

| member | source | states |
|---|---|---|
| LedCodec.LedIndex | src/led_controller.h:42-44 | The LED number is at most 9 and is 0 exactly for the power LED. |
| LedCodec.StatusRegister | src/led_controller.cpp:155 | Status registers are 0x81 plus the LED number, so they lie in 0x81..0x8A. |
| LedCodec.LedRegistersDistinct | src/led_controller.cpp:155 | Different LEDs have different command and status registers. |
| LedCodec.ModeOf | src/led_controller.cpp:159-165 | A status byte decodes to an operating mode exactly when it is 0..3, and the mode's value is that byte. |
| LedCodec.ModeValueRoundTrip | src/led_controller.h:38-40 | Decoding the value of a mode gives that mode back. |
| LedCodec.SumAppend | src/led_controller.cpp:46-48 | The byte sum of a concatenation is the sum of the parts' byte sums. |
| LedCodec.SumBound | src/led_controller.cpp:46-48 | The byte sum of `n` bytes is at most 255·n. |
| LedCodec.SumZero | src/led_controller.cpp:46-48 | The byte sum is 0 exactly when every byte is 0. |
| LedCodec.BigEndian16 | src/led_controller.cpp:57 | Combining two bytes big-endian gives a 16-bit value whose high byte is the first byte and whose low byte is the second. |
| LedCodec.VerifyChecksum | src/led_controller.cpp:53-58 | A frame is accepted exactly when it has at least 4 bytes and the sum of all but its last two bytes is non-zero and equals those two bytes read big-endian. |
| LedCodec.ZeroPayloadRejected | src/led_controller.cpp:53-58 | A frame whose payload is all zero is rejected, whatever its checksum bytes. |
| LedCodec.WithChecksum | src/led_controller.cpp:60-65 | Appending the checksum adds two bytes and keeps the data as a prefix. |
| LedCodec.ChecksumRoundTrip | src/led_controller.cpp:53-65 | Data of at least two bytes, with a non-zero sum that fits 16 bits, passes verification once its checksum is appended. |
| LedCodec.PayloadSum | src/led_controller.cpp:181-193 | The payload's checksum is 0xA1 plus the opcode plus the parameters given, with absent parameters counting as 0. |
| LedCodec.CommandFrame | src/led_controller.cpp:180-195 | A command frame is 12 bytes: the LED number, then A0 01 00 00, the opcode and the four parameters, then a big-endian checksum of the payload as it was before the LED number overwrote byte 0. |
| LedCodec.FrameChecksumSkipsId | src/led_controller.cpp:193-194 | A command frame verifies once byte 0 is zeroed. The frame as sent verifies exactly for the power LED, whose number is 0. |
| LedCodec.DecodeStatus | src/led_controller.cpp:151-178 | A status read is available exactly when 11 bytes came back, their checksum verifies and byte 0 is a mode. The fields are then bytes 0-4, `t_on` is bytes 7-8, and `t_on + t_off` is bytes 5-6 modulo 2^16; otherwise every field is zero. |
| LedCodec.TimingRoundTrip | src/led_controller.cpp:203-212 | The timing parameters of blink and breath carry `t_on + t_off` and `t_on` big-endian, and reading them back that way gives the timings. |
| LedCodec.StatusPayloadZero | src/led_controller.cpp:156 | A status frame's payload sum fits 16 bits, and it is 0 only for the all-dark state. |
| LedCodec.StatusRoundTrip | src/led_controller.cpp:151-178 | Decoding the status frame of any available state other than all-dark gives that state back. |
| LedCodec.DarkStatusUnreadable | src/led_controller.cpp:156 | The status frame of an LED that is off with every field zero is rejected by the checksum rule, so it reads as unavailable. |
| LedController.TransmitAppend | src/led_controller.cpp:180-195 | The block writes of two command sequences are those of the first followed by those of the second. |
| LedController.SetOnOffRun | src/led_controller.cpp:198-201 | A status of 2 or more sends nothing and returns -1; otherwise one on/off write is sent and its result returned. |
| LedController.WritesSucceedSplit | src/led_controller.cpp:68-102 | A stretch of writes all succeed exactly when its first part and its rest do. |
| LedController.SendUntilFailureStops | src/led_controller.cpp:73-101 | Sending commands until one fails sends a prefix of them. That prefix is cut short only by a failure, the result is the last write's, and the result is 0 exactly when every command's write returns 0. |
| LedController.SetLedStateRunStops | src/led_controller.cpp:68-102 | Switching off is the single write of `turn_off_led`. Switching on sends colour, brightness and on(1) in that order, stops at the first non-zero result and returns it, and returns 0 exactly when all three writes returned 0. |
| LedController.SetLedStateRunShape | src/led_controller.cpp:68-102 | `set_led_state` issues at least one write, addresses only its own LED, and returns 0 exactly when every write it issued returned 0. |
| LedController.NatOrZero | src/led_controller.cpp:121-135 | The bitwise or of two naturals is 0 exactly when both are 0. |
| LedController.NatOrBound | src/led_controller.cpp:121-135 | The bitwise or of two k-bit values is a k-bit value. |
| LedController.NatOrIdempotent | src/led_controller.cpp:121-135 | x or x is x. |
| LedController.BitOr | src/led_controller.cpp:121-135 | The 32-bit or of two results is 0 exactly when both results are 0. |
| LedController.Accumulate | src/led_controller.cpp:118-136 | Accumulating a result into the running result of `turn_off_all_leds` gives 0 exactly when both are 0. |
| LedController.TurnOffAllSwitchesAllOff | src/led_controller.cpp:108-148 | `turn_off_all_leds` always sends the four switch-off writes first. It reads the write-ack register only when all four returned 0, and returns 0 exactly when all four did and the register read back 1. |
| LedController.ComputeChecksum | src/led_controller.cpp:42-51 | The loop computes the byte sum of the first `size` bytes, or 0 when `size` is below 2 or beyond the data. |
| LedController.AppendChecksum | src/led_controller.cpp:60-65 | The framed data is the data followed by its big-endian checksum. It verifies whenever the data is at least two bytes long and has a non-zero sum that fits 16 bits. |
| LedController.LedController.ChangeStatus | src/led_controller.cpp:180-196 | Writes the 12-byte command frame to the LED's register and returns the write's result. |
| LedController.LedController.SetOnOff | src/led_controller.cpp:198-201 | Sends exactly what `SetOnOffRun` describes and returns its result. |
| LedController.LedController.SetRgb | src/led_controller.cpp:214-216 | Sends one colour command to the LED and returns the write's result. |
| LedController.LedController.SetBrightness | src/led_controller.cpp:218-220 | Sends one brightness command to the LED and returns the write's result. |
| LedController.LedController.SetBlinkOrBreath | src/led_controller.cpp:203-212 | Writes the frame of the given opcode with the timing parameters and returns the write's result. |
| LedController.LedController.SetBlink | src/led_controller.cpp:226-228 | Sends one blink command with opcode 4. |
| LedController.LedController.SetBreath | src/led_controller.cpp:230-232 | Sends one breath command with opcode 5. |
| LedController.LedController.TurnOffLed | src/led_controller.cpp:104-106 | Sends one on/off command with status 0. |
| LedController.LedController.SetLedState | src/led_controller.cpp:68-102 | Issues exactly the writes of `SetLedStateRun` and returns its result. |
| LedController.LedController.IsLastModificationSuccessful | src/led_controller.cpp:222-224 | Reads register 0x80 and reports true exactly when it reads 1. |
| LedController.LedController.TurnOffAllLeds | src/led_controller.cpp:108-148 | Issues exactly the transactions of `TurnOffAllRun` and returns its result. |
| LedController.LedController.GetStatus | src/led_controller.cpp:151-178 | Reads 11 bytes from the LED's status register and returns their decoding. |
| I2c.Device.WriteBlockData | src/led_controller.cpp:195 | Appends one block write to the log and returns the chip's answer to that transaction. |
| I2c.Device.ReadBlockData | src/led_controller.cpp:155 | Appends one block read to the log and returns the chip's answer. |
| I2c.Device.ReadByteData | src/led_controller.cpp:223 | Appends one byte read to the log and returns the chip's answer. |
| LedStateManager.DetermineState | src/led_state_manager.cpp:45-55 | Each of the four states is chosen exactly on its band: below low; low up to medium; medium up to high; at or above high. Each band is stated with the earlier comparisons that lead to it. |
| LedStateManager.DetermineStateCountsThresholds | src/led_state_manager.cpp:45-55 | With ordered thresholds, the state's level is the number of thresholds the usage reaches. |
| LedStateManager.DetermineStateMonotone | src/led_state_manager.cpp:45-55 | With ordered thresholds, more usage never selects a lower state. |
| LedStateManager.ExampleBands | src/led_state_manager.cpp:45-55 | With thresholds 10/40/80: 0.1% is off, 15% green, 40% blue and 100% red. |
| LedStateManager.TargetLedStates | src/led_state_manager.cpp:137-167 | The number of lit utilisation LEDs equals the state's level. They light in the order netdev, disk1, disk2. The colour is off, green, blue or red by level. |
| LedStateManager.StateName | src/led_state_manager.cpp:169-182 | No state is named "UNKNOWN". |
| LedStateManager.StateNamesDistinct | src/led_state_manager.cpp:169-182 | Different states have different names. |
| LedStateManager.TargetSucceedsIffAllWritesAccepted | src/led_state_manager.cpp:79-134 | Setting the three utilisation LEDs succeeds exactly when every write issued returned 0. |
| LedStateManager.ApplySucceedsIffAllWritesAccepted | src/led_state_manager.cpp:57-135 | `apply_led_state` succeeds exactly when every write it issued returned 0. |
| LedStateManager.TargetTouchesLedsInOrder | src/led_state_manager.cpp:81-126 | The utilisation half addresses netdev, disk1 and disk2 in that order, each even when an earlier one failed. |
| LedStateManager.ApplyTouchesLedsInOrder | src/led_state_manager.cpp:70-126 | When setting the power LED fails, only power is addressed and the result is failure. Otherwise power, netdev, disk1 and disk2 are addressed in that order. |
| LedStateManager.LedSuccessCommands | src/led_controller.cpp:68-106 | A successful `set_led_state` sent exactly its full command list. |
| LedStateManager.TargetSuccessCommands | src/led_state_manager.cpp:81-134 | When the utilisation half succeeds, it sent exactly the commands of the target. |
| LedStateManager.ApplySuccessSendsState | src/led_state_manager.cpp:57-135 | A successful `apply_led_state` sent exactly power on in white, then each utilisation LED's commands for the state. |
| LedStateManager.LedStateManager.SetUtilisationLed | src/led_state_manager.cpp:82-94 | Sets one LED through `set_led_state` with the manager's brightness, sending `SetLedStateRun`'s writes and returning its result. |
| LedStateManager.LedStateManager.ApplyTarget | src/led_state_manager.cpp:79-134 | Sends exactly `TargetRun`'s writes and returns its success. |
| LedStateManager.LedStateManager.ApplyLedState | src/led_state_manager.cpp:57-135 | Sends exactly `ApplyRun`'s writes and returns its success. |
| LedStateManager.LedStateManager.UpdateLeds | src/led_state_manager.cpp:11-35 | An invalid reading fails and changes nothing. A reading of the current state succeeds without writing. Otherwise the new state is applied, the result is whether that succeeded, and the state becomes current only then. |
| LedStateManager.LedStateManager.SetState | src/led_state_manager.cpp:37-43 | Applies the state even when it is current. The state becomes current exactly when applying it succeeded. |
| LedStateManager.LedStateManager.constructor | src/led_state_manager.cpp:5-9 | The manager starts at utilisation off with the configuration's brightness and thresholds. |
| BandwidthMonitor.CounterDelta | src/bandwidth_monitor.cpp:58-64 | Without a wrap, the delta is the difference. Across a wrap, the delta is one less than the modular difference. |
| BandwidthMonitor.CounterDeltaModular | src/bandwidth_monitor.cpp:58-64 | The delta is the difference modulo 2^64, minus 1 exactly when the counter wrapped. |
| BandwidthMonitor.CounterDeltaWrapExample | src/bandwidth_monitor.cpp:58-64 | From UINT64_MAX − 50 to 10 the delta is 60. |
| BandwidthMonitor.Mbps | src/bandwidth_monitor.cpp:55-68 | Throughput is non-negative, and throughput × milliseconds × 125 is the byte count. |
| BandwidthMonitor.UsagePercentage | src/bandwidth_monitor.cpp:72-75 | Usage lies in 0..100. It is 100 exactly when throughput reaches capacity, and below that it is throughput/capacity·100. |
| BandwidthMonitor.Reading | src/bandwidth_monitor.cpp:33-83 | A reading is valid exactly when the new sample's read succeeded and at least 100 ms have passed. Otherwise it is all zero. A valid reading's rates are the deltas over the interval, and its total and usage follow from them. |
| BandwidthMonitor.OneMegabitEachWay | src/bandwidth_monitor.cpp:55-75 | 125000 bytes each way in one second on 2000 Mbps is 1 Mbps each way, 2 Mbps total, 0.1% usage. |
| BandwidthMonitor.Monitor.constructor | src/bandwidth_monitor.cpp:7-9 | The monitor keeps the interface and capacity and starts uninitialised. |
| BandwidthMonitor.Monitor.Initialize | src/bandwidth_monitor.cpp:11-31 | A missing interface fails and changes nothing. Otherwise the sample becomes the baseline, and initialisation and the result both hold exactly when the read succeeded. |
| BandwidthMonitor.Monitor.GetBandwidthUsage | src/bandwidth_monitor.cpp:33-83 | When uninitialised, the reading is invalid and nothing changes. Otherwise it is `Reading` from the baseline to the sample, and the sample becomes the baseline exactly when the reading is valid. |
| ConfigParser.FirstNonSpace | src/config_parser.cpp:164 | Everything before the position is whitespace, and the character at it is not. |
| ConfigParser.EndOfNonSpace | src/config_parser.cpp:169 | Everything from the position on is whitespace, and the character before it is not. |
| ConfigParser.TrimSpec | src/config_parser.cpp:163-171 | The trimmed string is empty exactly for all-whitespace input. Otherwise it starts and ends with non-whitespace and sits in the input between whitespace-only margins. |
| ConfigParser.TrimUnique | src/config_parser.cpp:163-171 | Any substring framed by whitespace margins, with no surrounding whitespace of its own, is the trimmed string. |
| ConfigParser.TrimKeepsOut | src/config_parser.cpp:163-171 | Trimming introduces no character. |
| ConfigParser.TrimIdempotent | src/config_parser.cpp:163-171 | Trimming twice is trimming once. |
| ConfigParser.Find | src/config_parser.cpp:143-144 | Finds the first occurrence of the character, and reports none exactly when it is absent. |
| ConfigParser.UnquoteQuoted | src/config_parser.cpp:149-153 | A value in matching single or double quotes loses exactly those quotes. |
| ConfigParser.ParseLine | src/config_parser.cpp:128-157 | A line is blank exactly when it is all whitespace. An assignment's key contains no '=' and has no surrounding whitespace. `ParseSplit` states the split itself. |
| ConfigParser.TrimClean | src/config_parser.cpp:163-171 | A string without surrounding whitespace trims to itself. |
| ConfigParser.TrimDropLeading | src/config_parser.cpp:163-165 | Dropping leading whitespace does not change the trimmed string. |
| ConfigParser.TrimDropTrailing | src/config_parser.cpp:168-170 | Dropping trailing whitespace does not change the trimmed string. |
| ConfigParser.ParseSplit | src/config_parser.cpp:143-157 | A line `k=rest`, where `k` has no '=' and does not trim to empty or to something starting with '#', ';' or '[', is an assignment of the trimmed `k` to the trimmed, unquoted `rest`. |
| ConfigParser.SpacedAssignment | src/config_parser.cpp:143-157 | A line `key = value`, with spaces around the '=' as the example file writes it, gives back the key and the value. |
| ConfigParser.CommentLeavesState | src/config_parser.cpp:128-133 | A blank line or one starting with '#' or ';' after trimming changes neither the section nor the stored settings. |
| ConfigParser.NoEqualsLeavesState | src/config_parser.cpp:136-157 | A line without '=' that is not a `[...]` header changes neither the section nor the stored settings. |
| ConfigParser.QuotedAssignmentRoundTrip | src/config_parser.cpp:143-157 | Parsing `key="value"` gives back the key and the value. |
| ConfigParser.AssignmentRoundTrip | src/config_parser.cpp:143-157 | Parsing `key=value` gives back the key and the value, for a value with no surrounding whitespace and no matching quotes. |
| ConfigParser.HeaderRoundTrip | src/config_parser.cpp:136-140 | Parsing `[name]` gives a header for the trimmed name. |
| ConfigParser.ParseLinesInterpret | src/config_parser.cpp:127-158 | Parsing line by line is interpreting the parsed lines. |
| ConfigParser.LastAssignmentWins | src/config_parser.cpp:155-156 | The value an assignment stores is the one in the final map when no later line stores under the same full key. |
| ConfigParser.NoSectionBeforeHeader | src/config_parser.cpp:125-156 | Until the first header the section stays empty, so keys are stored bare. |
| ConfigParser.BareKeysOnly | src/config_parser.cpp:125-156 | With no header line the section stays empty, and when no key holds a '.' no stored key holds one either. |
| ConfigParser.BareKeysUnreachable | src/config_parser.cpp:173-180 | For settings parsed from a file with no header and no dotted key, `get_value` returns the default for every section and key. |
| ConfigParser.TextSetting | src/config_parser.cpp:36-39 | A text setting is replaced exactly when the key is present and non-empty. |
| ConfigParser.RangedSetting | src/config_parser.cpp:51-106 | A numeric setting is replaced exactly when the key is present, non-empty, parsable and within range. |
| ConfigParser.CapacitySetting | src/config_parser.cpp:41-48 | The capacity is replaced exactly when the key is present, non-empty and parsable, by the value truncated to 32 bits. |
| ConfigParser.ThresholdsStayInRange | src/config_parser.cpp:66-106 | Thresholds within 0..100 stay within 0..100 whatever the file says. |
| ConfigParser.EmptyFileKeepsConfig | src/config_parser.cpp:29-115 | A file with no settings leaves the configuration unchanged. |
| ConfigParser.ApplySettingsIdempotent | src/config_parser.cpp:29-115 | Loading the same settings twice is loading them once. |
| ConfigParser.ConfigParser.constructor | src/config_parser.cpp:123 | The parser starts with no settings. |
| ConfigParser.ConfigParser.ParseFile | src/config_parser.cpp:117-161 | An unreadable file fails and keeps the old settings. A readable one succeeds and replaces them with exactly what parsing its lines gives. |
| ConfigParser.ConfigParser.GetValue | src/config_parser.cpp:173-180 | Returns the value stored under `section.key`, or the default when there is none. |
| ConfigParser.ConfigParser.LoadConfigFromFile | src/config_parser.cpp:29-115 | An unreadable file fails and leaves the configuration. A readable one succeeds, and the configuration gets the file's settings. |
| ConfigParser.ConfigParser.OverlaySettings | src/config_parser.cpp:36-112 | The configuration gets the stored settings, each field per its own rule. |
| ConfigParser.ConfigParser.RangedValue | src/config_parser.cpp:51-106 | One numeric block: a present, non-empty, parsable value within range replaces the current one. |
| ConfigParser.ConfigParser.LoadConfig | src/config_parser.cpp:8-27 | It always succeeds. It loads the local file when readable, else the system file, else leaves the configuration unchanged. |
| Daemon.LogPriority | src/main.cpp:29-39 | "debug", "warning" and "error" select their priorities. Anything else, "info" included, selects INFO. |
| Daemon.LevelFiltering | src/main.cpp:28-48 | Errors are always logged. Debug messages are logged only at level "debug". Info messages are logged unless the level is "warning" or "error". |
| Daemon.ApplyingRealises | src/led_state_manager.cpp:57-135 | The state application the loops use is `apply_led_state` on the chip. |
| Daemon.ApplyingReportsWrites | src/led_state_manager.cpp:57-135 | Every state application succeeds exactly when all its writes returned 0. |
| Daemon.FeedPrefix | src/main.cpp:141-142 | The readings of a prefix of the samples are a prefix of the readings. |
| Daemon.StreakWindow | src/main.cpp:138-163 | The failure counter is at least m exactly when the last m readings were invalid. |
| Daemon.ReachedPrefix | src/main.cpp:159-162 | Once the limit is reached, later readings do not undo it. |
| Daemon.ReachedIffTenInvalidInARow | src/main.cpp:138-163 | Normal mode gives up exactly when ten consecutive readings were invalid. |
| Daemon.TenthFailureIsFatal | src/main.cpp:139-162 | Nine invalid readings do not end the run, ten do, and a valid reading in between resets the count. |
| Daemon.StopBeyond | src/main.cpp:141-163 | Every reading before the limit is reached is taken. |
| Daemon.StopAt | src/main.cpp:159-162 | The run stops right after the reading that reaches the limit. |
| Daemon.StopAll | src/main.cpp:141-167 | When the limit is never reached, every reading is taken. |
| Daemon.UpdatesFollowLastValid | src/main.cpp:144-153 | When every write is accepted, normal mode ends in the state of the last valid reading. |
| Daemon.NormalModeShowsLastValid | src/main.cpp:144-153 | On the chip, with every write accepted, normal mode ends in the state of the last valid reading. |
| Daemon.UpdatesRetryAfterFailure | src/main.cpp:151-153 | A failed update does not stop normal mode, and the next reading with the same target applies it again. |
| Daemon.CountReading | src/main.cpp:144-162 | A valid reading resets the counter. An invalid one increments it, and the run stops there exactly when the counter reaches ten. |
| Daemon.RunNormalMode | src/main.cpp:119-171 | Succeeds exactly when initialisation worked and ten invalid readings in a row never occurred. It sends exactly the updates of the readings taken and ends in their final state. |
| Daemon.TestReading | src/main.cpp:79-102 | Iteration k's fake reading is valid, with the usage of cycle position k mod 4. |
| Daemon.TestCycleVisitsEveryState | src/main.cpp:79-112 | With thresholds 10/40/80 the cycle shows off, green, blue and red in turn. |
| Daemon.TestingSucceedsIffWritesAccepted | src/main.cpp:89-113 | A testing run succeeds exactly when every write it issued returned 0. |
| Daemon.TestingModeSucceedsIffAllWritesAccepted | src/main.cpp:89-113 | Testing mode on the chip succeeds exactly when every write it issued returned 0. |
| Daemon.TestingEndsInLastState | src/main.cpp:89-113 | A successful testing run ends in the state of its last reading. |
| Daemon.DefaultTestingEndsInCycleState | src/main.cpp:79-113 | With the default thresholds, a successful run of n iterations ends in cycle state (n−1) mod 4. |
| Daemon.RunTestingMode | src/main.cpp:69-117 | Sends exactly what `TestingFrom` describes, returns its success, and leaves its state current. |
| Daemon.RunMode | src/main.cpp:240-248 | Testing mode sends exactly what `TestingFrom` describes from utilisation off and returns its success. Normal mode, on a monitor for the configured interface and capacity, sends exactly the updates of the readings taken, and succeeds exactly when initialisation worked and the limit was never reached. |
| Daemon.RunDaemon | src/main.cpp:222-257 | If the controller does not start, exit with 1 and write nothing. Otherwise: set the LEDs to utilisation off; run the chosen mode on the configuration's thresholds and brightness; turn every LED off; exit with 0 exactly when the mode succeeded. |

## Left out

- The I2C device implementation and `led_controller_t::start()` are not part of this model. The device is a class whose answers come from an oracle, and whether the controller started is a parameter of `RunDaemon`.
- The `usleep` and `sleep_for` delays are left out: they only pace the hardware.
- Reading the counters from sysfs and `/proc/net/dev` (`read_network_stats` and the two parsers) and the interface-existence check are left out. Each sample and the existence flag are parameters; a failed read is a sample with a counter at UINT64_MAX.
- The clock is left out. Timestamps are whole milliseconds given with each sample.
- IEEE doubles are modelled as exact reals: rounding in the Mbps and percentage arithmetic is not captured.
- Opening and reading files is left out. A file is `Option<seq<string>>` of its lines: `None` means it cannot be opened.
- `std::stoi` and `std::stoul` are the abstract parameter `toInt`, where `None` means the call throws. The digit syntax they accept is not modelled.
- `create_example_config`, command-line parsing, usage and version output, the signal handlers and `g_running` are left out.
  - The stop flag appears only as how many iterations a mode runs.
- `openlog`, `syslog` and console output are left out. Only the level-to-priority mapping and the mask it sets are modelled.
- `main`'s configuration loading and logging setup before the controller starts are left out of `RunDaemon`. `LoadConfig` and `LogPriority` model them separately.
- BandwidthMonitor.Reading: requires a capacity above zero. The source divides by the capacity and would produce an infinite or NaN percentage for 0.
- BandwidthMonitor.Monitor.GetBandwidthUsage: requires a capacity above zero, for the same reason.
- Daemon.RunNormalMode: requires a capacity above zero (through the monitor), for the same reason.
- BandwidthMonitor.UsagePercentage: requires a capacity above zero. The source divides by the capacity and would produce an infinite or NaN percentage for 0.
- Daemon.RunMode: requires a capacity above zero in normal mode, for the same reason.
- Daemon.RunDaemon: requires a capacity above zero in normal mode, for the same reason. Its mode result and the log before shutdown are ghost outputs that the postcondition describes.
- The LED types disk3 to disk8 are modelled as numbers only: the daemon never drives them.

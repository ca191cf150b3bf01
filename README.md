# Greenhouse controller firmware: verified model of its core

This project is a Dafny model of the logic inside the STM32 greenhouse
controller firmware. The firmware reads a DHT11 temperature/humidity
sensor, talks to a host over a framed serial protocol and drives four
actuators (fan, pump, light, buzzer). The model covers the parts of the
firmware that compute rather than wait on hardware:

- **Wire protocol** (`protocol.dfy`, module `Protocol`). The start-of-frame
  byte, the message-type, sensor-tag and actuator-tag codes with their
  conversions from bytes, the fixed-size TLV item and the message records.
- **Frame codec** (`frame.dfy`, module `Frame`):
  - the XOR checksum;
  - the frame validator `check_frame`, both as written and corrected;
  - `encode_msg` with its TLV writers, working in place on a byte array;
  - a round-trip proof: every encoded message is accepted as one whole
    frame, and a reference reader recovers the message from it.
- **Serial receiver** (`receiver.dfy`, module `Receiver`):
  - the TLV command parser;
  - the resynchronising drain over the receive window: skip one byte on a
    bad header or checksum, stop on an incomplete frame. The drain uses
    the corrected validator, which refuses a frame with LEN 0 (see
    "## Findings");
  - compaction and the reset when the buffer is full;
  - the whole step of `uart_rx_task` as a class over a 128-byte array,
    proved equal to a value-level specification whose invariants and
    delivery properties are proved as lemmas.
- **Dispatcher and actuator executors** (`command.dfy`, `channels.dfy`,
  modules `Command` and `Channels`):
  - the bounded queues between tasks;
  - `command_task`, which acknowledges each command once and before
    forwarding it, and routes it to its actuator's queue unchanged;
  - `actuator_task`, which drives a pin of a given polarity and reports
    feedback, with pulses. While a feedback waits for room in the TX
    queue, the pin already has its new level;
  - each `.await` is one method, and ghost logs state the ordering
    guarantees;
  - the wiring in `main`: channel capacities and each actuator's
    polarity.
- **ESP-01S bridge** (`esp01s.dfy`, module `Esp01s`). The hand-written
  `Action` parser ("On", "Off", "Pulse(N)") with `u64` parsing, the
  `FrameType` projections, and the relay bank that executes actions.
- **Device UI cache** (`device_ui.dfy`, module `DeviceUi`). The `UiState`
  update in the `ui_task` loop, and the whole/fraction split used to draw
  the temperature and the humidity.
- **Display formatters** (`display.dfy`, module `DisplayFormat`).
  `format_u8` and `format_u16` work by repeated division into a byte
  buffer. Also the labelled readings and the relay status line.
- **DHT11 driver** (`dht11.dfy`, module `Dht11`):
  - `wait_for_level` over a sequence of pin samples;
  - the response handshake;
  - `dh11_read` over a sequence of measured pulse widths, where `None`
    means the pin timed out, with its MSB-first bit packing and additive
    checksum;
  - a reference encoder, with a proof that every checksummed frame sent
    by the sensor is decoded back.
  - `src/dh11.rs` is an earlier copy of `src/dht11.rs` with the same
    branches and constants, so every `Dht11` member models both.
- `common.dfy` (module `Common`) holds shared types:
  - bytes as integers 0..255;
  - `Option` and `Result`;
  - a pin with a level;
  - bitwise XOR and its laws;
  - big-endian and two's-complement byte splitting;
  - decimal digits.

Behaviours of the code that the model keeps as written:

- An unknown actuator tag in a command becomes `Fan` (`ActuatorTag::from`),
  and the model keeps that (`Protocol.UnknownActuatorIsFan`,
  `Receiver.UnknownTagDrivesFan`).
- `command_task` acknowledges every command with `success: true` before the
  actuator has acted (`Command.AckFor`).
- A `Pulse(N)` action on the ESP-01S relay leaves its pin High after the
  wait (`Esp01s.ExecutedLevel`).

## Model

| member | source | states |
|---|---|---|
| Protocol.MessageTypeFrom | src/protocol.rs:18-29 | 0x01, 0x02, 0x10, 0x11 and 0x20 map to their variants, each if and only if; every other byte maps to Unknown |
| Protocol.MessageTypeCode | src/protocol.rs:9-16 | converting a variant's `repr(u8)` code back gives the same variant, Unknown = 0xFF included |
| Protocol.SensorCode | src/protocol.rs:34-39 | sensor tag codes lie in 0x01..0x04 |
| Protocol.ActuatorFrom | src/protocol.rs:51-61 | 0x11, 0x12 and 0x13 map to Pump, Light and Buzzer (each if and only if); every other byte, 0x10 included, maps to Fan |
| Protocol.ActuatorCode | src/protocol.rs:44-49 | actuator codes lie in 0x10..0x13 and convert back to the same actuator |
| Protocol.UnknownActuatorIsFan | src/protocol.rs:58 | every byte outside 0x10..0x13 becomes Fan |
| Protocol.TagCodesDistinct | src/protocol.rs:34-49 | sensor and actuator codes never collide, and each code table is injective |
| Protocol.NewU16 | src/protocol.rs:72-82 | length 2; value bytes 0..1 are the big-endian value; bytes 2..7 are zero |
| Protocol.NewI16 | src/protocol.rs:84-94 | length 2; value bytes 0..1 are the two's-complement big-endian value, read back to the same i16; bytes 2..7 are zero |
| Protocol.NewU8 | src/protocol.rs:96-104 | length 1; value byte 0 is the value; bytes 1..7 are zero |
| Frame.XorConcat | src/uart.rs:59-65 | the checksum of a concatenation is the XOR of the parts' checksums |
| Frame.XorReplace | src/uart.rs:59-65 | replacing one byte x by y changes the checksum by exactly x ^ y |
| Frame.CheckFrame | src/uart.rs:20-56 | Incomplete iff fewer than 4 bytes, or SOF present and fewer than LEN+3 bytes; HeaderError iff at least 4 bytes and no SOF; Valid(n) gives n == LEN+3 <= length and a matching XOR; CrcError gives a full frame whose XOR mismatches |
| Frame.CheckFrameFixed | src/uart.rs:20-56 | corrected validator: agrees with the one as written except that LEN 0 is a HeaderError; Valid(n) gives 4 <= n <= length, SOF, n == LEN+3 and a matching checksum |
| Frame.EmptyBodyAcceptedAsWritten | src/uart.rs:36-42 | the validator as written accepts `[AA, 00, AA, x]` as Valid(3), a frame shorter than the 4 bytes the receive loop slices into header, type and checksum; the corrected one refuses it |
| Frame.ValidFramePrefix | src/uart.rs:36-42 | a valid frame stays valid, with the same length, whatever bytes follow it |
| Frame.CrcDetectsCorruption | src/uart.rs:44-55 | changing any one byte after SOF and LEN of a valid frame makes it a CrcError |
| Frame.ChangeBreaksChecksum | src/uart.rs:44-55 | changing any single byte breaks a matching checksum |
| Frame.ChangeBeforeChecksum | src/uart.rs:59-65 | changing a body byte shifts the body XOR by the change and leaves the checksum byte |
| Frame.XorDistinct | src/uart.rs:59-65 | x ^ y is zero exactly when x == y |
| Frame.BadChecksumIsCrcError | src/uart.rs:46-55 | a complete SOF frame with a wrong checksum is a CrcError |
| Frame.TlvBytesMatchItems | src/uart.rs:168-190 | the bytes the TLV writers put on the wire are the tag, the length and the first two value bytes of the matching TlvItem |
| Frame.EncodingBytes | src/uart.rs:89-166 | an encoding is SOF, LEN = payload+1, the type code, the payload, and is 4 to 8 bytes long |
| Frame.HeartbeatFrame | src/uart.rs:149-166 | a heartbeat is exactly `[AA, 01, 20, 8B]` |
| Frame.EncodeRoundTrip | src/uart.rs:89-166 | every encoded message is accepted by both validators as one whole frame; LEN is the length minus 3; TYPE is the message's code |
| Frame.InterpretEncoding | src/uart.rs:89-166 | a reference reader recovers every message from its encoding |
| Frame.StatusFrameLayout | src/uart.rs:125-148 | actuator status and ack frames are 7 bytes with TLV (tag, 1, 0 or 1) |
| Frame.SensorFrameLayout | src/uart.rs:102-123 | sensor frames are 8 bytes with TLV (tag, 2, hi, lo) holding the reading big-endian |
| Frame.CalculateCrc | src/uart.rs:59-65 | the loop computes the XOR of all the bytes |
| Frame.AppendTlvU16 | src/uart.rs:168-178 | writes tag, 2 and the big-endian value at idx, returns idx+4, and changes nothing else |
| Frame.AppendTlvI16 | src/uart.rs:180-190 | the same for the two's-complement value |
| Frame.WritePayload | src/uart.rs:101-152 | writes the message's payload from index 3 and returns its end and the message type; nothing else changes |
| Frame.EncodeMsg | src/uart.rs:89-166 | the buffer's first len bytes are the message's encoding, and nothing after them changes |
| Receiver.ParseStep | src/uart.rs:309-348 | one complete TLV contributes its command and parsing resumes after its value |
| Receiver.ParseStop | src/uart.rs:306-316 | a truncated header or value ends the parse with the commands so far |
| Receiver.ParseCommands | src/uart.rs:295-350 | the loop yields exactly the reference command list of the payload |
| Receiver.CommandsBound | src/uart.rs:306-316 | a payload of n bytes yields at most n/3 commands |
| Receiver.ParseCommandsTlv | src/uart.rs:309-348 | parsing the TLV encoding of commands gives them back, in order |
| Receiver.UnknownTagDrivesFan | src/uart.rs:321 | a 1-byte TLV with an unknown tag switches the fan, with state value != 0 and duration 0 |
| Receiver.TruncatedTlvStops | src/uart.rs:312-316 | a TLV whose value is cut short yields no command |
| Receiver.FrameCommandsOf | src/uart.rs:248-255 | the commands handed on from a frame are those of its payload |
| Receiver.Drain | src/uart.rs:236-275 | the drain never consumes more than the window |
| Receiver.DrainOnce | src/uart.rs:240-274 | one drain step advances by the frame length on Valid and by 1 on a header or checksum error; it stops exactly on Incomplete; the whole drain is this step followed by the drain of the rest |
| Receiver.DrainLeavesNoFrame | src/uart.rs:236-275 | after the drain, fewer than 4 bytes remain or the rest is Incomplete |
| Receiver.DrainStep | src/uart.rs:240-274 | one turn of the drain loop moves the bytes it consumes and the commands it sends from the rest of the window to the totals; a turn that consumes nothing ends the pass with the totals equal to the whole drain |
| Receiver.DrainStop | src/uart.rs:240 | when fewer than 4 bytes remain, the totals so far are the whole drain |
| Receiver.DrainPass | src/uart.rs:236-275 | the drain loop consumes exactly the bytes and sends exactly the commands, in order, of the drain specification |
| Receiver.DrainUnfoldSkip | src/uart.rs:260-269 | a header or checksum error skips exactly one byte |
| Receiver.DrainFrameFirst | src/uart.rs:241-259 | a valid frame at the front is consumed whole and its commands come first |
| Receiver.DrainSkipsNoise | src/uart.rs:260-263 | bytes other than SOF before a frame are skipped one at a time and add no command |
| Receiver.DrainNonCommand | src/uart.rs:248-258 | a valid frame whose type byte is not Command is consumed whole and yields no command |
| Receiver.DrainEncoded | src/uart.rs:252 | every encoded outbound message is consumed whole and yields no command |
| Receiver.LongFrameStalls | src/uart.rs:36-42 | a window that starts with SOF and a LEN of 126 or more never drains, because its frame cannot fit in 128 bytes |
| Receiver.Compacted | src/uart.rs:278-291 | compaction keeps the window's length; an empty window restarts at (0, 0); a non-empty window whose end is past 100 moves to the front; any other window stays where it is |
| Receiver.AfterReset | src/uart.rs:206-212 | a full buffer is emptied, keeping what was sent; any other state is unchanged; the end is always below capacity afterwards |
| Receiver.AfterCompact | src/uart.rs:278-291 | compaction leaves a valid view |
| Receiver.StepKeepsValid | src/uart.rs:193-293 | one iteration of the receive loop keeps 0 <= start <= end <= 128 |
| Receiver.StepLeavesNoFrame | src/uart.rs:236-275 | after an iteration that read data, no complete frame is left in the window |
| Receiver.StepDeliversFrame | src/uart.rs:236-259 | a valid frame read into an empty window delivers exactly its commands and leaves the window empty |
| Receiver.DrainWholeFrame | src/uart.rs:241-259 | a valid frame on its own drains completely and delivers its commands |
| Receiver.RxTask.constructor | src/uart.rs:194-198 | the receive task starts with an empty window and nothing sent |
| Receiver.RxTask.ResetIfFull | src/uart.rs:206-212 | matches the reset specification, and the end is below capacity afterwards |
| Receiver.RxTask.Receive | src/uart.rs:214-233 | data is appended to the window and processing goes on; an empty read or a read error leaves the state and ends the iteration; a timeout leaves the state and goes on to process the window |
| Receiver.RxTask.AppendRead | src/uart.rs:214-226 | the bytes read land right after the window, which grows by exactly them |
| Receiver.RxTask.DrainWindow | src/uart.rs:236-275 | the window loses exactly the bytes the drain consumes and the commands it finds are sent; the window's end does not move |
| Receiver.RxTask.Compact | src/uart.rs:278-291 | matches the compaction specification and keeps the window valid |
| Receiver.RxTask.CopyToFront | src/uart.rs:285-288 | the window's bytes are copied to index 0 and the rest of the array is unchanged |
| Receiver.RxTask.Step | src/uart.rs:203-292 | one iteration of the loop is the composed specification of reset, read, drain and compaction |
| Channels.Queue.constructor | src/config.rs:55-56 | a queue starts empty with its capacity |
| Channels.Queue.Send | src/command.rs:44 | appends the item at the back when there is room |
| Channels.Queue.Receive | src/command.rs:25 | removes and returns the oldest item |
| Command.AckFor | src/command.rs:30-34 | the ack names the command's actuator and reports success |
| Command.Dispatcher.constructor | src/command.rs:15-22 | the dispatcher starts with empty logs over distinct queues |
| Command.Dispatcher.TakeCommand | src/command.rs:25 | the oldest command becomes current and is logged as received |
| Command.Dispatcher.SendAck | src/command.rs:30-34 | exactly one success ack for the current command goes to the TX queue, before forwarding |
| Command.Dispatcher.Forward | src/command.rs:37-44 | the command goes unchanged to the queue its actuator selects; the other actuator queues and the command queue are untouched |
| Command.LevelFor | src/command.rs:71-77 | the level is High exactly when the state equals the polarity |
| Command.ActiveHigh | src/main.rs:105-136 | every actuator is active-high except the buzzer |
| Command.FeedbacksFor | src/command.rs:80-102 | a command yields its own state as feedback, followed by a second OFF feedback exactly when it is a pulse (ON with a nonzero duration) |
| Command.FeedbackMatchesLevel | src/command.rs:71-101 | after a command is fully handled, the pin's level is the one the last feedback reports |
| Command.AllFeedbacksLength | src/command.rs:80-102 | each command produces one or two feedback messages |
| Command.Executor.constructor | src/command.rs:58-63 | the pin starts at logical OFF: Low if active-high, High otherwise |
| Command.Executor.ReceiveCommand | src/command.rs:67-77 | takes the oldest command and sets the level for its state; its feedback is then pending, and the feedback log is unchanged |
| Command.Executor.ReportState | src/command.rs:79-84 | sends the commanded state's feedback once the TX queue has room; a pulse then waits for its timer, any other command is done; the pin agrees with the last feedback |
| Command.Executor.EndPulse | src/command.rs:88-94 | when the pulse's timer expires the pin returns to OFF; the OFF feedback is then pending |
| Command.Executor.ReportOff | src/command.rs:96-101 | sends the OFF feedback once the TX queue has room; the command is done and the pin agrees with the last feedback |
| Command.Wire | src/main.rs:90-146 | the channels get capacities 8 (TX), 4 (commands) and 2 (each actuator); each actuator's executor reads its own channel with the polarity `ActiveHigh` gives it; the dispatcher sends to those channels and all share one TX queue |
| Esp01s.AnalysisReport | src/esp01s.rs:34-41 | Ok exactly for a data report, carrying it; NotReport otherwise |
| Esp01s.AnalysisCommand | src/esp01s.rs:42-48 | Ok exactly for a command, carrying it; NotCommand otherwise |
| Esp01s.AnalysisReceipt | src/esp01s.rs:49-56 | Ok exactly for a receipt, carrying it; NotReceipt otherwise |
| Esp01s.DecimalText | src/esp01s.rs:234-238 | decimal text is non-empty and made of digits |
| Esp01s.ParseU64 | src/esp01s.rs:234-238 | `u64` parsing succeeds only on non-empty text, with text after an optional '+' |
| Esp01s.ParseDecimalText | src/esp01s.rs:234-238 | the decimal text of any u64, with or without '+', parses back to it |
| Esp01s.ParseOverflow | src/esp01s.rs:234-238 | digit strings above 2^64-1 are refused |
| Esp01s.ParseAction | src/esp01s.rs:224-244 | "On" and "Off" parse to On and Off; `Pulse(N)` parses to Duration(N) exactly when N parses as u64, otherwise it is an invalid pulse duration; every other string is an invalid action; each case is an if and only if |
| Esp01s.ParseActionText | src/esp01s.rs:224-244 | every action's text form parses back to it |
| Esp01s.EmptyPulseRejected | src/esp01s.rs:234-238 | "Pulse()" is an invalid pulse duration, not an invalid action |
| Esp01s.ExecutedLevel | src/esp01s.rs:205-221 | the pin ends Low exactly for Off |
| Esp01s.Execution | src/esp01s.rs:205-221 | sets the pin to High for On and Pulse and Low for Off, and returns the same action |
| Esp01s.Relay.constructor | src/esp01s.rs:68-76 | the relay holds the four given pins |
| Esp01s.Relay.ExecuteAction | src/esp01s.rs:77-94 | only the target's pin changes; the receipt names the target and the same action, with result true |
| Esp01s.ExecuteCommand | src/esp01s.rs:114-124 | a frame that is not a command is refused with NotCommand and changes no pin; a command is executed with its receipt |
| DeviceUi.UiState.constructor | src/device_ui.rs:18-28 | the default state has no readings and every actuator flag off |
| DeviceUi.UiState.Update | src/device_ui.rs:64-105 | the cache becomes the specified update of the message, and a redraw happens exactly where the loop draws |
| DeviceUi.ApplySensorFrame | src/device_ui.rs:69-94 | a sensor message sets only its own slot, to Some of its value |
| DeviceUi.ApplyActuatorFrame | src/device_ui.rs:95-103 | actuator feedback sets exactly its actuator's flag to its state |
| DeviceUi.ApplyFrame | src/device_ui.rs:64-105 | a message changes only its slot; ack and heartbeat change nothing |
| DeviceUi.SlotsDetermineView | src/device_ui.rs:18-28 | two states that agree on every slot are equal |
| DeviceUi.ApplyIdempotent | src/device_ui.rs:69-94 | applying the same message twice equals applying it once; a repeated sensor message causes no redraw |
| DeviceUi.ApplyAllLatest | src/device_ui.rs:64-105 | after a sequence of messages, each slot holds the last value sent for it, or its earlier value |
| DeviceUi.TruncDiv | src/device_ui.rs:150 | Rust's `/` on i16 truncates toward zero |
| DeviceUi.TruncRem | src/device_ui.rs:171 | Rust's `%` gives a remainder with the sign of the dividend, and a == q*b + r |
| DeviceUi.WrappingAbs | src/device_ui.rs:151 | `abs` is the magnitude for every value except i16::MIN |
| DeviceUi.TempPartsAsWrittenBounds | src/device_ui.rs:150-151 | as written, frac < 100, and whole and frac rebuild the magnitude, for every value but i16::MIN |
| DeviceUi.TempSignLost | src/device_ui.rs:150-151 | as written, -0.50 °C and 0.50 °C are split identically |
| DeviceUi.TempAbsOverflow | src/device_ui.rs:151 | as written, i16::MIN gives a negative fraction |
| DeviceUi.TempReadingExact | src/device_ui.rs:150-151 | the corrected split has frac < 100 and a sign flag set exactly for negative values; it rebuilds the value and is injective |
| DeviceUi.HumidParts | src/device_ui.rs:170-171 | whole*100 + frac == value, with frac < 100 |
| Common.DigitsDenote | src/st7735_display_task.rs:236-281 | the decimal digits of a number denote that number |
| DisplayFormat.DecimalBytesSpell | src/st7735_display_task.rs:236-281 | the reference text is ASCII digits, with no leading zero, spelling the number |
| DisplayFormat.SplitStep | src/st7735_display_task.rs:242-256 | one division step takes the next decimal digit off the remainder |
| DisplayFormat.DivisionDone | src/st7735_display_task.rs:242-256 | when the divisor reaches 0, exactly the number's digits have been written and nothing else has changed |
| DisplayFormat.EmitDigitText | src/st7735_display_task.rs:248-252 | writing one more digit extends the text by that digit's ASCII code, and never beyond the number's digit count |
| DisplayFormat.DigitPass | src/st7735_display_task.rs:244-255 | one pass of the loop keeps the division and text invariants |
| DisplayFormat.FormatU8 | src/st7735_display_task.rs:236-257 | writes the decimal digits of num, without leading zeros ("0" for zero), returns their count in 1..3, and writes nothing else |
| DisplayFormat.FormatU16 | src/st7735_display_task.rs:260-281 | the same with a count in 1..5 |
| DisplayFormat.FormatReading | src/st7735_display_task.rs:164-194 | writes a 2-byte prefix, the digits and a 1-byte unit; returns digits+3; writes nothing past that |
| DisplayFormat.FormatTemp | src/st7735_display_task.rs:164-172 | writes "T:", the digits and "C"; returns 4..6 |
| DisplayFormat.FormatHumi | src/st7735_display_task.rs:175-183 | writes "H:", the digits and "%"; returns 4..6 |
| DisplayFormat.FormatSoil | src/st7735_display_task.rs:186-194 | writes "S:", the digits and "%"; returns 4..6 |
| DisplayFormat.FormatLight | src/st7735_display_task.rs:197-204 | writes "L:" and the digits, with no suffix; returns digits+2 (3..7) |
| DisplayFormat.RelayLetter | src/st7735_display_task.rs:207-233 | the letter is upper case exactly when the flag is set |
| DisplayFormat.RelayStatusLayout | src/st7735_display_task.rs:207-233 | the status line is 7 bytes: spaces at odd positions, W/L/F/B at even ones, upper case exactly when the flag is set |
| DisplayFormat.FormatRelayStatus | src/st7735_display_task.rs:207-233 | writes the status line, returns 7, and writes nothing past it |
| Dht11.WaitForLevel | src/dht11.rs:153-169 | polls until the first sample that matches the target or is past the timeout; Ok exactly when that sample matches, TimeOut otherwise |
| Dht11.CheckSensorResponse | src/dht11.rs:90-115 | Ok iff both response pulses were measured and lie in 20..100 µs; TimeOut iff a needed pulse is missing; TimeAnomaly iff a measured pulse is out of range |
| Dht11.ResponseLowFirst | src/dh11.rs:20-45 | a missing or out-of-range low pulse fails the handshake, whatever the high pulse |
| Dht11.BitOf | src/dht11.rs:206-209 | a bit is 1 exactly when its high pulse exceeds 30 µs |
| Dht11.ShiftInByte | src/dht11.rs:212-213 | shifting one more bit in changes only the byte it belongs to, by shift-left-or |
| Dht11.ShiftIn | src/dht11.rs:212-213 | shift-left-or of bit k into byte k/8 extends the packed frame by that bit |
| Dht11.ShiftedInMsbFirst | src/dht11.rs:189-214 | the bytes built by the loop's shift-or steps are the MSB-first packing of the bits read so far |
| Dht11.FrameMsbFirst | src/dh11.rs:70-84 | after 40 bits, byte j holds bits 8j..8j+7, most significant first |
| Dht11.ShiftBitIn | src/dht11.rs:212-213 | one shift-or on the array performs one packing step |
| Dht11.DecodeOutcomes | src/dh11.rs:68-91 | TimeOut iff one of the 40 pulses is missing; ChecksumError iff all were measured and the low byte of b0+b1+b2+b3 differs from b4; Ok gives the packed bytes with a matching checksum; never TimeAnomaly |
| Dht11.BitsOfSnoc | src/dht11.rs:197-209 | a measured pulse adds its bit to those read so far |
| Dht11.DecodeMissing | src/dht11.rs:191-203 | any missing pulse aborts with TimeOut and no partial result |
| Dht11.DecodeComplete | src/dht11.rs:217-226 | once all 40 bits are read, the outcome is decided by the checksum of the packed bytes alone |
| Dht11.CheckFrameSum | src/dht11.rs:216-226 | the `u16` sum test refuses the bytes with ChecksumError exactly when the low byte of b0+b1+b2+b3 differs from b4, and returns them otherwise |
| Dht11.Dh11Read | src/dht11.rs:185-227 | the loop over an array of 5 bytes returns exactly the reference decoding of the pulses |
| Dht11.FrameBitsAt | src/dht11.rs:189-214 | in the sensor's bit stream, bits 8j..8j+7 are those of byte j, most significant first |
| Dht11.FrameOfBits | src/dht11.rs:189-214 | packing the bits of any 5 bytes gives those bytes back |
| Dht11.DecodeSent | src/dht11.rs:185-227 | the pulses of any 5 bytes sent by the sensor decode to Ok of those bytes when the checksum matches, and to ChecksumError otherwise |

## Left out

- Hardware I/O is not modelled: the USART, GPIO registers, the ST7735 SPI display and the BH1750/soil sensors. Pins are objects with a level; serial input is a `ReadOutcome` value.
- `read_until_idle` with its 1 s timeout is modelled as the bytes it delivers, a read error or a timeout.
- `uart_tx_task` is not modelled: its `SHARED_TX` lock and its write are I/O. Its output is `Frame.Encoding` of each message, written by `Frame.EncodeMsg`.
- Timers and clocks are not modelled. The actuator's pulse wait is the step between `ReportState` and `EndPulse`, and the ESP-01S pulse wait is left out.
- `measure_pulse_width` and the elapsed time in `dh11_read` are modelled only as the measured widths they return, with `None` for a timeout.
- `wake_up_sensor` is left out because it only drives a pin and sleeps.
- `dh11_task`, `ui_task`'s drawing, `esp01s_task` and `Esp01s::data_report`/`execution_receipt` are left out as task loops and I/O. `dh11_task` only logs its result.
- Receiver.Drain: the receive loop is modelled with the corrected validator `CheckFrameFixed`, so the panic of the loop as written on a LEN 0 frame (the first row under "## Findings") is not modelled; `Drain`, `DrainOnce`, `DrainPass`, `StepSpec` and `RxTask.Step` all describe the corrected loop.
- Async scheduling and the concurrency examples are left out. Each `.await` on a channel is a method that is enabled only when the channel can complete it.
- JSON (serde) framing of the ESP-01S frames is left out. Only the string parser of `Action` is modelled.
- Floating point and font rendering in the display are left out.
- Esp01s.ParseAction: it does not model the 32-byte capacity of the `heapless::String<32>` the string is read into, because that failure happens in deserialisation before the parser runs.
- Dht11.WaitForLevel: it requires that some sample either matches the target or is past the timeout. The source polls forever otherwise, which a running clock rules out.
- DisplayFormat.FormatU8: it requires the buffer to have room for the digits. The source would panic on an out-of-range index; that is not modelled. The same applies to FormatU16, FormatReading, FormatTemp, FormatHumi, FormatSoil, FormatLight and FormatRelayStatus.
- Frame.EncodeMsg: it requires the buffer to hold the encoding, which the 64-byte buffer always does (at most 8 bytes).
- Receiver.RxTask.Receive: it requires the incoming bytes to fit after the window's end, which the slice `read_until_idle` is given guarantees.

## Findings

| source | as written | input that shows it | evidently intended | confidence | as-written member | corrected member |
|---|---|---|---|---|---|---|
| src/uart.rs:36-42 | `check_frame` accepts a frame with LEN = 0 as `Valid(3)`, and the receive loop then computes `frame[1] as usize - 1` (src/uart.rs:249), which underflows | `[AA, 00, AA, x]` for any x | a frame with no type byte is rejected as a header error | not executed | Frame.EmptyBodyAcceptedAsWritten | Frame.CheckFrameFixed |
| src/device_ui.rs:150-151 | `whole = val / 100` truncates toward zero, so readings from -0.99 °C to -0.01 °C lose their sign | val = -50 and val = 50 both give (0, 50) | negative readings keep their sign | not executed | DeviceUi.TempSignLost | DeviceUi.TempReadingExact |
| src/device_ui.rs:151 | `val.abs()` wraps for i16::MIN, so the fraction is negative | val = -32768 gives (-327, -68) | the fraction is 0..99 | not executed | DeviceUi.TempAbsOverflow | DeviceUi.TempReadingExact |

# LIN stack frame protocol — Dafny model

This project models the frame-protocol core of an Arduino LIN (Local
Interconnect Network) stack for a TJA1021/MCP2025 transceiver: the
`lin_stack` class with its two constructors (master and slave), the four
writes (`write`, `writeRequest`, `writeResponse`, `writeStream`), the two
reads (`read`, `readStream`), the identifier and checksum validators, the
synch-break timing (`serial_pause`) and the transceiver power control
(`sleep`, `sleep_config`).

Everything is functional. A stack object is the immutable `Power.Stack`
(power control enabled or not, the identifier byte if the stack is a slave,
the level of the transceiver control line). A write maps a stack and its
arguments to the new stack, a trace of hardware events (`Trace.Event`:
control line HIGH/LOW, delays, the break, bytes written to the serial port)
and the returned status. A read maps a stack, the bytes pending on the bus
(`seq<byte>`) and the caller's buffer to the status (0 no data, 1 success,
-1 validation failure), the buffer afterwards and the bytes left on the bus.
The poll `Serial.read()` consumes one byte when one is pending; the window
of `n + 3` bytes (sync, identifier, payload, checksum) follows it.

The checksum is the stack's own variant of the LIN inverted-sum checksum:
the payload (not the identifier) is summed modulo 256, one is added and the
result is complemented, with no carry folding. The builder (`write`,
`writeResponse`) and the validator (`validateChecksum`) compute it with
different byte arithmetic; both are modelled exactly as written and proved
equal to one reference definition `Checksums.Checksum`, including the wrap
case where the sum is 255 modulo 256 and both yield 0xFF. The identifier
check, though named `validateParity`, is plain equality with the stored
identifier; no parity bits are computed, and none are modelled.

C integer widths are written out: `byte` is 0..255 and every store into a
byte goes through `Bytes.ToByte` (reduction modulo 256); `unsigned int` is
taken as 16 bits, the width on the AVR Arduino Nano the source names, which
matters for the break duration `period * no_bits` and for the window length
`data_size + 3`.

Modules: `Bytes` (types, conversions, sums), `Checksums`, `Timing` (constants,
break duration and `serial_pause`), `Trace`,
`Power` (state, `sleep`, `sleep_config`, constructors), `Frames` (writes,
reads, validators), `Properties` (round trips and scenarios relating several
operations).

## Model

| member | source | states |
|---|---|---|
| Bytes.WrapSum | src/lin_stack.cpp:272-275 | the byte accumulator `suma` of the checksum loops, which wraps at every addition, ends at the true payload sum modulo 256 |
| Checksums.Checksum | src/lin_stack.cpp:72-75 | the checksum is the byte c with sum + 1 + c ≡ 255 (mod 256), i.e. (254 − sum) mod 256 |
| Checksums.BuilderChecksum | src/lin_stack.cpp:72-75 | the builder's arithmetic (wrapped sum, in-place increment that wraps 255 to 0, then 255 − suma) equals the reference checksum for every payload |
| Checksums.ValidatorChecksum | src/lin_stack.cpp:272-276 | the validator's arithmetic (255 − suma − 1 as an int, truncated to a byte) equals the reference checksum for every payload |
| Checksums.ByteStepsAgree | src/lin_stack.cpp:74-75 | for every accumulator value the builder's final two steps and the validator's expression at line 276 give the same byte, and for 255 both give 0xFF |
| Checksums.BuilderMatchesValidator | src/lin_stack.cpp:272-281 | the checksum a builder emits is the one the validator expects, for every payload |
| Checksums.ChecksumExample | src/lin_stack.cpp:72-75 | the checksum of [0x01, 0x02, 0x03] is 0xF8 |
| Checksums.BiasedDiffersFromInvertedSum | src/lin_stack.cpp:50 | the checksum never equals the plain inverted modulo-256 sum the frame comment describes; it is that value minus one modulo 256 |
| Timing.BreakDuration | src/lin_stack.cpp:221-224 | the break hold is period × no_bits microseconds, reduced modulo the 16-bit `unsigned int`, and exactly that product when it fits |
| Timing.SerialPause | src/lin_stack.cpp:221-233 | the synch break is a single `Break` event that puts no byte on the wire; its hold is congruent to period × no_bits modulo the 16-bit `unsigned int` for every no_bits, and exactly that product when it fits |
| Timing.BreakDurationLinear | src/lin_stack.cpp:224 | the break hold is additive in the number of bits while the product fits |
| Timing.StandardBreak | src/lin_stack.cpp:81 | the 13-bit synch break lasts 13 × 96 = 1248 microseconds |
| Timing.PeriodMatchesBaudRate | src/lin_stack.h:61-62 | the 96 µs period is the bit time of 10417 baud rounded to the nearest microsecond |
| Trace.Send | src/lin_stack.cpp:88-91 | writing a byte sequence emits one byte event per byte, in order |
| Power.Sleep | src/lin_stack.cpp:235-247 | with power control off nothing happens; with it on, state 1 drives the line HIGH, 0 drives it LOW, any other value leaves it, and the 20 µs settle delay follows in all three cases; the identifier and the enable flag never change |
| Power.SleepIdempotent | src/lin_stack.cpp:235-247 | repeating a mode request leaves the state as the first request left it |
| Power.LastModeRequestWins | src/lin_stack.cpp:238-242 | after two requests the state is what the last one (0 or 1) alone would give |
| Power.SleepConfig | src/lin_stack.cpp:249-263 | the configuration leaves the control line HIGH whether or not power control is enabled, keeps the rest of the state, starts by driving TX LOW, ends with the 200 µs delay, sends no byte and never requests sleep mode |
| Power.NewMaster | src/lin_stack.cpp:54-57 | the master constructor ends with the line HIGH and no identifier |
| Power.NewSlave | src/lin_stack.cpp:59-64 | the slave constructor ends with the line HIGH, the given identifier stored, and a normal-mode request after the configuration when power control is on |
| Frames.Write | src/lin_stack.cpp:69-99 | a full write emits, between the normal-mode and sleep-mode switches, the 1248 µs break, 0x55, the identifier, the first n payload bytes and their checksum; the wire carries n + 3 ≤ 258 bytes; returns 1; the line ends LOW when power control is on |
| Frames.WriteRequest | src/lin_stack.cpp:101-120 | a request emits the break and exactly [0x55, identifier], with no checksum, and returns 1 |
| Frames.WriteResponse | src/lin_stack.cpp:122-143 | a response emits the payload followed by its checksum, with no break and no sync, and returns 1 |
| Frames.WriteStream | src/lin_stack.cpp:145-166 | a stream write emits the break and then the bytes verbatim, with no sync and no checksum, and returns 1 |
| Frames.ValidateParity | src/lin_stack.cpp:265-270 | the identifier check accepts exactly the stored identifier byte |
| Frames.ValidateChecksum | src/lin_stack.cpp:272-281 | a window of length len is accepted exactly when its last byte is the checksum of bytes 2 .. len − 2 |
| Frames.Read | src/lin_stack.cpp:174-198 | on an empty bus: 0, buffer unchanged, nothing consumed; otherwise the poll byte and the n + 3 byte window are consumed and the result is 1 exactly when the window's identifier matches and its checksum validates, in which case buffer[j] = window[j + 2] for j < n, and −1 otherwise with the buffer unchanged |
| Frames.ReadStream | src/lin_stack.cpp:200-217 | on an empty bus: 0, buffer unchanged; otherwise the n bytes after the poll byte are copied verbatim, the rest of the buffer is kept, and 1 is returned |
| Properties.WriteThenRead | src/lin_stack.cpp:180-189 | the bytes of any full write, read by a slave bound to the same identifier, return 1 with the payload in the buffer and the bus consumed to the end of the frame |
| Properties.ValidFrameAccepted | src/lin_stack.cpp:182-189 | a window [sync, own identifier] ++ payload ++ [checksum(payload)] always validates |
| Properties.RequestThenResponseIsFrame | src/lin_stack.cpp:101-143 | a header followed by a response puts exactly the bytes of the corresponding full frame on the wire |
| Properties.StreamRoundTrip | src/lin_stack.cpp:200-217 | what a stream write sends, a stream read returns verbatim |
| Properties.ForeignIdentifierRejected | src/lin_stack.cpp:182-194 | a window whose identifier differs from the stored one is rejected whatever its checksum, with the buffer unchanged |
| Properties.CorruptedChecksumRejected | src/lin_stack.cpp:182-194 | a window whose checksum byte differs from the payload's checksum is rejected, with the buffer unchanged |
| Properties.PlainInvertedSumRejected | src/lin_stack.cpp:272-281 | a frame checked with the plain inverted sum (no bias of one) is always rejected |
| Properties.EmptyBusNoData | src/lin_stack.cpp:178-197 | with nothing pending, both reads return 0, leave the buffer and consume nothing |
| Properties.WriteScenario | src/lin_stack.cpp:69-99 | writing [0x01, 0x02, 0x03] sends 0x55, the identifier, 0x01, 0x02, 0x03, 0xF8 |
| Properties.ReadScenario | src/lin_stack.cpp:174-198 | a slave bound to 0x10 accepts [0x55, 0x10, 0xAA, 0x54] with buffer [0xAA] and rejects the same window with identifier 0x11 |
| Properties.WritesEndAsleep | src/lin_stack.cpp:96 | every write leaves the line LOW when power control is on, and a write leaves the stack unchanged when it is off |

## Left out

- Arduino `Serial`, `pinMode`, `digitalWrite` and `delayMicroseconds` are hardware I/O; they appear only as trace events (`Trace.Event`). `Serial.begin`/`Serial.end` around each write and the pin-mode changes inside `serial_pause` are not represented; the break is one event carrying its duration.
- `setSerial` is transport configuration only and is not modelled; neither is the unused channel field `ch`.
- The return values of `sleep`, `sleep_config` and `serial_pause` (always 1, never used by a caller) are not modelled.
- Real-time behaviour of the delays is not modelled; delays are events carrying their length.
- Frames.Read: assumes the bus supplies the whole window once the poll succeeds (`|bus| >= n + 4`); `Serial.readBytes` timeouts and short reads, which leave part of the window uninitialised, are not modelled.
- Frames.ReadStream: likewise assumes `n` bytes follow the poll byte.
- Frames.Read: requires `n + 3` to fit in `unsigned int`; beyond that `data_size + 3` wraps and the source indexes outside its window, which has no defined behaviour.
- Frames.Read: requires a stored identifier when the bus is non-empty, so a master's `read` with bytes pending is not modelled. The master constructor never assigns `identByte`. For a master declared at namespace scope (static storage) the field is zero-initialised, so such a master compares received identifiers against 0x00. Only for a non-static object is the value indeterminate.
- `unsigned int` is fixed at 16 bits (AVR); on 32-bit Arduino boards the wrap of `period * no_bits` happens at 2^32 instead.
- True LIN protected-identifier parity (section 2.3.1.3 of the LIN 2.2A specification) is not implemented by the stack and is not added here, and the +1 bias of the checksum is kept as written.
- Frames.Read: after a failed check the buffer is left exactly as it was, as src/lin_stack.cpp:191-194 does. No payload-length limit is imposed, because the code checks none; LIN itself allows at most 8 data bytes.

# Root robot client core, modelled in Dafny

This project models the core of a Python client for the Root coding robot. The client runs in a browser and talks to the robot over Bluetooth Low Energy. The model has three layers.

- **Packets** (`app/robot/packet.py`). A frame is 20 bytes: device, command, sequence number (`inc`), a 16-byte zero-padded payload, and a CRC-8. The CRC uses polynomial 0x07, initial value 0, most significant bit first, and no final XOR. It covers the first 19 bytes.
  - `Checksum` defines the CRC bit by bit, on an eight-boolean register, and proves that it catches every error confined to one byte.
  - `Packets` models the constructor, `from_bytes`, `to_bytes`, `packet`, `check_crc` and the `crc` property. `calc_crc` is a method with the source's two nested loops on a machine word that is masked once per byte. It is proved equal to the bit-level definition.
- **Types** (`app/robot/types.py`). These are the values decoded from event payloads: bumpers, the 32 colour readings, the light comparator and the touch sensors. The module also covers the integer step of the `note` helper and the integer codes of the enumerated command parameters.
- **The `Robot` object** (`app/robot/robot.py`). `Robots.Robot` is a class whose fields are the robot's state:
  - the sequence counter;
  - the keys of pending requests;
  - the handlers registered per `(dev, cmd)`;
  - the latest task per event;
  - the running and motor flags;
  - the frames written to the link, kept as an outbox.

  Every command method states exactly how the state changes: the counter moves on, the frame is written while running, and the request key is registered. Each method's payload is a pure function in `Commands`, proved against the decoding it must survive. `Events` models:
  - the filter closures, including the colour-zone test with Python's banker's rounding and `zip` truncation;
  - the cancel-and-replace dispatch loop of `_data_received`;
  - the three handlers that `run()` installs.

Supporting modules:
- `Struct` gives big-endian `struct.pack`/`unpack` for the field widths used.
- `Utf8` gives strict UTF-8 encoding and decoding for names and speech.
- `Wrappers` has `Option`/`Result` and the Python exceptions the core raises.
- `Seqs` holds small sequence and map facts.

Behaviour the model follows from the code as written:
- The stall handler's filter always returns `False`, so a stall event never does anything.
- The cliff handler calls `enable_motors(True)` synchronously when payload byte 4 is 0. It then fails with TypeError, because `create_task` receives `None`. No event handler ever clears the motor flag; only an explicit `enable_motors(False)` does. This is proved as `Events.MotorsStayEnabled`.
- `run()` discards every handler registered before it.
- Zones are `round(32 / n)` readings wide, so their count need not be n. A filter of 9, 12, 17 to 21 or 33 to 63 entries has fewer zones than entries, and `zip` silently ignores the entries without a zone. A filter of 5, 6, 10, 13 to 15 or 22 to 31 entries has more zones than entries, and the last zones are never checked.
- An empty colour filter divides by zero. A filter of 64 or more entries makes `range` fail.

## Model

| member | source | states |
|---|---|---|
| Struct.UnpackPack | app/robot/robot.py:336 | an unsigned big-endian field of n bytes reads back the value packed into it |
| Struct.PackUnpack | app/robot/types.py:53-54 | every byte string is the packing of its own unsigned value, which is below 256^n |
| Struct.UnpackPackInt32 | app/robot/robot.py:139 | a signed 32-bit `>i` field reads back the value packed into it |
| Struct.UnpackPackInt16 | app/robot/robot.py:190 | a signed 16-bit `>h` field reads back the value packed into it |
| Checksum.SingleByteErrorDetected | app/robot/packet.py:40-52 | two byte strings that differ in exactly one byte have different CRC-8 values |
| Packets.New | app/robot/packet.py:10-16 | succeeds iff the payload has at most 16 bytes, otherwise AssertionError; keeps dev, cmd, inc and the stored CRC; the payload is a prefix followed by zeros |
| Packets.FromBytes | app/robot/packet.py:18-22 | succeeds iff the input has exactly 20 bytes, otherwise AssertionError; the body is the first 19 bytes and the stored CRC is the last byte |
| Packets.Body | app/robot/packet.py:32-34 | 19 bytes: dev, cmd, inc, then the payload |
| Packets.ToBytes | app/robot/packet.py:24-26 | 20 bytes: the body, then the CRC-8 of the body (a stored CRC is ignored) |
| Packets.CheckCrc | app/robot/packet.py:36-38 | true iff a CRC is stored and it equals the last byte `to_bytes` would write; false whenever none is stored |
| Packets.Crc | app/robot/packet.py:54-57 | the stored CRC when present, the computed one otherwise |
| Packets.FromBytesToBytes | app/robot/packet.py:18-26 | parsing a serialised packet gives it back with its correct CRC stored, and the CRC checks |
| Packets.ToBytesFromBytes | app/robot/packet.py:18-38 | every 20-byte frame parses; re-serialising it reproduces the frame iff its CRC checks |
| Packets.NewNeverChecks | app/robot/packet.py:36-38 | a packet built without a stored CRC never passes `check_crc`; its `crc` is the last byte of its serialisation |
| Packets.CorruptionDetected | app/robot/packet.py:36-52 | changing any one byte of a frame whose CRC checks, in particular flipping any single bit, makes the check fail |
| Checksum.ByteBitMask | app/robot/packet.py:46 | for every byte, bit i of its most-significant-first bits is set iff `c & (0x80 >> i)` is nonzero |
| Packets.FeedBit | app/robot/packet.py:45-50 | one inner-loop pass leaves the low eight bits of the register equal to the reference register after one more input bit |
| Packets.FeedByte | app/robot/packet.py:43-51 | one outer-loop pass, masked at its end, equals the reference register after the byte's eight bits, msb first |
| Packets.CalcCrc | app/robot/packet.py:40-52 | the source's register loop returns the CRC-8 of the 19-byte body |
| Types.BumperFromPacket | app/robot/types.py:13-15 | left is bit 0x80 and right is bit 0x40 of payload byte 4 |
| Types.BumperRoundTrip | app/robot/types.py:14-15 | the two flags put back in place plus the low six bits rebuild byte 4, so nothing else is read |
| Types.ColorFromPacket | app/robot/types.py:33-35 | 32 readings, each in WHITE..NONE (0..15), never ANY |
| Types.ColorNibbles | app/robot/types.py:35 | reading 2k is the high nibble and reading 2k+1 the low nibble of payload byte k |
| Types.ColorRoundTrip | app/robot/types.py:33-35 | pairing the readings again gives back the payload, so decoding loses nothing |
| Types.LightFromPacket | app/robot/types.py:49-55 | state is byte 4; left and right are the big-endian 16-bit values at bytes 5-6 and 7-8, each in 0..65535 |
| Types.TouchFromPacket | app/robot/types.py:65-72 | bits 0x80, 0x40, 0x20 and 0x10 of byte 4 are front-left, front-right, back-right and back-left |
| Types.TouchRoundTrip | app/robot/types.py:66-72 | the four flags put back in place plus the low nibble rebuild byte 4 |
| Types.PitchIndex | app/robot/types.py:77-79 | found iff the name is one of the twelve pitches, at its position in the list |
| Types.NoteStep | app/robot/types.py:75-80 | a step iff the last character is a digit and the rest is a listed pitch; an empty name is IndexError, anything else ValueError |
| Types.NoteA4 | app/robot/types.py:80-81 | "A4" is step 46, so the exponent is zero and the result is the A4 argument |
| Types.NoteOctaveUp | app/robot/types.py:78-80 | raising the octave digit by one raises the step by exactly 12 |
| Types.NoteStepIsPianoKey | app/robot/types.py:80-81 | step − 46 equals the standard piano key number − 49 of the same note |
| Types.NoteStepInjective | app/robot/types.py:77-80 | different note names never share a step |
| Types.MarkerOf | app/robot/types.py:84-87 | a Marker member exists exactly for 0..2, and its value is the code |
| Types.AnimationOf | app/robot/types.py:90-94 | an Animation member exists exactly for 0..3, and its value is the code |
| Types.ColorSensorsOf | app/robot/types.py:97-101 | a ColorSensors member exists exactly for 0..3, and its value is the code |
| Types.ColorLightingOf | app/robot/types.py:104-109 | a ColorLighting member exists exactly for 0..4, and its value is the code |
| Types.ColorFormatOf | app/robot/types.py:112-114 | a ColorFormat member exists exactly for 0..1, and its value is the code |
| Types.ModulationTypeOf | app/robot/types.py:117-121 | a ModulationType member exists exactly for 0..3, and its value is the code |
| Utf8.EncodeAppend | app/robot/robot.py:119-122 | the encoding of a concatenation is the concatenation of the encodings |
| Utf8.DecodeFirstEncodeChar | app/robot/robot.py:132 | the bytes of one encoded character decode back to it and its length, whatever follows |
| Utf8.DecodeEncode | app/robot/robot.py:132 | strict decoding of an encoded string gives the string back |
| Utf8.DecodeZeros | app/robot/robot.py:132 | zero padding decodes to NUL characters |
| Utf8.RStripNul | app/robot/robot.py:132 | a prefix of the input without a trailing NUL; only NULs were removed |
| Utf8.RStripNulPadded | app/robot/robot.py:132 | trailing NULs appended to a string are stripped along with its own |
| Commands.Bound | app/robot/robot.py:363-366 | with low ≤ high the result lies in [low, high], is the value when it is in range, and is the nearer limit otherwise; with low > high it is high |
| Commands.BoundIdempotent | app/robot/robot.py:363-366 | clamping twice gives the same as clamping once |
| Commands.BoundMonotonic | app/robot/robot.py:363-366 | clamping preserves order |
| Commands.PyBound | app/robot/robot.py:363-366 | `min(high, max(low, value))` on Python values succeeds iff all three are ints |
| Commands.PyBoundOnInts | app/robot/robot.py:366 | on ints it is the integer clamp |
| Commands.EnumLimitsRaise | app/robot/robot.py:209 | with Enum members as limits it raises TypeError for every value |
| Commands.SetMarkerRaises | app/robot/robot.py:205-213 | `set_marker(1)` raises, where clamping the Marker codes would give 1 |
| Commands.SpeedsPayload | app/robot/robot.py:134-139 | eight bytes: the two clamped speeds as signed 32-bit fields |
| Commands.SpeedPayload | app/robot/robot.py:141-151 | four bytes: one clamped speed |
| Commands.SpeedsRoundTrip | app/robot/robot.py:137-145 | the robot reads back each speed clamped to [−100, 100] |
| Commands.ArcPayload | app/robot/robot.py:199 | eight bytes that read back as the angle and the radius |
| Commands.MarkerPayload | app/robot/robot.py:209 | one byte, the position clamped to 0..2: the position itself when it is a Marker code, 2 above the range (so 99 sends 2), 0 below it |
| Commands.LightsPayload | app/robot/robot.py:220-224 | animation clamped to 0..3 and red, green and blue each clamped to 0..255, field by field; a value already in range is sent unchanged |
| Commands.ColorSensorRequest | app/robot/robot.py:233-241 | bank clamped to 0..3, lighting to 0..4 and format to 0..1, field by field; each selector is sent unchanged when it is in its own range |
| Commands.NotePayload | app/robot/robot.py:248 | six bytes that read back as the absolute frequency and duration |
| Commands.SweepPayload | app/robot/robot.py:287-309 | 16 bytes: absolute start, end and duration read back; attack, release, volume and modulation rate clamped to 0..255 and modulation type to 0..3 in bytes 10..14; last byte 1 when append is set and 0 otherwise |
| Commands.Versions | app/robot/robot.py:115 | the first nine payload bytes of the reply, or empty without one |
| Commands.NameFromReply | app/robot/robot.py:132 | "" without a reply; otherwise it fails exactly when the payload is not valid UTF-8 |
| Commands.Field16 | app/robot/robot.py:336 | the unsigned big-endian 16-bit value at the offset |
| Commands.SignedField16 | app/robot/robot.py:190 | a value in −32768..32767 congruent modulo 65536 to the unsigned field |
| Commands.Position | app/robot/robot.py:189-193 | (0, 0, 0) without a reply; otherwise three signed 16-bit values |
| Commands.PositionRoundTrip | app/robot/robot.py:190 | a reply with signed 16-bit x, y and heading at bytes 4..9 reads back as exactly those |
| Commands.Accelerometer | app/robot/robot.py:348-352 | (0, 0, 0) without a reply; otherwise three signed 16-bit values, read from the position reply's layout |
| Commands.AccelerometerRoundTrip | app/robot/robot.py:349 | a reply with signed 16-bit x, y and z at bytes 4..9 reads back as exactly those |
| Commands.ColorSensorData | app/robot/robot.py:243 | eight readings, reading i being the unsigned field at byte 2i; empty without a reply |
| Commands.LightSensorData | app/robot/robot.py:326 | two unsigned 16-bit readings, (0, 0) without a reply |
| Commands.LightSensorRoundTrip | app/robot/robot.py:326 | a reply with unsigned 16-bit left and right at bytes 4..7 reads back as exactly those |
| Commands.BatteryLevel | app/robot/robot.py:335-339 | a 16-bit millivolt value and a percent byte, (0, 0) without a reply |
| Commands.BatteryRoundTrip | app/robot/robot.py:336 | a reply laid out with given millivolts and percent reads back as exactly those |
| Commands.SignedFieldRoundTrip | app/robot/robot.py:190 | a signed 16-bit value written into a field reads back unchanged |
| Commands.Slices | app/robot/robot.py:261-264 | every slice is non-empty and at most the slice size |
| Commands.SlicesAt | app/robot/robot.py:44-47 | slice j exists iff j full slices leave elements over, and it is `xs[j*size : (j+1)*size]` cut at the end |
| Commands.SlicesAtMost | app/robot/robot.py:44-47 | input that fits in k full slices gives at most k slices |
| Commands.SlicesPartition | app/robot/robot.py:261-264 | the slices concatenate back to the input, and all but the last are full |
| Events.RoundedZoneSize | app/robot/robot.py:42 | `round(32 / n)`: the nearest integer to 32/n, the even one on a tie |
| Events.ZoneSizeZero | app/robot/robot.py:42-46 | the zone size is 0, which `range` rejects, exactly when the filter has 64 or more entries |
| Events.ColorMatches | app/robot/robot.py:41-53 | ZeroDivisionError iff the filter is empty, ValueError iff it has 64 or more entries; otherwise true iff every entry j with a zone (readings j·s to (j+1)·s − 1, s = round(32/n), cut at the end) is ANY or occurs in that zone |
| Events.ZonesAgree | app/robot/robot.py:44-52 | the `zip` of entries with the sliced zones gives the same verdict as checking each entry against its zone by index |
| Events.AnyFilterMatches | app/robot/robot.py:50 | a filter of ANY entries matches every reading |
| Events.SingleColorFilter | app/robot/robot.py:42-53 | a one-entry filter matches iff it is ANY or its colour is among the 32 readings |
| Events.NinthEntryIgnored | app/robot/robot.py:44-52 | with nine entries the ninth never affects the verdict (`zip` drops it) |
| Events.Evaluate | app/robot/robot.py:37-383 | a None user filter passes the decoded value; a colour filter passes iff `ColorMatches` is true and raises iff it fails; a bump or touch filter passes iff it equals the decoded state; a light filter passes iff its state is byte 4; a passing filter hands on the decoded value; of the built-in filters (lines 374-383) stall rejects every packet, stop passes the packet itself, cliff passes iff payload byte 4 is 0, and none of them raises |
| Events.LightFilterIgnoresReadings | app/robot/robot.py:83-85 | a light filter passes iff its state equals byte 4, whatever the readings |
| Events.Handle | app/robot/robot.py:420-424 | a falsy result changes nothing; a raise stops; a truthy result replaces the task under the key; `enable_motors` sets the flag and fails with TypeError; other keys keep their tasks |
| Events.DispatchPrefix | app/robot/robot.py:419-424 | after n handlers, other keys keep their tasks, and the key's task is the old one or one of the first n handlers' |
| Events.Dispatch | app/robot/robot.py:417-424 | the handlers under the key see the packet in order, up to the first that raises; other keys keep their tasks; the key's task is the old one or one of its handlers'; enabled motors stay enabled |
| Events.LastPass | app/robot/robot.py:419-424 | the index of the last passing outcome among the first n, or none when none pass |
| Events.LastPassWins | app/robot/robot.py:419-424 | when each of the first n handlers schedules a task or rejects, the key then holds the task of the last of them whose filter passed, and is unchanged if none passed |
| Events.RaiseKeepsEarlierTasks | app/robot/robot.py:419-424 | when handler m's filter raises after handlers that schedule or reject, dispatch ends with that error and the key keeps the task of the last handler before m whose filter passed, or its old task |
| Events.StopsAtError | app/robot/robot.py:419-420 | once a filter raises, later handlers change nothing |
| Events.MotorsStayEnabled | app/robot/robot.py:376-383 | no event dispatch ever turns enabled motors off |
| Events.RunEvents | app/robot/robot.py:373-383 | handlers exist exactly under the stop, stall and cliff keys |
| Events.RunHandlers | app/robot/robot.py:374-383 | stall does nothing; cliff with byte 4 = 0 sets the motor flag and fails with TypeError, otherwise nothing; stop schedules `stop` |
| Robots.Successor | app/robot/robot.py:357-361 | the counter advances by one modulo 256 |
| Robots.IncAfterWraps | app/robot/robot.py:354-361 | k reads advance the counter by k modulo 256 |
| Robots.IncDistinct | app/robot/robot.py:354-361 | any 256 consecutive reads return 256 distinct numbers |
| Robots.IncPeriodic | app/robot/robot.py:354-361 | the 257th read repeats the first |
| Robots.WireIsToBytes | app/robot/robot.py:429 | a command's frame is `to_bytes()` of the packet it builds |
| Robots.WireLayout | app/robot/robot.py:426-429 | 20 bytes: header, payload, zero padding, and the CRC-8 of the first 19 bytes |
| Robots.WireParses | app/robot/robot.py:426-429 | a written frame parses back into the same dev, cmd, inc and payload, and its CRC checks |
| Robots.FitName | app/robot/robot.py:119-122 | a prefix of the name whose encoding fits in 16 bytes |
| Robots.FitNameLongest | app/robot/robot.py:120-122 | every longer prefix of the name has an encoding over 16 bytes |
| Robots.NameReadBack | app/robot/robot.py:117-132 | a name written as `set_name` pads it is read back by `get_name`, less trailing NULs |
| Robots.SpeechKeys | app/robot/robot.py:265-267 | chunk j is awaited under (5, 4, j-th sequence number) |
| Robots.SpeechFrameAt | app/robot/robot.py:261-268 | speech frame j is chunk j stamped with the j-th sequence number |
| Robots.DispatchHandlers | app/robot/robot.py:419-424 | the handler loop ends in the dispatch state of the specification, touching no other key |
| Robots.HandleOne | app/robot/robot.py:420-424 | one loop pass is `Events.Handle` of its filter's outcome |
| Robots.Robot.Handlers | app/robot/robot.py:22 | the handlers under a key, empty for a key never registered |
| Robots.Robot.constructor | app/robot/robot.py:17-26 | counter 0, no requests, handlers or tasks, not running, motors enabled, nothing written |
| Robots.Robot.OnColor | app/robot/robot.py:28-57 | appends a colour subscription under (4, 2) and changes nothing else |
| Robots.Robot.OnBump | app/robot/robot.py:59-73 | appends a bumper subscription under (12, 0) |
| Robots.Robot.OnLight | app/robot/robot.py:75-89 | appends a light subscription under (13, 0) |
| Robots.Robot.OnTouch | app/robot/robot.py:91-105 | appends a touch subscription under (17, 0) |
| Robots.Robot.NextInc | app/robot/robot.py:354-361 | returns the counter and advances it, wrapping 255 to 0 |
| Robots.Robot.WritePacket | app/robot/robot.py:426-430 | the serialised packet is written iff running |
| Robots.Robot.Send | app/robot/robot.py:145 | a command takes the next sequence number and its frame is written iff running; no reply key is registered |
| Robots.Robot.Request | app/robot/robot.py:110-113 | a request takes the next sequence number, registers its (dev, cmd, inc) key, and its frame is written iff running; the key is returned |
| Robots.Robot.GetVersions | app/robot/robot.py:107-115 | a board in 0..255 gives one request (0, 0) with the board byte; any other board takes a sequence number and registers its key, then raises ValueError with nothing written |
| Robots.Robot.SetName | app/robot/robot.py:117-123 | the loop sends the longest prefix of the name whose encoding fits in one payload |
| Robots.Robot.GetName | app/robot/robot.py:125-132 | one request (0, 2) |
| Robots.Robot.SetSpeeds | app/robot/robot.py:134-139 | with motors enabled sends both clamped speeds on (1, 4); otherwise nothing changes and no sequence number is used |
| Robots.Robot.SetLeftSpeed | app/robot/robot.py:141-145 | the same for the left wheel on (1, 6) |
| Robots.Robot.SetRightSpeed | app/robot/robot.py:147-151 | the same for the right wheel on (1, 7) |
| Robots.Robot.DriveDistance | app/robot/robot.py:153-161 | with motors enabled, a request (1, 8) with the distance; otherwise nothing |
| Robots.Robot.TurnRight | app/robot/robot.py:163-171 | with motors enabled, a request (1, 12) with the angle; otherwise nothing |
| Robots.Robot.TurnLeft | app/robot/robot.py:173-175 | a right turn by the negated angle |
| Robots.Robot.ResetPosition | app/robot/robot.py:177-179 | one command (1, 15) |
| Robots.Robot.GetPosition | app/robot/robot.py:181-193 | one request (1, 16) |
| Robots.Robot.Arc | app/robot/robot.py:195-203 | with motors enabled, a request (1, 27) with angle and radius; otherwise nothing |
| Robots.Robot.SetMarker | app/robot/robot.py:205-213 | with motors enabled, a request (2, 0) with the position clamped to 0..2; otherwise nothing |
| Robots.Robot.SetLights | app/robot/robot.py:215-225 | one command (3, 2) with the clamped animation and colour |
| Robots.Robot.GetColorSensorData | app/robot/robot.py:227-243 | one request (4, 1) with the clamped selectors |
| Robots.Robot.PlayNote | app/robot/robot.py:245-252 | one request (5, 0) with absolute frequency and duration |
| Robots.Robot.StopPlayingNote | app/robot/robot.py:254-256 | one command (5, 1) |
| Robots.Robot.Say | app/robot/robot.py:258-269 | one request (5, 4) per 16-byte chunk of the encoding, in order, each with the next sequence number and its key registered |
| Robots.Robot.PlaySweep | app/robot/robot.py:271-313 | one request (5, 5) with the sweep payload |
| Robots.Robot.StopSaying | app/robot/robot.py:315-317 | the same command as stopping a note |
| Robots.Robot.GetLightSensorData | app/robot/robot.py:319-326 | one request (13, 1) |
| Robots.Robot.GetBatteryLevel | app/robot/robot.py:328-339 | one request (14, 1) |
| Robots.Robot.GetAccelerometer | app/robot/robot.py:341-352 | one request (16, 1) |
| Robots.Robot.Run | app/robot/robot.py:368-385 | no requests or tasks, exactly the three built-in handlers, counter 0, running |
| Robots.Robot.IsRunning | app/robot/robot.py:387-389 | the running flag |
| Robots.Robot.Stop | app/robot/robot.py:391-394 | sends (0, 3) if it was running, then is not running |
| Robots.Robot.EnableMotors | app/robot/robot.py:396-398 | the motor flag becomes the argument |
| Robots.Robot.DataReceived | app/robot/robot.py:400-424 | no change when not running or when the CRC fails; AssertionError for a frame that is not 20 bytes; otherwise `Deliver` |
| Robots.Robot.Deliver | app/robot/robot.py:411-424 | removes only the frame's own (dev, cmd, inc) request, returning the packet if it was pending, then dispatches under (dev, cmd) |

## Findings

| source | as written | input that shows it | evidently intended | confidence | as-written member | corrected member |
|---|---|---|---|---|---|---|
| app/robot/robot.py:209 | `bound(position, Marker.UP, Marker.ERASE)` compares an int with members of a plain `Enum`, which define no ordering; the same holds at lines 220, 233-237 and 294-296 | `set_marker(1)` with motors enabled raises TypeError before anything is sent | clamp the argument to the enum's integer codes (0..2 for Marker) | not executed | Commands.SetMarkerRaises | Commands.Bound |

## Left out

- Utf8.Encode: a Dafny `char` is a Unicode scalar value, so a string holding a lone surrogate cannot be built. Python's `str.encode("utf-8")` raises UnicodeEncodeError on one in `set_name` and `say`; that error path is not modelled.
- The Bluetooth transport is reduced to an outbox of written frames and an input method. So are `debug` logging, `to_bytearray` and `__str__`.
- asyncio is not modelled:
  - futures become a set of pending request keys;
  - a task is the handler index and its argument;
  - cancelling a task only marks it;
  - no task ever runs, so a scheduled `stop()` has no effect in the model.
- Floating point is not modelled: the `int(x * 10)` and `int(x * 1000)` conversions and the `/ 10`, `/ 1000` and `2 ** (...)` scaling. Commands take already-scaled integers.
- User filters are Option values and user callbacks are opaque ids.
- Robots.Robot.DriveDistance: requires the distance to fit a signed 32-bit field. The source would raise `struct.error` instead.
- Robots.Robot.TurnRight: requires the angle to fit a signed 32-bit field. The source would raise `struct.error` instead.
- Robots.Robot.TurnLeft: requires the negated angle to fit a signed 32-bit field. The source would raise `struct.error` instead.
- Robots.Robot.Arc: requires both arguments to fit signed 32-bit fields. The source would raise `struct.error` instead.
- Robots.Robot.PlayNote: requires the absolute frequency to fit 32 bits and the duration 16 bits. The source would raise `struct.error` instead.
- Robots.Robot.PlaySweep: requires the absolute frequencies to fit 32 bits and the duration 16 bits. The source would raise `struct.error` instead.
- Robots.Robot.PlaySweep: takes every argument explicitly, since the model has no default arguments. The source's defaults, in the scaled integers the model takes, are attack 0, release 0, volume 255 (1.0 scaled by 255), modulation type 0 (`DISABLED`), modulation rate 0 and append false.
- Robots.Robot.SetLights: takes the animation explicitly. The source defaults it to `Animation.ON` (1).
- Robots.Robot.Say: issues all chunks in one call. The source awaits each chunk's acknowledgement before sending the next.
- Robots.Robot.SetMarker: uses the corrected clamp from the finding above. As written, the call raises TypeError (see `Commands.EnumLimitsRaise`).
- Robots.Robot.SetLights: uses the corrected clamp from the finding above. As written, the call raises TypeError, the default `Animation.ON` included.
- Robots.Robot.GetColorSensorData: uses the corrected clamp from the finding above. As written, the call raises TypeError on the bank, before any sequence number is taken.
- Robots.Robot.PlaySweep: uses the corrected clamp from the finding above. As written, the call raises TypeError on the modulation type.
- Robots.Robot.DataReceived: a pending request whose future is already done or cancelled is treated like any other. The future's state is not modelled.
- Commands.Position: returns the raw tenths, without the division by 10. Commands.Accelerometer likewise returns milli-g.
- Types.NoteStep: accepts only ASCII digits as the octave. Python's `int` also accepts other Unicode decimal digits. The floating-point frequency is not modelled.
- The `A4` argument of `note` is not modelled, because it only scales the floating-point result.
- The enum classes' names are not modelled, only their integer codes.

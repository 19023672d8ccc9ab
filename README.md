# AGL Security panel: a verified model

AGL Security is a home security panel. An mbed controller polls a humidity probe, a
gas/smoke sensor, a door contact, a motion detector and an RFID reader every five
seconds. It keeps an armed/unarmed flag that a known RFID tag toggles. It writes a
five-character status record (`humidity smoke door motion armed`, each `'0'` or `'1'`,
then `'\n'`) into a buffer it reuses every cycle. It sends that buffer to a debug
serial port every cycle, and to the Raspberry Pi's serial port only when the buffer
passes `checkMessage`. On the Pi, a Flask server decodes the line into a five-entry
status dictionary for its home page.

This project models both ends of that link in Dafny:

- `status_record.dfy` (module `StatusRecord`): the record format. It holds the field
  positions, the `Alarms` value a record stands for, `Encode` and `Parse`.
- `panel.dfy` (module `Panel`): `MbedMasterProgram.cpp`, modelled imperatively.
  - The five `read*` functions are methods that update an `array<char>` in place.
  - `checkMessage` is a method with the source's indexed loop and early return,
    and `strlen` and the `size_t` arithmetic are written out.
  - `ControllerCycle` is one iteration of `main`'s loop. `RunController` is `main`
    run over a finite sequence of readings.
  - Each method is proved against a function over the state (`RfidUpdate`,
    `DoorUpdate`, `SmokeUpdate`, `HumidityUpdate`, `MotionUpdate`, `Step`, `Run`,
    `Trace`). The truth tables and frame conditions are proved about those
    functions, and so is the cycle invariant: the armed character agrees with the
    flag and every record is well formed.
- `server.dfy` (module `Server`): the decoding part of `readSerialPort` in
  `server.py`. The global `statusDict` is a `map` field of class `StatusServer`,
  and `ReadSerialPort` updates it in place.
- `end_to_end.dfy` (module `EndToEnd`): decode after encode. For every line the
  controller sends, the server's dictionary shows exactly the alarms of that
  cycle's readings.

Hardware inputs are parameters. A cycle's readings are a `Readings` value: the RFID
read is `Option<int>`, where `None` means the reader had nothing readable, and the
contact, smoke, humidity and motion readings are integers. Each serial channel is
modelled as the sequence of lines written to it. On the server, the serial port
becomes the count of waiting bytes plus the line `readline` returns.

Where the code and its comments disagree, the model follows the code:

- The header comment of `checkMessage` (MbedMasterProgram.cpp:236) says it checks
  that each part of the message is one of the valid values. The loop, however, goes
  up to `strlen(messageOut) - 1`, so a NUL byte anywhere in the buffer shortens the
  scan, and the characters after it, and the one just before it, are never checked.
  The buffer `"00" + NUL + "00\n"` therefore validates, and `printf` then sends only
  `"00"` (`Panel.EmbeddedNulAccepted`, an instance of `Panel.EmbeddedNulHides`).
  A non-bit character at content position p is rejected unless a NUL sits at or
  before position p + 1 (`Panel.NonBitRejected`); in a NUL-free buffer it is always
  rejected (`Panel.CorruptedRecordRejected`).
  The controller itself never writes a NUL, so this does not happen from the
  initial buffer.
- If the buffer were empty, `strlen - 1` would wrap around in `size_t`. The loop
  would then read the terminating NUL and return false. The model keeps that case.
- `readRfid` prints `"system armed"` / `"system disarmed"` on the debug port, so the
  debug channel does not carry only the record. This is listed under "Left out".

## Model

| member | source | states |
|---|---|---|
| `Panel.RfidUpdate` | MbedMasterProgram.cpp:210-230 | Unarmed and a known tag read give armed with `'1'` at position 4. Armed and a known tag read give unarmed with `'0'` at position 4. No read or an unknown tag returns the state unchanged, buffer included. A flag that is neither ARMED nor UNARMED is never changed. No position except 4 is touched. |
| `Panel.ReadRfid` | MbedMasterProgram.cpp:210-230 | The in-place update of the buffer and the returned flag are exactly `RfidUpdate` of the old state. |
| `Panel.DoorUpdate` | MbedMasterProgram.cpp:117-130 | Position 2 becomes a bit, `'1'` iff the contact reads DOOROPEN (0) and the flag is ARMED. The flag and the other positions are unchanged. |
| `Panel.ReadDoorContact` | MbedMasterProgram.cpp:117-130 | The buffer and the returned flag are exactly `DoorUpdate` of the old state. |
| `Panel.SmokeUpdate` | MbedMasterProgram.cpp:141-154 | Position 1 becomes a bit, `'1'` iff smoke > 1000 (strict, so a reading of exactly 1000 gives `'0'`), whatever the armed flag. Other positions are unchanged. |
| `Panel.ReadSmokeSensor` | MbedMasterProgram.cpp:141-154 | The buffer afterwards is `SmokeUpdate` of the old buffer. |
| `Panel.HumidityUpdate` | MbedMasterProgram.cpp:164-177 | Position 0 becomes a bit, `'1'` iff humidity > 60 (strict), whatever the armed flag. Other positions are unchanged. |
| `Panel.ReadHumiditySensor` | MbedMasterProgram.cpp:164-177 | The buffer afterwards is `HumidityUpdate` of the old buffer. |
| `Panel.MotionUpdate` | MbedMasterProgram.cpp:187-200 | Position 3 becomes a bit, `'1'` iff the sensor reads MOTIONSENSED (1) and the flag is ARMED. The flag and the other positions are unchanged. |
| `Panel.ReadMotionSensor` | MbedMasterProgram.cpp:187-200 | The buffer and the returned flag are exactly `MotionUpdate` of the old state. |
| `Panel.StrLen` | MbedMasterProgram.cpp:242 | `strlen` is the index of the first NUL, or the whole buffer when it holds none. No character before it is NUL. |
| `Panel.CheckMessage` | MbedMasterProgram.cpp:240-255 | Returns true iff the C string is non-empty and every character at index 0 .. strlen-2 is `'0'` or `'1'`. The last character is never inspected, and the first bad character gives false. An empty string gives false, because `strlen - 1` wraps around in `size_t`. |
| `Panel.ValidatorReadsContent` | MbedMasterProgram.cpp:240-255 | On a NUL-free buffer of 6 characters, validation holds iff positions 0-4 are all bits, whatever the terminator position holds. |
| `Panel.CorruptedRecordRejected` | MbedMasterProgram.cpp:240-255 | A non-bit character in any content position makes a NUL-free 6-character buffer invalid, whatever bits or other non-NUL characters the other positions hold. |
| `Panel.EmbeddedNulAccepted` | MbedMasterProgram.cpp:242 | A NUL at position 2 makes `checkMessage` accept the buffer, and `printf` sends only the two characters before the NUL. |
| `Panel.NonBitRejected` | MbedMasterProgram.cpp:240-255 | For any buffer, a character at position p that is not a bit makes validation fail when no NUL occurs at positions 0 .. p + 1, because strlen then exceeds p + 1 and the loop reaches p. |
| `Panel.EmbeddedNulHides` | MbedMasterProgram.cpp:242 | For any buffer whose first NUL is at position p >= 1, strlen is p, the buffer validates as soon as positions 0 .. p - 2 are bits (whatever follows), and `printf` sends exactly the p characters before the NUL. |
| `Panel.RecordValidates` | MbedMasterProgram.cpp:99-103 | Every well-formed record validates, and `printf` sends it whole. |
| `Panel.Step` | MbedMasterProgram.cpp:93-97 | One loop body runs RFID, door, smoke, humidity and motion in that order. The buffer length is kept, and the flag afterwards is the one the RFID step produced. |
| `Panel.StepEncodesReadings` | MbedMasterProgram.cpp:93-97 | From a state satisfying the invariant, the buffer after a cycle is exactly the encoding of the current readings under the new flag. Door and motion are suppressed while unarmed. The invariant is preserved. |
| `Panel.NoStaleValues` | MbedMasterProgram.cpp:93-97 | Two invariant states with the same flag give the same next state. Nothing written by an earlier cycle survives the next one. |
| `Panel.ControllerCycle` | MbedMasterProgram.cpp:92-105 | One iteration in place. The new flag and buffer are `Step` of the old ones. The debug channel gets the C string every time. The primary channel gets it iff `checkMessage` accepts the buffer, and nothing otherwise. |
| `Panel.Run` | MbedMasterProgram.cpp:90-106 | Iterates `Step` over the readings, oldest first, and keeps the buffer length. |
| `Panel.CString` | MbedMasterProgram.cpp:98 | The text `printf` sends for the buffer is its longest NUL-free prefix: a prefix of the buffer with no NUL in it, followed in the buffer by a NUL unless it is the whole buffer. |
| `Panel.Trace` | MbedMasterProgram.cpp:98 | There is one debug line per cycle, each the C string of that cycle's buffer and so no longer than the buffer. |
| `Panel.RunExtend` | MbedMasterProgram.cpp:90-97 | Running k + 1 cycles is running k cycles and then cycle k. |
| `Panel.TraceAt` | MbedMasterProgram.cpp:90-98 | The k-th debug line is the C string of the buffer after the first k + 1 cycles. |
| `Panel.RunKeepsInv` | MbedMasterProgram.cpp:87-97 | Starting from `"00000\n"` unarmed, every reachable state has a well-formed record, a flag that is ARMED or UNARMED, and position 4 equal to `'1'` iff armed. |
| `Panel.TraceReportsArmed` | MbedMasterProgram.cpp:87-98 | Every line `main` sends is a well-formed record, and its position 4 is `'1'` iff the panel is armed after that cycle. |
| `Panel.RunController` | MbedMasterProgram.cpp:74-106 | `main` over a finite sequence of readings, with buffer `"00000\n"` and flag 0 to start. The debug lines are the `Trace` of the readings, and the primary channel receives exactly the same lines, so no cycle is dropped. |
| `StatusRecord.Encode` | MbedMasterProgram.cpp:24-29 | The record for a set of alarms has five bits in positions HUMPOSN..ARMEDPOSN, then `'\n'`, and `Parse` recovers the alarms. |
| `StatusRecord.EncodeParse` | MbedMasterProgram.cpp:24-29 | Every well-formed record is the encoding of the alarms it parses to. |
| `Server.InitialStatus` | server.py:20-26 | `statusDict` starts with exactly the five status keys, each mapped to `""`. |
| `Server.ApplyLine` | server.py:54-77 | After decoding a line, `floodStatus`, `smokeStatus`, `doorStatus` and `motionStatus` are `"ALARM"` iff characters 0, 1, 2 and 3 are `'1'`, and `"Normal"` otherwise. `armedStatus` is `"Armed"` iff character 4 is `'1'`, and `"Unarmed"` otherwise. The keys are the old keys plus the five, and any other key is unchanged. |
| `Server.ApplyLineKeepsKeys` | server.py:20-26 | Starting from the declared keys, a decode keeps the key set exactly the five keys, and each holds one of its two allowed strings. |
| `Server.StatusServer.constructor` | server.py:20-26 | The dictionary starts as `InitialStatus`. |
| `Server.StatusServer.ReadSerialPort` | server.py:49-77 | With no bytes waiting, `statusDict` is unchanged. Otherwise it becomes `ApplyLine` of the old dictionary and the line, so every entry is one of its two allowed strings. Lines shorter than five characters are excluded. |
| `EndToEnd.Dashboard` | server.py:54-77 | The dictionary a set of alarms should produce has exactly the five keys, and each holds an allowed string. |
| `EndToEnd.DecodeAfterEncode` | server.py:54-77 | Decoding an encoded record gives exactly the dictionary of the alarms it was encoded from, whatever the dictionary held before. |
| `EndToEnd.DashboardAfterCycle` | MbedMasterProgram.cpp:93-103 | After any cycle from a state satisfying the invariant, the server's decode of the sent line shows: humidity and smoke from the thresholds, door and motion only while armed, and the flag left by the RFID read. |
| `EndToEnd.DashboardAfterRun` | MbedMasterProgram.cpp:90-105 | The server's decode of the k-th line `main` sends shows the alarms of the k-th readings, under the flag after that cycle. |

## Left out

- Sensor drivers (`Dht11`, `MQ2`, `ID12RFID`, `DigitalIn`): hardware libraries. Their readings are inputs. The smoke reading is treated as an integer, and floating-point readings are not modelled.
- LCD output (`lcd.printf` notifications, and `lcd.cls` on disarm): display side effects with no effect on the record. They are not recorded.
- `wait(5)` and `wait(0.2)`: blocking delays with no effect on the state.
- The infinite `while(1)`: `RunController` runs the loop body once per element of a finite sequence of readings.
- Serial set-up and baud rates: I/O configuration.
- The `"system armed"` / `"system disarmed"` texts that `readRfid` prints on the debug port: the debug channel has no contract, and the model records only the buffer there.
- `printf` treating the buffer as a format string: the model sends the C string verbatim. A `'%'` in the buffer would be interpreted, but the controller never writes one.
- `Panel.CheckMessage`: requires the buffer to be at most `SIZE_MAX` (2^32 - 1) characters, as every object on the 32-bit controller is.
- The C `char` width of `armed`: the flag is an unbounded `int`. Only 0 and 1 are ever stored, and values outside those two are never changed.
- `Server.StatusServer.ReadSerialPort`: a line shorter than five characters makes the Python code raise `IndexError` after updating the entries before the missing index. The model excludes such lines by precondition instead of modelling the partial update and the exception.
- Flask plumbing (`app`, the route, `home`, `render_template`, `app.run`), pyserial set-up, `readline`, `reset_input_buffer`, `time.sleep` and `print`: web and I/O only.

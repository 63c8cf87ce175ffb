# Smoothed sensor readings and XBee API frames

This project models TEANMeshLab's two ESP32 station sketches in Dafny.
Each sketch samples a temperature/humidity sensor every 2000 ms. It keeps the
last N readings in a pair of ring-buffer arrays: N = 5 in `code_1`, which only
drives a display, and N = 2 in `code_2`. Once the window is full it shows the
mean of the window. `code_2` also sends the means as text inside a Digi XBee
802.15.4 API frame, "TX Request, 64-bit address" (frame type 0x00, unescaped
API mode).

Modules, one per component:

- `TickGate` (`tick_gate.dfy`): the `millis()` interval gate, worked out in
  32-bit unsigned arithmetic, and the signal level shown on the display.
- `XBeeFrame` (`xbee_frame.dfy`): `sendXBeeData`, written as a method that
  fills a byte array the way the C++ does. It is proved equal to a reference
  definition, `Frame`. `Frame` is linked to `Decode`, an independent
  receiver-side parser, by a round-trip lemma in each direction. The module
  also proves the checksum invariant and the fixed byte layout.
- `SampleWindow` (`sample_window.dfy`): the window globals as a class
  `Window`. It holds two arrays, `sampleIndex`, `validSamples`, and a ghost
  history of every reading pushed. `Valid()` ties each array to `Replay`, the
  result of writing the history slot by slot. Lemmas about `Replay` prove that
  the window holds the last N readings and that its mean is their mean.
  `calculateAverage` is a loop proved to compute the mean.
- `SensorNode` (`sensor_node.dfy`) and `XBeeNode` (`xbee_node.dfy`): each
  sketch's `loop()` as a method on a class that holds `lastUpdateTime` and the
  window.

Inputs to the model:

- Sensor values are `Option<real>`. `None` stands for a value that read as
  not-a-number.
- Time is the `currentMillis` argument.
- `String(float)` is the abstract function `render`.
- Nothing is written to the UART. `sendXBeeData` returns the bytes that
  `xbeeSerial.write` would be given.

Readings and means are exact reals, not `float`. `destAddress` is passed to
`SendXBeeData` as a parameter; the radio sketch passes the constant
`DestAddress`.

## Model

| member | source | states |
|---|---|---|
| TickGate.Elapsed | Software/code_1/src/main.cpp:120 | `currentMillis - lastUpdateTime` on 32-bit unsigned values: the plain difference when no wrap happened, the difference plus 2^32 when `millis()` wrapped |
| TickGate.Due | Software/code_1/src/main.cpp:120 | the gate `currentMillis - lastUpdateTime >= UPDATE_INTERVAL`: without a wrap it fires iff `now - last >= 2000`; after `millis()` wrapped it fires iff `now + 2^32 - last >= 2000` |
| TickGate.DueAcrossWraparound | Software/code_1/src/main.cpp:120-121 | if the true clock went from t0 to t1, less than 2^32 ms apart, the 32-bit elapsed time is exactly t1 - t0, so the gate fires iff at least 2000 ms really passed, even across a `millis()` wraparound |
| TickGate.SignalLevel | Software/code_1/src/main.cpp:145 | `(currentMillis / 2000) % 5` always lies in 0..4 |
| TickGate.SignalLevelAdvances | Software/code_2/src/main.cpp:180-181 | the level advances by one bar, cyclically, every 2000 ms until `millis()` wraps; across the wrap it restarts from `(now mod 2^32) / 2000 mod 5` |
| XBeeFrame.Checksum | Software/code_2/src/main.cpp:59 | `0xFF - (sum & 0xFF)`: adding it to the checksummed bytes gives 0xFF modulo 256 |
| XBeeFrame.ChecksumUnique | Software/code_2/src/main.cpp:55-59 | the checksum byte is the only byte value that completes the sum to 0xFF |
| XBeeFrame.Frame | Software/code_2/src/main.cpp:38-41 | a frame is `len(data) + 15` bytes long |
| XBeeFrame.FrameLayout | Software/code_2/src/main.cpp:43-52 | byte 0 is 0x7E; bytes 1-2 are the big-endian frame data length `len(data) + 11`, whose high byte is 0; byte 3 is 0x00, byte 4 is 0x01, bytes 5..12 are the destination in order, byte 13 is 0x00; the payload fills 14 .. end-1; the last byte is the checksum of bytes 3 .. end-1 |
| XBeeFrame.FrameAssembly | Software/code_2/src/main.cpp:43-59 | converse of the layout: a sequence of that length with those fields and that checksum is the frame |
| XBeeFrame.FrameChecksumValid | Software/code_2/src/main.cpp:55-59 | the sum of bytes 3 .. last, checksum included, is 0xFF modulo 256 |
| XBeeFrame.Decode | Software/code_2/src/main.cpp:43-59 | a receiver accepts only frames that start with 0x7E, have a matching length field and frame type 0x00, and pass the checksum test |
| XBeeFrame.DecodeFrame | Software/code_2/src/main.cpp:37-59 | round trip: every emitted frame decodes to frame id 1, the destination, options 0 and the payload |
| XBeeFrame.FrameOfDecoded | Software/code_2/src/main.cpp:37-59 | reverse round trip: a frame that decodes to id 1, options 0 and a payload of at most 240 bytes is the frame built for that payload and destination |
| XBeeFrame.EmptyPayloadFrame | Software/code_2/src/main.cpp:38-59 | an empty payload gives a 15-byte frame with length field 11 and checksum `0xFF - ((0x01 + sum(dest)) mod 256)` |
| XBeeFrame.EmptyPayloadToDestAddress | Software/code_2/src/main.cpp:33 | with the configured `destAddress` the empty-payload frame is `7E 00 0B 00 01 00 13 A2 00 41 4F ED DD 00 EF` |
| XBeeFrame.SendXBeeData | Software/code_2/src/main.cpp:37-62 | the `frameLength` bytes handed to `xbeeSerial.write` are exactly `Frame(data, dest)`: `len(data) + 15` of them, and the NUL terminator from `getBytes` has been overwritten by the checksum |
| XBeeFrame.WriteHeader | Software/code_2/src/main.cpp:43-49 | writes the 14 header bytes (delimiter, length high and low, type, id, 8 address bytes, options) and nothing after them |
| XBeeFrame.GetBytes | Software/code_2/src/main.cpp:52 | copies the payload from offset 14, writes a NUL after it, and leaves the rest of the buffer unchanged |
| XBeeFrame.ChecksumOver | Software/code_2/src/main.cpp:55-58 | the loop over indices 3 .. frameLength-2 accumulates their sum modulo 256 |
| XBeeFrame.Encode | Software/code_2/src/main.cpp:38-40 | corrected encoder: succeeds iff the frame would fit 255 bytes, and then its output decodes back to the payload; otherwise it fails with `PayloadTooLarge` |
| XBeeFrame.FrameLengthAsWritten | Software/code_2/src/main.cpp:38-39 | `frameLength` computed in `uint8_t`; for payloads of at most 240 bytes it is `len(data) + 15` |
| XBeeFrame.FrameLengthWrapsAsWritten | Software/code_2/src/main.cpp:38-41 | for payload lengths of 241..255 modulo 256 the frame length wraps to `len(data) mod 256 + 15 - 256`, which is at most 14 |
| XBeeFrame.PayloadTruncatesAsWritten | Software/code_2/src/main.cpp:38-52 | for payloads of 256 bytes or more whose length is at most 240 modulo 256, `frameLength` is that of the frame for the first `len(data) mod 256` bytes only, shorter than the full frame, and `Encode` refuses the payload |
| XBeeFrame.FrameLengthWrapsAt241 | Software/code_2/src/main.cpp:38-43 | a 241-byte payload gives `frameLength` 0, and `Encode` rejects that payload |
| SampleWindow.Replay | Software/code_1/src/main.cpp:27-28 | the window contents after a series of writes always have exactly N slots |
| SampleWindow.SlotIsMod | Software/code_1/src/main.cpp:135 | the slot of the k-th reading, `Slot(k, N)`, is exactly k mod N, the position `sampleIndex` reaches after k writes |
| SampleWindow.SlotStep | Software/code_1/src/main.cpp:135 | the next reading goes to the next slot, wrapping to 0 after slot N-1 |
| SampleWindow.SlotDistinct | Software/code_1/src/main.cpp:133-135 | two readings fewer than N writes apart never share a slot, so none of the last N readings overwrites another |
| SampleWindow.SlotAdvance | Software/code_1/src/main.cpp:135 | `(sampleIndex + 1) % N` applied to the slot of the k-th reading gives the slot of reading k + 1 |
| SampleWindow.NextSlot | Software/code_1/src/main.cpp:135 | `(sampleIndex + 1) % N` is `sampleIndex + 1`, except that it wraps to 0 after slot N-1 |
| SampleWindow.ReplayAppend | Software/code_1/src/main.cpp:133-135 | `Replay`'s definition unfolded for an appended value: it lands in slot `Slot(number of earlier values, N)`, and every other slot keeps its value |
| SampleWindow.PushReading | Software/code_1/src/main.cpp:133-135 | a reading updates both arrays at the same slot, which keeps them index-aligned, and the index advances by one modulo N |
| SampleWindow.ReplayFilling | Software/code_1/src/main.cpp:27-30 | while fewer than N readings have arrived, slot j holds the j-th reading, or the initial 0 if there is none yet |
| SampleWindow.ReplayFull | Software/code_1/src/main.cpp:133-137 | after exactly N readings the slots hold them in arrival order |
| SampleWindow.ReplayRecent | Software/code_1/src/main.cpp:133-135 | with at least N readings, each of the last N readings h[k] sits in slot `Slot(k, N)` (k mod N by `SlotIsMod`), so the arrays hold exactly the last N readings |
| SampleWindow.OldestAtNextSlot | Software/code_1/src/main.cpp:135 | slot `sampleIndex`, the slot of the next reading, holds the oldest of the last N readings, the next to be overwritten |
| SampleWindow.Mean | Software/code_1/src/main.cpp:84 | `sum / numReadings`: the mean times the count gives back the sum |
| SampleWindow.MeanBounds | Software/code_1/src/main.cpp:79-85 | the mean of values that all lie in [lo, hi] lies in [lo, hi] |
| SampleWindow.SumUpdate | Software/code_1/src/main.cpp:81-83 | overwriting one slot changes the sum by the new value minus the old one |
| SampleWindow.ReplaySum | Software/code_1/src/main.cpp:79-85 | the sum over the window equals the sum of the last N readings |
| SampleWindow.ReplayMean | Software/code_1/src/main.cpp:140-142 | the mean over the window is the unweighted mean of the last N readings |
| SampleWindow.MeanOfCopies | Software/code_1/src/main.cpp:79-85 | N copies of x average exactly to x |
| SampleWindow.SteadyInputMean | Software/code_1/src/main.cpp:133-142 | when the last N readings are all x, the window's mean is exactly x |
| SampleWindow.CalculateAverage | Software/code_1/src/main.cpp:79-85 | `calculateAverage` returns the mean of the first `numReadings` slots |
| SampleWindow.Window.constructor | Software/code_1/src/main.cpp:27-30 | the window starts with zeroed arrays, an empty history, `sampleIndex` 0 and `validSamples` 0 |
| SampleWindow.Window.Push | Software/code_1/src/main.cpp:133-137 | writes only slot `sampleIndex` in both arrays; `sampleIndex' = (sampleIndex + 1) mod N`; `validSamples' = min(validSamples + 1, N)`; the object invariant holds: `sampleIndex` in [0, N), `validSamples` equal to min(pushes, N), arrays equal to the replayed history |
| SampleWindow.Window.Ready | Software/code_1/src/main.cpp:140 | the test `validSamples == NUM_SAMPLES` holds, on a valid window, iff at least N readings have been pushed |
| SampleWindow.Window.Averages | Software/code_2/src/main.cpp:176-178 | once `validSamples == N`, the two averages are the means of the last N temperatures and humidities |
| SensorNode.Station.constructor | Software/code_1/src/main.cpp:26-30 | `lastUpdateTime` 0 and an empty five-slot window |
| SensorNode.Station.Loop | Software/code_1/src/main.cpp:117-151 | gate not due: nothing changes and nothing is displayed. Due: `lastUpdateTime := currentMillis`. A NaN value then leaves the window unchanged. A valid reading is pushed, and the means of the last five readings, with the signal level, are displayed exactly when `validSamples == 5` |
| SensorNode.Station.Sample | Software/code_1/src/main.cpp:132-148 | the valid-reading branch: the reading is appended to the window history, and the display happens exactly when the window is full, with the means of the last five readings and the signal level |
| XBeeNode.TextPayload | Software/code_2/src/main.cpp:187 | the payload is the bytes of "T:", the rendered temperature, " H:" and the rendered humidity, in that order |
| XBeeNode.Station.constructor | Software/code_2/src/main.cpp:26-30 | `lastUpdateTime` 0 and an empty two-slot window |
| XBeeNode.Station.Loop | Software/code_2/src/main.cpp:153-191 | as the display-only loop with N = 2. In addition, a frame is sent exactly when the averages are displayed: `Frame("T:" + render(avgTemp) + " H:" + render(avgHum), destAddress)` |
| XBeeNode.Station.Sample | Software/code_2/src/main.cpp:169-189 | the valid-reading branch with N = 2: the reading is appended, and exactly when the window is full the means are displayed and sent as `Frame("T:" + render(avgTemp) + " H:" + render(avgHum), destAddress)` |
| XBeeNode.TwoSampleExample | Software/code_2/src/main.cpp:169-178 | after (20, 50) and then (22, 52), a two-slot window holds both readings in order and averages (21, 51) |

## Left out

- `setup()` in both sketches is not modelled: serial start-up, WiFi and Bluetooth shutdown, display and sensor initialisation, and the `while (true)` halts are hardware start-up with nothing to state beyond "halt".
- `displayData` and `drawSignalBars` are not modelled: they draw pixels through the SH110X display driver. The model stops at the values passed to `displayData`.
- The sensor driver calls (`readTemperature`, `readHumidity`) and the `TEMP_OFFSET` addition of 0.0 are replaced by the `temperature` and `humidity` inputs. The model does not capture that the sensor is read only when the gate is due.
- The `Serial.println` error message and `xbeeSerial.write` itself are left out as I/O; the model returns the bytes that would be written.
- Floating point is left out. Means are computed over exact reals, so `float` rounding, NaN propagation and `String(float)` formatting are outside the model. `String(float)` becomes the parameter `render`.
- XBeeNode.Station.Loop: requires that `render` produce at most 117 bytes per value, so that the payload stays within `sendXBeeData`'s length bound. The C++ has no such check. Arduino's two-decimal rendering of a `float` stays well under that bound.
- XBeeFrame.SendXBeeData: requires a payload of at most 240 bytes and does not model the `uint8_t` wraparound beyond that bound. The wrap is shown separately under Findings, and `Encode` is the checked version.
- XBeeFrame.GetBytes: copies the payload verbatim. Arduino's `String::getBytes` copies with `strncpy`, which writes 0x00 for every byte after the first 0x00 of the string. The model is exact for payloads without a 0x00 byte, such as the "T:.. H:.." text of `loop()`. The Arduino core library is not part of this model.
- XBeeFrame.SendXBeeData: the as-written behaviour for payloads of 256 bytes or more is not modelled as a method. When the length is at most 240 modulo 256, `dataLength` truncates and the C++ sends a well-formed frame whose payload is cut to the first `len(data) mod 256` bytes. `PayloadTruncatesAsWritten` states the frame length for this case.
- That `sendXBeeData` is deterministic needs no lemma: it is a method proved equal to the function `Frame`.

## Findings

| source | as written | input that shows it | evidently intended | confidence | as-written member | corrected member |
|---|---|---|---|---|---|---|
| Software/code_2/src/main.cpp:38-41 | `dataLength`, `frameLength` and `frameDataLength` are `uint8_t`. When the payload length is 241..255 modulo 256, `frameLength = dataLength + 15` wraps to at most 14, so `frame[]` is too small for the header and payload writes | a 241-byte payload gives `frameLength` 0, so the write `frame[0] = 0x7E` is already out of bounds | refuse payloads whose frame would exceed 255 bytes | medium (not executed; the "T:.. H:.." payload of `loop()` is far shorter) | XBeeFrame.FrameLengthAsWritten, XBeeFrame.FrameLengthWrapsAsWritten | XBeeFrame.Encode |
| Software/code_2/src/main.cpp:38-52 | when the payload is 256 bytes or longer and its length is at most 240 modulo 256, `dataLength` truncates, and the frame sent carries only the first `len(data) mod 256` bytes, with no error | a 256-byte payload gives `frameLength` 15, and an empty-payload frame is sent | refuse payloads whose frame would exceed 255 bytes | medium (not executed; the "T:.. H:.." payload of `loop()` is far shorter) | XBeeFrame.PayloadTruncatesAsWritten | XBeeFrame.Encode |

# UWB ranging: serial protocol, host calibration and anchor state

This project is a Dafny model of the small UWB ranging system made of two parts.

**ESP32 firmware.** The firmware runs a DW1000 radio. Its `UwbDriver` keeps a table with one slot per anchor, an entry for each of the eight anchors. Each slot holds:
- the raw distance;
- the calibrated distance;
- the receive power;
- an activity flag;
- the calibration parameters `k` and `b`, which are kept in the EEPROM.

Two FreeRTOS tasks are written for the serial link. In this version `setup` does not start them: the `serial_interface.begin()` call is commented out (src/main.cpp:15-17), so as built the firmware's only serial output is its log text. The model describes the tasks as they run once started:
- `data_send_task` packs the driver's table into a 128-byte `JustFloatFrame` and writes it out;
- `cmd_parse_task` reads up to a `'\n'`, lays a 24-byte `CommandFrame` over the bytes it read, and on command 0x01 stores new `k`/`b` for one anchor.

**Host script (`calibration.py`).** The script:
- builds the two command frames, position and calibration;
- extracts one anchor's raw distance from the telemetry with `parse_frame`;
- pools 20 samples per known true distance before the line fit.

Module layout:

| module | file | models |
|---|---|---|
| `Bytes` | bytes.dfy | bytes, opaque 4-byte floats, `bytes.find`, packing of `float[]`, `memcpy` |
| `UwbConfig` | uwb_config.dfy | `MAX_ANCHOR_NUM`, `Position` |
| `JustFloat` | just_float.dfy | the `JustFloatFrame` and `CommandFrame` memory layouts |
| `Calibration` | calibration.dfy | `send_position`, `send_calibration_params`, `parse_frame`, the sampling loops of `calibration_mode` |
| `Driver` | uwb_driver.dfy | `UwbDriver` (a class over arrays), its setters, `read_config`, the three ranging callbacks |
| `SerialInterface` | serial_interface.dfy | one pass of `data_send_task` and of `cmd_parse_task` |
| `Protocol` | protocol.dfy | what happens when the host's frames meet the firmware's parser, and the firmware's frames meet the host's parser |

How the model represents things:
- **Floats.** A float is the four little-endian bytes it occupies in memory, and its value is never interpreted. The firmware's `k * distance + b` goes through a `FloatOps` parameter.
- **Zero calibration.** The property that zeroed parameters calibrate a distance to +0.0 is proved under two IEEE-754 signed-zero laws, stated as `Driver.SignedZeroLaws`.
- **Hardware inputs.** A pin level is a `bool` and a ranging peer is a `Device` value. The bytes that arrive on the serial line are an input sequence.
- **EEPROM.** The EEPROM cache is a byte array.

## Model

Some defining functions have no contract of their own. The rows for the following lemmas specify them:
- `Calibration.ParseFrame`: ParseFrameFound, ParseFrameNeedsHeader, ParseFrameNeedsTailAfterHeader, ParseFrameShortSpan, ParseFrameFirstFieldAlwaysFits and HostParsesTelemetry.
- `Calibration.Selector`: SelectorMapping.
- `Calibration.FieldOffset`: HostMatchesFirmware.
- `Calibration.Successes`: SuccessesPrefix and CollectSamples.
- `JustFloat.DecodeTelemetry`: TelemetryDecodeEncode and TelemetryEncodeDecode.
- `JustFloat.EncodeCommand`: CommandDecodeEncode and CommandEncodeDecode.
- `Driver.DecodeKs` and `Driver.DecodeBs`: CalParmsRoundTrip and ReadConfig.
- `Driver.Calibrated`: NewRange and ZeroParametersCalibrateToZero.

| member | source | states |
|---|---|---|
| Bytes.Find | calibration/calibration.py:84-85 | `bytes.find(pat, from)`. The result is the first occurrence of the pattern at or after `from`, or it is absent from there on. |
| Bytes.FindFirst | calibration/calibration.py:84-85 | Any position that is the first occurrence at or after `from` is exactly what `find` returns. |
| Bytes.FlattenAt | lib/serial_interface/just_float.h:14-16 | In a packed `float[]`, float `i` occupies bytes `4i .. 4i+4`. |
| Bytes.UnflattenFlatten | lib/serial_interface/just_float.h:14-16 | Reading a packed float array back yields the same floats. |
| Bytes.FlattenUnflatten | lib/serial_interface/just_float.h:14-16 | Any block whose length is a multiple of 4 is the packing of the floats read from it. |
| Bytes.FlattenConcat | lib/uwb_driver/uwb_driver.h:45-48 | Packing two float arrays one after the other gives the two packings concatenated, as in `cal_parms`. |
| Driver.EncodeCalParms | lib/uwb_driver/uwb_driver.h:45-48 | The 64-byte `cal_parms` image is `ks` packed, then `bs` packed. That is also the packing of the sixteen floats `ks + bs` as one array. |
| Bytes.WriteBytes | lib/serial_interface/serial_interface.cpp:24-29 | `memcpy`/`memset` into a buffer: the target range holds the source bytes, and every byte outside it is unchanged. |
| JustFloat.EncodeTelemetry | lib/serial_interface/just_float.h:11-20 | A well-formed `JustFloatFrame` occupies exactly 128 bytes. |
| JustFloat.TelemetrySegments | lib/serial_interface/just_float.h:11-20 | Field by field: header 0-1, command 2-3, the three float arrays at 4, 36 and 68, the position at 100, the activity flags at 112 and the tail at 120. |
| JustFloat.TelemetryLayout | lib/serial_interface/just_float.h:11-20 | Per anchor `i`: original distance at `4+4i`, calibrated at `36+4i`, receive power at `68+4i`, activity flag at `112+i`. Position x/y/z are at 100/104/108. |
| JustFloat.TelemetryDecodeEncode | lib/serial_interface/just_float.h:11-20 | Reading back the 128 bytes of a frame yields the frame. |
| JustFloat.TelemetryEncodeDecode | lib/serial_interface/just_float.h:11-20 | Any 128-byte block is the image of the frame read from it. |
| JustFloat.DecodeCommand | lib/serial_interface/just_float.h:23-29 | Laying the struct over 24 bytes always gives a well-formed frame: header 0-1, command 2, anchor number 3, data at 4/8/12, tail 16-23. |
| JustFloat.CommandDecodeEncode | lib/serial_interface/just_float.h:23-29 | The memory image of a `CommandFrame` reads back as the same frame. |
| JustFloat.CommandEncodeDecode | lib/serial_interface/just_float.h:23-35 | Any 24-byte block (`COMMAND_FRAME_SIZE`) is the image of the frame read from it. |
| JustFloat.ProtocolConstants | lib/serial_interface/just_float.h:7-35 | The header constant matches the struct default, and `TAIL_BYTES` is only the first half of the 8-byte tail. The tail ends in `'\n'`, the two command codes differ, and `sizeof` is 128 and 24 bytes. |
| Calibration.SelectorMapping | calibration/calibration.py:19-26 | Targets 1..3 select anchors 0..2. Every other value (4 and any invalid one) selects anchor 3. |
| Calibration.PositionFrame | calibration/calibration.py:16-26 | The position frame is 24 bytes, starting with the header and ending with the 8-byte tail. |
| Calibration.CalibrationFrame | calibration/calibration.py:31-59 | The calibration frame is 20 bytes, not the 18 its docstring gives, with the tail at bytes 12-19. |
| Calibration.ParseFrameNeedsHeader | calibration/calibration.py:81-104 | With no header in the data, the result is None. |
| Calibration.ParseFrameNeedsTailAfterHeader | calibration/calibration.py:84-87 | With no tail at or after the first header, the result is None. |
| Calibration.ParseFrameIgnoresEarlierTail | calibration/calibration.py:85 | Example: data whose only tail precedes its only header parses to None. The general law is `ParseFrameNeedsTailAfterHeader`. |
| Calibration.ParseFrameFound | calibration/calibration.py:84-104 | With the first header at s and the first later tail at e, the result is the 4 bytes at s+offset(flag) when the slice `[s, e+8)` holds them. Otherwise it is None, which stands for the `struct.error` path. |
| Calibration.ParseFrameFirstFieldAlwaysFits | calibration/calibration.py:91-92 | Once a header and a later tail exist, target 1 always gets the 4 bytes after the header and the command bytes. |
| Calibration.ParseFrameShortSpan | calibration/calibration.py:99-103 | Take any data with the first header at s and the first later tail at e. If the slice `[s, e+8)` ends before the selected field's 4 bytes, the result is None, which stands for the `struct.error` path. |
| Calibration.ParseFrameShortSpanExample | calibration/calibration.py:99-103 | Example: a header followed directly by a tail, read for target 2, parses to None. |
| Calibration.SuccessesPrefix | calibration/calibration.py:160-163 | Reading further only appends to the measurements already collected. |
| Calibration.CollectSamples | calibration/calibration.py:159-163 | The inner loop returns exactly the first 20 successful reads, in arrival order. Reads that time out are skipped. |
| Calibration.PoolSamples | calibration/calibration.py:151-176 | The pooled lists are 20·n long. Entry `i` pairs sample `i mod 20` of distance `i / 20` with that true distance. |
| Driver.ZeroParametersCalibrateToZero | lib/uwb_driver/uwb_driver.cpp:17 | Under the signed-zero laws, `0 * d + 0` is +0.0 for every finite `d`. |
| Driver.CalParmsRoundTrip | lib/uwb_driver/uwb_driver.cpp:108-113 | Reading the stored `cal_parms` block back gives the `ks` and `bs` that were written. |
| Driver.ShortAddress | lib/uwb_driver/uwb_driver.cpp:58 | The address `4·p0 + 2·p1 + p2` is always one of the eight slots. |
| Driver.ShortAddressBijection | lib/uwb_driver/uwb_driver.cpp:58 | The three pins select each of the eight addresses in exactly one way. |
| Driver.DeviceIndex | lib/uwb_driver/uwb_driver.cpp:28 | The device slot is the short address mod 16, so it is below 16. |
| Driver.DeviceIndexCanExceedSlots | lib/uwb_driver/uwb_driver.cpp:38 | Short address 8 yields slot 8, which is past the eight activity flags. Address 0x13 wraps to slot 3. |
| Driver.UwbDriver.constructor | lib/uwb_driver/uwb_driver.h:25-31 | Every array starts zeroed: distances, receive powers, calibrated distances, flags, `ks` and `bs`. |
| Driver.UwbDriver.SetState | lib/uwb_driver/uwb_driver.cpp:45-47 | Slot `index` becomes 1 whatever `state` is passed. No other flag changes. |
| Driver.UwbDriver.UpdateDistance | lib/uwb_driver/uwb_driver.cpp:96-98 | Only slot `index` of `distance` changes, and it becomes the new value. |
| Driver.UwbDriver.UpdateCaldistance | lib/uwb_driver/uwb_driver.cpp:100-102 | Only slot `index` of `caldistance` changes. |
| Driver.UwbDriver.UpdateRxpower | lib/uwb_driver/uwb_driver.cpp:104-106 | Only slot `index` of `rxpower` changes. |
| Driver.UwbDriver.UpdateKb | lib/uwb_driver/uwb_driver.cpp:108-113 | `ks[index]` becomes k and `bs[index]` becomes b. EEPROM bytes 0-63 then hold the image of the whole new `cal_parms`, and the rest of the EEPROM is kept. |
| Driver.UwbDriver.ReadConfig | lib/uwb_driver/uwb_driver.cpp:49-67 | The mode pin selects tag or anchor, and the pins give the short address. `ks` and `bs` are those read from EEPROM bytes 0-63. |
| Driver.NewRange | lib/uwb_driver/uwb_driver.cpp:11-22 | The peer's slot gets the raw range, `k·range + b` with that slot's own parameters, and the receive power. Nothing else changes. |
| Driver.NewDevice | lib/uwb_driver/uwb_driver.cpp:24-32 | A null device changes nothing. Otherwise slot `address mod 16` is marked active. |
| Driver.InactiveDevice | lib/uwb_driver/uwb_driver.cpp:34-42 | A null device changes nothing. Otherwise slot `address mod 16` is marked active (1), never cleared, because `set_state` ignores its state. |
| Driver.RangeBeforeCalibration | lib/uwb_driver/uwb_driver.h:25-31 | On a freshly constructed driver, a range with a finite distance is stored raw and calibrates to +0.0. |
| Driver.RestartAfterUpdateKb | lib/uwb_driver/uwb_driver.cpp:108-113 | After `update_kb`, a new driver that runs `read_config` on the same EEPROM holds the updated `ks` and `bs`. |
| SerialInterface.ReadBytesUntil | lib/serial_interface/serial_interface.cpp:42 | `readBytesUntil` returns a prefix of the input of at most 64 bytes, without the terminator. When it stops short of the limit, the input ended or the next byte is the terminator. |
| SerialInterface.CommandBuffer | lib/serial_interface/serial_interface.cpp:41-42 | The buffer stays 64 bytes after `memset` and the read. |
| SerialInterface.CommandOf | lib/serial_interface/serial_interface.cpp:44 | The `CommandFrame` overlaid on the buffer is well-formed for every input. |
| SerialInterface.TelemetryOf | lib/serial_interface/serial_interface.cpp:21-30 | The frame built from the driver state is well-formed. |
| SerialInterface.DataSendStep | lib/serial_interface/serial_interface.cpp:16-33 | After the five writes, the frame (and the bytes sent) are exactly the 128-byte image of a frame that holds the driver's arrays, a zero position and the default header, command and tail. Header and tail survive into the next pass. |
| SerialInterface.DataSendWrites | lib/serial_interface/serial_interface.cpp:24-29 | The five writes, in order, turn a block that holds the default framing into the telemetry image. |
| SerialInterface.CmdParseStep | lib/serial_interface/serial_interface.cpp:36-58 | The buffer holds the bytes read, then zeros, and the count is their number. A non-empty read with command 0x01 updates one slot of `ks`/`bs` and rewrites the EEPROM block. Any other command, and an empty read, changes nothing. |
| Protocol.HostMatchesFirmware | calibration/calibration.py:13-14 | The host's header and tail equal the firmware's defaults, and the command codes agree. The field the host parses for a target is that target's original distance in the telemetry. |
| Protocol.ReadStopsAtTerminator | lib/serial_interface/serial_interface.cpp:42 | When the first terminator lies within the limit, the read returns exactly the bytes before it. |
| Protocol.PositionFrameIsCommandFrame | calibration/calibration.py:16-26 | The host's position frame is the exact memory image of a `CommandFrame`: command 0x02, the selector, x, y, +0.0 and the default tail. |
| Protocol.CalibrationFrameReachesUpdateKb | calibration/calibration.py:52-59 | A calibration frame with no `'\n'` inside k or b is read up to its tail's `'\n'`. The overlay then carries command 0x01, the selected anchor, and k and b as `data[0]` and `data[1]`. |
| Protocol.PositionFrameOverlay | lib/serial_interface/serial_interface.cpp:42-52 | A position frame with no `'\n'` inside x or y is read up to its tail's `'\n'`. The overlay then carries command 0x02, the selected anchor, and x and y as `data[0]` and `data[1]`. |
| Protocol.PositionFrameCommand | lib/serial_interface/serial_interface.cpp:42-50 | Any position frame followed by anything reaches the firmware as command 0x02 for the selected anchor, whatever its payload. |
| Protocol.PositionFrameLeavesDriver | lib/serial_interface/serial_interface.cpp:36-58 | One pass of `cmd_parse_task` over any position frame leaves `ks`, `bs` and the EEPROM as they were. |
| Protocol.NewlineInPayloadTruncates | lib/serial_interface/serial_interface.cpp:42-47 | A `'\n'` byte inside k ends the read early. The firmware then stores a zero-padded, truncated k and a +0.0 b. |
| Protocol.HostParsesTelemetry | calibration/calibration.py:81-104 | The host parsing a firmware frame gets `originalDistances[selector]`, provided no tail pattern starts before the selected field ends. For target 1 the proviso excludes nothing. |

## Left out

- The serial transport is not modelled: the port, baud rate, `flush`, `in_waiting`, timeouts and `read_frame_from_serial`'s buffer loop. A serial read is an input value, so a series of reads is a sequence of `Option` values.
- `int(flag)` parsing of the user's text input is not modelled. The target is an `int` parameter.
- The exception path of `send_calibration_params` is not modelled, because `struct.pack` of a Python float cannot fail in the model (floats are opaque 4-byte values).
- IEEE-754 arithmetic and float-to-bytes conversion are not interpreted. Floats are bytes, and `k * d + b` is a `FloatOps` parameter.
- Not modelled because it is floating-point numerics on the host:
  - `curve_fit`, R²;
  - mean and standard deviation;
  - the true-distance list `1.2 + 0.6·i`.

  `PoolSamples` takes the true distances as a parameter.
- Not modelled because it is user I/O: plotting, the CSV file, `input()`, `main` and `verification_mode`.
- FreeRTOS scheduling, task creation, `vTaskDelayUntil` and the concurrent access of the two tasks and the radio callbacks to the shared driver are not modelled. Each task is one pass, run atomically.
- Not modelled because they are hardware or library calls the model cannot see:
  - the DW1000 library, SPI and `begin_dw1000`;
  - the uwb loop task;
  - `pinMode`;
  - `EEPROM.commit`.

  Pin levels and the EEPROM contents are inputs.
- Out-of-range indices are preconditions, because indexing past the eight slots is undefined behaviour in C. This covers:
  - a short address of 8 or more in `new_range`;
  - a device index of 8..15 in `new_device`/`inactive_device`;
  - an anchor number of 8 or more in a 0x01 command.
- `shortAddr` and `mode` start as 0 and `Anchor` in the constructor. The C constructor leaves them unset until `read_config`.
- The anchor-position update on command 0x02 is not modelled, because in the firmware it is commented out (serial_interface.cpp:51). The 2D solver and the position filter are not part of this model.
- Serial tasks not started: every `SerialInterface` step and every `Protocol` statement models one pass of a task body as if `serial_interface.begin()` had run. The firmware's `setup` does not call it (src/main.cpp:15-17), so as built no telemetry is sent and no command is read. The host's `calibration_mode` then never receives a frame.
- Log output: the LOG_* macros are not modelled. They write ASCII text to the same serial port that carries telemetry (lib/uwb_config/log.h:3-12), called from uwb_driver.cpp:13, 21, 30-31 and 40-41 and serial_interface.cpp:54. The host's header search skips such text between frames, because text never contains the byte 0xFF.
- Calibration.CollectSamples: requires at least 20 successful reads among the attempts given, and PoolSamples requires the same for every distance. The source's inner `while` at calibration.py:160-163 has no bound. With fewer than 20 successful reads, for instance when an anchor is missing and every read times out, it never terminates and `calibration_mode` hangs. That requires clause is where the model excludes the non-terminating case.
- Driver.ZeroParametersCalibrateToZero: is stated only for a finite raw distance and only under the signed-zero laws, because NaN or infinity times zero is NaN.
- Driver.RangeBeforeCalibration: has the same restriction, a finite raw distance only.
- Protocol.HostParsesTelemetry: assumes that no tail pattern starts before the selected field ends. The host searches for the first tail, so distance bytes that happen to contain `00 00 80 7F 00 00 00 0A` in front of the selected field would end the frame early.
- The `Solve_the_location` scripts are not part of this model.

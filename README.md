# PTZ controller: VISCA command encoding with repeat suppression

This project models the camera-head driver of a PTZ person tracker. The
`PTZController` class turns pan/tilt, zoom, home, stop and menu requests into
frames of Sony's VISCA serial protocol and writes them to the camera. It
remembers the last pan/tilt and zoom arguments it acted on and drops a
request that repeats them. The comparison is on the arguments, not on the
bytes sent, so `panTilt(30, 0)` followed by `panTilt(25, 0)` writes the same
speed-24 frame twice. It also formats each frame as a hexadecimal string for the log.

The model has five modules:

- `Wrappers` (wrappers.dfy): the `Option` type that the decoders return.
- `Visca` (visca.dfy): the four commands the controller builds
  (Pan-tiltDrive, CAM_Zoom, Pan-tilt Home and the menu toggle). `Encode` is
  their byte layout, defined once. `Decode` recognises the four frames.
  `WellFramed` is the framing rule: address byte 0x81 first, terminator 0xFF
  last and nowhere else, length 5, 6 or 9.
- `PTZ` (ptz_controller.dfy): the class `Controller`, with the fields
  `connected`, `lastPan`, `lastTilt` and `lastZoom`. The field `sent` stands
  in for the serial port: it holds every frame written, in order. The
  object invariant `Valid()` says four things:
  - every frame written is well framed;
  - the last drive frame written is the one for the remembered pan/tilt pair;
  - while the remembered zoom speed is not 0, the last zoom frame written is
    the one for that speed;
  - a controller whose port did not open has written nothing.

  Each method builds its frame with successive appends, as the source does.
  Its contract gives the whole new state, including whether a frame was sent
  and which one. The functions `SpeedByte`, `PanDir`, `TiltDir` and
  `ZoomCode` state how the integer arguments become speed, direction and zoom
  bytes.
- `HexText` (hex_text.dfy): the text `commandToString` produces. The Qt calls
  `QString::number(b, 16)`, `toUpper`, `rightJustified(2, '0')` and
  `trimmed` are each modelled as a function. `Render` is the intended text:
  two upper-case digits per byte, separated by single blanks. `Parse` reads
  such a text back, and `ParseRender` proves that it returns the original
  bytes.
- `Scenarios` (scenarios.dfy): call sequences on a controller and the exact
  frames they write, proved from the method contracts alone.

The integer parameters are C++ `int`, modelled as the newtype `int32`.
Frames are `seq<bv8>`.

The last scenario shows something the invariant cannot promise for zoom.
`stop()` sets the remembered zoom speed to 0 but sends only the pan/tilt stop
frame. So after `zoom(3); stop();` a `zoom(0)` counts as a repeat and
sends nothing, and the last zoom order the lens received is still 0x23. In
the application `stop()` is called only just before the controller is
destroyed (src/MainWindow.cpp:201-203), so this sequence does not arise
there.

Frames are 5, 6 or 9 bytes long, and an axis that is not moving gets speed
byte 0x00.

## Model

| member | source | states |
|---|---|---|
| `Visca.Encode` | src/PTZController.cpp:43-127 | every valid command encodes to a well-framed frame: 0x81 first, 0xFF last and nowhere else, length 5, 6 or 9 |
| `Visca.Decode` | src/PTZController.cpp:43-127 | a frame the decoder accepts holds a valid command, and encoding that command gives the same frame back |
| `Visca.DecodeEncode` | src/PTZController.cpp:43-127 | decoding the frame of any valid command gives that command back |
| `Visca.EncodeInjective` | src/PTZController.cpp:43-127 | two valid commands with the same frame are the same command |
| `PTZ.SpeedByte` | src/PTZController.cpp:38-39 | the speed byte is the magnitude saturated at the cap: equal to the magnitude up to the cap, the cap beyond it, never above it, and 0 exactly when the argument is 0 |
| `PTZ.PanDir` | src/PTZController.cpp:40 | the pan direction byte is 0x02 iff pan > 0, 0x01 iff pan < 0, 0x03 iff pan = 0 |
| `PTZ.TiltDir` | src/PTZController.cpp:41 | the tilt direction byte is 0x01 iff tilt > 0, 0x02 iff tilt < 0, 0x03 iff tilt = 0 |
| `PTZ.DriveFor` | src/PTZController.cpp:38-52 | the drive command for (pan, tilt) is valid (no byte is 0xFF), with pan speed at most 24 and tilt speed at most 20 |
| `PTZ.ZoomCode` | src/PTZController.cpp:69-77 | the zoom byte lies in 0x21..0x27 for positive speed, 0x31..0x37 for negative and is 0x00 for 0; its high nibble is the direction and its low nibble the speed saturated at 7 |
| `PTZ.AfterSending` | src/PTZController.cpp:133-143 | appending a valid frame keeps the log well framed; the last drive order becomes that command if it is a drive, and the last zoom order becomes its byte if it is a zoom; otherwise both stay as they were |
| `PTZ.LastDriveWithoutDrives` | src/PTZController.cpp:5 | while no drive frame has been written, the head's last drive order is the stop order (the state the zeroed remembered pair stands for) |
| `PTZ.LastDriveIsLastDriveFrame` | src/PTZController.cpp:43-54 | once a drive frame has been written, the head's last drive order is the decode of a written drive frame with no drive frame after it |
| `PTZ.DriveFrameLayout` | src/PTZController.cpp:43-52 | the nine successive appends of panTilt and stop build exactly the encoded drive frame |
| `PTZ.ZoomFrameLayout` | src/PTZController.cpp:63-79 | the six appends of zoom build exactly the encoded zoom frame |
| `PTZ.Controller.constructor` | src/PTZController.cpp:4-21 | the controller starts with nothing sent and the remembered speeds at 0, connected exactly when the port opened; the invariant holds |
| `PTZ.Controller.PanTilt` | src/PTZController.cpp:30-55 | disconnected, or (pan, tilt) equal to the remembered pair: nothing changes and nothing is sent; otherwise exactly the drive frame for (pan, tilt) is sent and the pair becomes (pan, tilt); zoom memory untouched; invariant kept |
| `PTZ.Controller.Zoom` | src/PTZController.cpp:57-81 | disconnected, or speed equal to the remembered zoom speed: nothing changes; otherwise exactly the zoom frame for the speed is sent and it becomes the remembered speed; pan/tilt memory untouched; invariant kept |
| `PTZ.Controller.Home` | src/PTZController.cpp:83-95 | when connected, sends 81 01 06 04 FF; never touches the remembered speeds; invariant kept |
| `PTZ.Controller.Stop` | src/PTZController.cpp:97-116 | when connected, always sends 81 01 06 01 00 00 03 03 FF and resets all three remembered speeds to 0; when disconnected, nothing changes; invariant kept |
| `PTZ.Controller.OpenMenu` | src/PTZController.cpp:118-131 | when connected, sends 81 01 06 06 02 FF; never touches the remembered speeds; invariant kept |
| `PTZ.Controller.SendCommand` | src/PTZController.cpp:133-143 | the frame is appended to the written frames exactly when the port is open; nothing else changes |
| `PTZ.Controller.Dispose` | src/PTZController.cpp:23-28 | the destructor has the effect of a stop |
| `PTZ.Controller.CommandToString` | src/PTZController.cpp:145-151 | the loop of appended byte texts and blanks, then trimmed, yields exactly the rendered text of the frame |
| `HexText.QtHexPair` | src/PTZController.cpp:148 | number(b, 16), then toUpper, then rightJustified(2, '0') of a byte is its two-digit upper-case pair |
| `HexText.HexPairDigits` | src/PTZController.cpp:148 | both characters of a byte's pair are upper-case hex digits, and their value, high digit first, is the byte |
| `HexText.Render` | src/PTZController.cpp:145-151 | the text of n bytes has length 3n-1 for n >= 1 and is empty for n = 0 |
| `HexText.RenderLayout` | src/PTZController.cpp:145-151 | byte i occupies characters 3i and 3i+1 of the text, and character 3i+2 is a blank between consecutive bytes |
| `HexText.RenderEnds` | src/PTZController.cpp:145-151 | a non-empty text starts and ends with a hex digit, so there is no leading or trailing blank |
| `HexText.ParseRender` | src/PTZController.cpp:145-151 | reading the pairs back from the text gives the original bytes |
| `HexText.PaddedStep` | src/PTZController.cpp:147-149 | one more loop iteration appends that byte's pair and a blank |
| `HexText.TrimmedPadded` | src/PTZController.cpp:150 | trimming the accumulated text removes exactly its final blank |
| `Scenarios.IdleDriveAfterConstruction` | src/PTZController.cpp:5 | panTilt(0, 0) straight after construction sends nothing, whether or not the port opened |
| `Scenarios.RepeatedDrive` | src/PTZController.cpp:33-36 | the same panTilt request twice sends its frame once (not at all for (0, 0)) |
| `Scenarios.DisconnectedIsSilent` | src/PTZController.cpp:31 | a controller whose port did not open sends nothing for any of panTilt, zoom, home, stop and openMenu |
| `Scenarios.StopThenIdle` | src/PTZController.cpp:97-116 | after any panTilt and zoom, stop sends the stop frame, and a following panTilt(0, 0) and zoom(0) send nothing |
| `Scenarios.StopTwice` | src/PTZController.cpp:97-116 | stop is never suppressed: two stops send two stop frames |
| `Scenarios.RepeatAfterHome` | src/PTZController.cpp:83-95 | home and openMenu leave the remembered pair alone, so repeating a non-zero drive request after them sends nothing |
| `Scenarios.ZoomAcrossStop` | src/PTZController.cpp:100-102 | after zoom(s) with s != 0, stop and then zoom(0), the frames sent are the zoom frame and the stop frame only, so the lens's last order is still the non-zero zoom byte |

## Left out

- Serial I/O: the port settings, `write`, `flush`, `waitForBytesWritten` and the 30 ms settle delay after each write. A write is modelled as appending the frame to `sent`.
- Opening and closing the port. Whether opening succeeded is the constructor's parameter. `SendCommand` reads "the port is open" as `connected`; the two agree for the whole time the object is alive. Closing the port in the destructor is not modelled.
- The Qt signals `commandSent` and `error`, and the log messages they carry. `CommandToString` is modelled, but the signal that uses its text is not.
- SpeedByte: uses the mathematical absolute value. For `INT_MIN`, C++ `std::abs` is undefined behaviour; the model gives the cap (24, 20 or 7).
- SpeedByte: only accepts caps up to 24. The source uses only the caps 24, 20 and 7.
- HexText.Trimmed: treats only ASCII white space as white space. `QString::trimmed` also strips Unicode spaces; the text it is applied to here holds only hex digits and blanks.
- HexText.ToUpper: changes only ASCII letters. The digits `QString::number` produces are ASCII.
- `LastDrive` and `LastZoomCode` assume that the head and the lens are idle when the controller is constructed. Nothing is known about the camera before the first frame.
- The header (src/PTZController.h:30-31) does not declare the three remembered-speed fields, although the constructor initialises them and the methods use them. They are modelled as fields.
- The rest of the application is not part of this model, for these reasons:
  - the widgets, layout and signal wiring in MainWindow, PTZPanel, VideoWidget and LogPanel, and main;
  - the capture thread and the OpenCV frame pipeline in CaptureEngine, which are concurrency and I/O;
  - the ONNX inference and box conversion in YOLODetector, which use floating point and foreign code;
  - the application contains no tracking, PID or target-selection code, so there is none to model.

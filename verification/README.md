# PiCar remote control: a Dafny model of the protocol and command logic

The repository drives a SunFounder PiCar-X over TCP. The server on the car,
`picar-server.py`, reads newline-terminated `"<action> <command>"` lines and
answers each with a block of lines closed by an `<END>` sentinel line. The
variant `picar_server2.py` instead strips each raw `recv(1024)` chunk, and it
answers each chunk with one message that has neither a newline nor `<END>`
added. A Qt client (`picar_widget.py`)
sends `start`/`stop` commands from buttons. The server dispatches them to
speed, camera pan/tilt, steering, detection-mode and photo handlers.

This project models the sequential core of those three programs as pure
Dafny functions over immutable records, and proves properties about them.
Calls into the car and camera libraries (`Picarx`, `Vilib`) become a list
of `Car.Event`s. Library readings become inputs. Background loops are modelled
as one tick each.

| module | file | models |
|---|---|---|
| `Seqs`, `Wrappers` | `seqs.dfy`, `wrappers.dfy` | sequence helpers (`IndexOf`), `Option` for Python's `None` |
| `Bytes` | `bytes.dfy` | `str.encode()` (UTF-8) and `bytes.decode(errors="ignore")` for ASCII streams |
| `Text` | `text.dfy` | the `str` methods the programs use: `strip`, `split()`, `split(sep)`, `join`, `rstrip(c)`, `lower`, integer formatting |
| `Framing` | `framing.dfy` | `recv_line`, `send_response`, `send_multiline`, `recv_multiline` |
| `Car` | `car.dfy` | `clamp`, one pass of `steering_loop`, the `drive_loop` match table, one pass of `simple_avoidance` |
| `Detection` | `detection.dfy` | the detection modes of `picar_server2.py` and its `get_detection_info` |
| `ServerOne` | `server_one.dfy` | `initialize_camera`, `handle_command`, `toggle_face_detect`, `get_detection_info` and one main-loop turn of `picar-server.py` |
| `ServerTwo` | `server_two.dfy` | `handle_command` of `picar_server2.py` |
| `Widget` | `widget.dfy` | the key/button rules, `_send_command`, `buttonPressed` and `buttonReleased` of `picar_widget.py` |

Modelling choices:
- A connection's incoming side is an `Inbox`. It holds the module-level
  `recv_buffer` plus the chunks successive `recv(1024)` calls return. An
  empty chunk means the peer closed. Running out of listed chunks is also
  read as the close, although the real `recv` would block and wait for more:
  a finite list stands for a connection that ends there.
- The steering angle is counted in half degrees. It moves in 0.5° steps
  from 0.0 toward whole-degree targets, so every value it takes is exact.
- Python `None` results are modelled explicitly:
  - `Read.Cut` when `recv_line` or `recv_multiline` returns `None`;
  - `Handled.response == None` when `picar-server.py`'s `handle_command`
    returns `None` for `start toggle_color`.
- A call that never returns or raises is a separate outcome:
  - `ServerOne.Blocked` is the endless `toggle_color_detect` polling loop;
  - `ServerTwo.Raised` is an exception from `take_photo()`.

Where the code and its own comments or description differ, the model
follows the code:
- `recv_line` applies `rstrip("\r")`, which removes every trailing carriage
  return, not just one.
- `simple_avoidance` brakes on any close positive reading, whatever
  direction the car is driving.
- `drive_loop` drives at a fixed 80, not at the current speed.
- In `picar-server.py`, `start toggle_color` calls the background polling
  function `toggle_color_detect`:
  - when `detection_running` is set, the call never returns;
  - otherwise it returns `None`, and `send_multiline(None)` raises. The
    handler at lines 635-641 then stops the car and closes the connection
    (`ServerOne.Dropped`).
- A QR payload equal to the text `"None"` is reported as `QR: none`.

## Model

| member | source | states |
|---|---|---|
| Bytes.Encode | picar-server.py:125 | `msg.encode()` writes at least one byte per character, and for ASCII text exactly one byte per character with the same code |
| Bytes.Decode | picar-server.py:64 | `decode(errors="ignore")` on the stream gives ASCII text no longer than the bytes |
| Bytes.EncodeAppend | picar-server.py:125 | encoding a concatenation is the concatenation of the encodings, so writes in sequence equal one write of the joined text |
| Bytes.DecodeEncode | picar-server.py:64 | decoding what `encode()` wrote gives back any ASCII text unchanged |
| Bytes.EncodeHasLF | picar-server.py:62 | the encoded text holds a line-feed byte exactly when the text holds '\n' |
| Text.Strip | picar-server.py:608 | `strip()` is empty exactly when the text is all whitespace, and otherwise neither starts nor ends with whitespace |
| Text.StripIsMiddle | picar-server.py:608 | `strip()` is a contiguous piece of the text with only whitespace before and after it, so whitespace inside is kept |
| Text.StripEmpty | picar-server.py:608-610 | the stripped text is empty exactly for all-whitespace input, which is the blank-line test of the main loop |
| Text.Tokens | picar-server.py:614 | every token of `split()` is non-empty and holds no whitespace |
| Text.TokensOfSpaces | picar-server.py:614 | `split()` is empty exactly when the text is all whitespace |
| Text.TokensOfStrip | picar-server.py:608-614 | `strip()` before `split()` does not change the tokens |
| Text.TokensOfPair | picar-server.py:614-621 | two whitespace-free words joined by a space split back into exactly those two words |
| Text.Split | picar-server.py:130 | `split("\n")` gives at least one piece; no piece holds the separator; joining the pieces with it gives the text back |
| Text.SplitJoin | picar-server.py:130 | splitting a join of separator-free parts gives the parts back |
| Text.RStrip | picar-server.py:64 | `rstrip(c)` is a prefix of the text, everything removed is `c`, and the result does not end in `c` |
| Text.Lower | picar-server.py:424-425 | `lower()` keeps the length, turns each ASCII capital into its lower-case letter and keeps every other character |
| Text.LowerOfLower | picar-server.py:424-425 | text without ASCII capitals is its own lower case |
| Text.LowerIdempotent | picar-server.py:424-425 | lower-casing twice is the same as lower-casing once |
| Framing.Fill | picar-server.py:60-71 | the receive loop keeps the pending bytes unchanged, stops once the buffer holds a line feed or the peer closed, and reads nothing when a line is already buffered |
| Framing.FillTakesChunksInOrder | picar-server.py:60-71 | the receive loop takes chunks off the front of the arrivals, in order, and never puts one back |
| Framing.RecvLine | picar-server.py:51-71 | a line is returned exactly when a line feed arrives before the close. It is the decoded bytes before the first line feed, minus trailing CRs. Exactly the bytes after that line feed stay pending. On `None`, all bytes received so far stay buffered |
| Framing.RecvLineTakesChunksInOrder | picar-server.py:51-71 | `recv_line` takes chunks off the front of the arrivals, in order, and never puts one back |
| Framing.RecvLineReadsWire | picar_widget.py:24-50 | for any incoming bytes, a line is returned exactly when the stream holds a complete line. It is the first of the stream's complete lines, the remaining lines follow it, and the bytes after its line feed stay pending |
| Framing.SendResponse | picar-server.py:118-127 | the bytes written always end in a line feed. A message already ending in '\n' is written unchanged, and a message without '\n' gets exactly one appended |
| Framing.EmptyBlock | picar-server.py:129-132 | an empty response goes out as an empty line and the `<END>` line |
| Framing.SendMultiline | picar-server.py:129-132 | one `send_response` per '\n'-piece, then `<END>`, puts `msg + "\n<END>\n"` on the wire |
| Framing.SendEachIsJoin | picar-server.py:130-131 | sending newline-free lines one by one writes their '\n'-join plus a final line feed |
| Framing.RecvLines | picar_widget.py:66-75 | the collected lines never include `<END>` or '\n' and consume input; `None` only at the close |
| Framing.RecvMultiline | picar_widget.py:53-76 | the block returned splits into lines none of which is `<END>`; `None` only at the close |
| Framing.RecvLinesReadsWire | picar_widget.py:66-75 | for any incoming bytes, the loop returns exactly when a complete `<END>` line arrives before the close. It returns exactly the complete lines before the first `<END>`, and the bytes after that line stay pending |
| Framing.RecvMultilineReadsWire | picar_widget.py:53-76 | for any incoming bytes, `recv_multiline` returns `None` unless a complete `<END>` line arrives before the close. Otherwise it returns the complete lines before the first `<END>`, joined with '\n', and the bytes after that line stay pending |
| Framing.RecvLineOfResponse | picar_widget.py:24-50 | `recv_line` on what `send_response(line)` wrote returns the line minus trailing CRs and leaves exactly what followed |
| Framing.RecvLinesAtEnd | picar_widget.py:71-73 | an `<END>` line first ends the block with no lines |
| Framing.RecvLinesOfSent | picar_widget.py:66-75 | the receive loop collects exactly the lines sent one by one before `<END>` and leaves what follows |
| Framing.MultilineRoundTrip | picar_widget.py:53-76 | `recv_multiline` of the bytes `send_multiline(msg)` wrote returns `msg` and leaves what follows, when no line of `msg` is `<END>`, non-ASCII or ends in a CR |
| Car.Clamp | picar-server.py:331-332 | the result lies in `[lo, hi]` when `lo <= hi`, equals `v` when `v` is in range, is the nearer bound otherwise, and is `lo` when the bounds cross |
| Car.ClampIdempotent | picar-server.py:331-332 | clamping twice equals clamping once |
| Car.ClampMonotone | picar-server.py:331-332 | clamping preserves order |
| Car.SteeringTick | picar-server.py:386-391 | one pass moves the angle half a degree toward the target, never past it, keeps the target, and sets the servo to the new angle |
| Car.TicksApproach | picar-server.py:383-392 | after `n` passes the gap has shrunk by `n`, or the angle sits on the target; it never overshoots |
| Car.TurnFromCentre | picar-server.py:386-389 | from the centre a target of `t` half degrees is reached in exactly `|t|` passes and not before |
| Car.DriveTable | picar-server.py:397-415 | `start left/right` set the target to minus/plus the turn angle and `stop left/right` set it to 0. `start forward/backward` drive at 80 and `stop forward/backward` call `forward(0)`. Any other text changes nothing |
| Car.AvoidanceTick | picar-server.py:365-375 | a pass brakes with `forward(0)` exactly when a reading is present, positive and at most 20; otherwise it makes no drive call |
| Car.AvoidanceCloser | picar-server.py:371-375 | a reading that brakes still brakes as the obstacle gets closer |
| Detection.FaceAndQrOff | picar_server2.py:153-159 | the preamble switches face and QR detection off, keeps colour and index, and emits a switch-off call only for a mode that was on |
| Detection.ToggleFace | picar_server2.py:86-106 | face detection is flipped and colour and QR are off. The modes end exclusive and the message reports the new state. The calls are colour close and QR off (each only if on), then the face switch |
| Detection.ToggleFaceTwice | picar_server2.py:100-104 | two face toggles restore the face flag and leave only it possibly on |
| Detection.ToggleColor | picar_server2.py:109-144 | from off, colour 0 is selected. From on, the index advances mod 6 and wrapping to 0 turns colour off. The index stays in 0..5 and the modes stay exclusive. Message and library calls match the new state |
| Detection.ColorCycleSelects | picar_server2.py:123-141 | from colour off, toggles 1 to 6 select colours 0 to 5 in turn |
| Detection.ColorCycleReturns | picar_server2.py:123-141 | seven toggles from colour off turn colour detection off again at index 0 |
| Detection.ColorAt | picar_server2.py:167 | `color_list[i]` exists exactly for `-6 <= i < 6`, and negative indices count from the end |
| Detection.SetColor | picar_server2.py:147-173 | 0 turns colour off; 1..6 select colour `n - 1` with its name. `IndexError` occurs exactly for `n > 6` or `n < -5`, after face and QR are off and the index is stored. Every applied result is exclusive |
| Detection.ChangesAreExclusive | picar_server2.py:86-173 | after any toggle or colour selection, including the failing one, at most one mode is on |
| Detection.QrPart | picar_server2.py:198-203 | the QR part reports the payload unless it is missing, empty or the text "None" |
| Detection.InfoParts | picar_server2.py:178-203 | one part per mode that is on: the face part first, then the colour part, the QR part last |
| Detection.DetectionInfo | picar_server2.py:176-208 | "No detection mode active" exactly when no mode is on. Otherwise the report starts with the part of the first mode on and ends with the part of the last, in face, colour, QR order; one mode on gives exactly its part |
| Detection.DetectionInfoPairs | picar_server2.py:176-208 | with exactly two modes on, the report is their two parts, in face, colour, QR order, joined by a spaced vertical bar |
| Detection.DetectionInfoSingle | picar_server2.py:176-208 | with the modes exclusive, the report is exactly the active mode's part |
| Detection.DetectionInfoAll | picar_server2.py:176-208 | with all modes on, the report is the face, colour and QR parts joined by a spaced vertical bar |
| ServerOne.InitialValid | picar-server.py:38-44 | the start-up values satisfy the speed, camera and steering limits |
| ServerOne.InitializeCamera | picar-server.py:79-106 | a camera not yet started whose start succeeds becomes started, with detection running. The calls are the camera start, face detection on, and the colour thread unless detection already ran. A started camera, or a failed start, changes nothing and makes no call |
| ServerOne.InitializeCameraOnce | picar-server.py:79-82 | once the camera is started, a second call changes nothing and makes no call |
| ServerOne.Boot | picar-server.py:548-558 | after start-up the camera and the colour loop run exactly when the camera started; every other global keeps its initial value, within the limits |
| ServerOne.ToggleFace | picar-server.py:179-189 | the face flag is flipped, nothing else changes, the message names the new state, and the library is told the new state |
| ServerOne.ToggleFaceTwice | picar-server.py:183 | two face toggles restore the state |
| ServerOne.FaceReportShape | picar-server.py:290-302 | the face part starts "Faces: " and is "Faces: OFF" exactly when face detection is off |
| ServerOne.ColorReportShape | picar-server.py:304-315 | the colour part is "Color: OFF" exactly when detection is not running, and it names the current colour when one is detected and the index is on the list |
| ServerOne.DetectionInfoShape | picar-server.py:286-317 | the report is the face part, a spaced vertical bar, then the colour part. It starts "Faces: OFF \| " exactly when face detection is off, and is "Faces: OFF \| Color: OFF" exactly when neither face detection nor the colour loop runs |
| ServerOne.Move | picar-server.py:430-471 | a speed or camera command on start answers with text, never quits, and changes only speed, pan or tilt, within the limits |
| ServerOne.Answer | picar-server.py:474-510 | the face toggle, the detection report, help and quit answer with text; only quit and q quit, and only the face flag can change. What each branch answers is stated by `ToggleFaceCommand`, `ShowDetectCommand`, `HelpCommand` and `QuitCommands` |
| ServerOne.Start | picar-server.py:430-510 | on start, a command blocks exactly when it is `toggle_color` while detection runs; `take_photo` first runs `initialize_camera`, then reports the path. The per-command lemmas below state every other branch exactly |
| ServerOne.StartAnswers | picar-server.py:474-510 | on start, only `toggle_color` returns `None`, and only `quit` and `q` quit |
| ServerOne.StartKeeps | picar-server.py:430-510 | on start, no command but `take_photo` starts the camera or the detection loop, and none moves the steering or the colour index |
| ServerOne.StartKeepsValid | picar-server.py:430-510 | every command on start keeps speed, pan and tilt within their limits |
| ServerOne.HandleCommand | picar-server.py:420-514 | `start toggle_color` blocks exactly while detection runs and otherwise returns `None`. Quit is `start quit` or `start q` only. Any non-start action changes no state and makes no call. An unknown command answers "" and changes nothing. `start take_photo` runs `initialize_camera` and reports the photo path; no other command starts the camera or detection. Steering and the colour index are never touched, and the limits are kept. The exact result of each known command on start and stop is stated by the per-command lemmas from `SpeedIncrease` to `QuitCommands` |
| ServerOne.CaseInsensitive | picar-server.py:424-425 | the result depends only on the lower-cased action and command |
| ServerOne.StartCommand | picar-server.py:430-510 | a known command sent with `start` runs its own branch |
| ServerOne.StopCommand | picar-server.py:430-510 | a known command sent with `stop` changes nothing, makes no call, and gets its stop answer |
| ServerOne.SpeedCommands | picar-server.py:430-438 | `start speed_increase` and `start speed_decrease` move the speed by 10 within 0..100 and report it; on stop both answer "" and change nothing |
| ServerOne.SpeedIncrease | picar-server.py:430-433 | `start speed_increase` raises the speed by 10, at most 100, and reports it; `stop speed_increase` answers "" and changes nothing |
| ServerOne.SpeedDecrease | picar-server.py:435-438 | `start speed_decrease` lowers the speed by 10, at least 0, and reports it; `stop speed_decrease` answers "" and changes nothing |
| ServerOne.CameraCommands | picar-server.py:441-471 | each of the four `start cam_*` commands moves tilt or pan by 5 within -35..35, sets the servo and reports the angle; each on stop answers "(no change)" with the current angle |
| ServerOne.CamUp | picar-server.py:441-447 | `start cam_up` raises the tilt by 5, at most 35, and sets the tilt servo; on stop it reports the unchanged tilt |
| ServerOne.CamDown | picar-server.py:449-455 | `start cam_down` lowers the tilt by 5, at least -35, and sets the tilt servo; on stop it reports the unchanged tilt |
| ServerOne.CamLeft | picar-server.py:457-463 | `start cam_left` lowers the pan by 5, at least -35, and sets the pan servo; on stop it reports the unchanged pan |
| ServerOne.CamRight | picar-server.py:465-471 | `start cam_right` raises the pan by 5, at most 35, and sets the pan servo; on stop it reports the unchanged pan |
| ServerOne.ToggleFaceCommand | picar-server.py:474-476 | `start toggle_face` is exactly `toggle_face_detect()`'s new state, message and switch call; `stop toggle_face` answers "" |
| ServerOne.ToggleColorCommand | picar-server.py:478-480 | `start toggle_color` never returns while detection runs and otherwise answers `None`; `stop toggle_color` answers "" |
| ServerOne.TakePhotoCommand | picar-server.py:482-485 | `start take_photo` is the camera start followed by the photo report; `stop take_photo` answers "" |
| ServerOne.ShowDetectCommand | picar-server.py:487-489 | `start show_detect` answers exactly the detection report and changes nothing; `stop show_detect` answers "" |
| ServerOne.HelpCommand | picar-server.py:491-502 | `start help` answers exactly the key table and changes nothing; `stop help` answers "" |
| ServerOne.QuitCommands | picar-server.py:505-510 | `start quit` and `start q` answer "Shutting down..." and quit; `stop quit` answers "Quit ignored on stop" |
| ServerOne.PhotoStartsCamera | picar-server.py:478-485 | after a failed start-up `start toggle_color` returns `None`; `start take_photo` then starts the camera, face detection and the colour thread, and from then on `start toggle_color` never returns |
| ServerOne.TurnLeftSettles | picar-server.py:383-409 | after `start left` from the centre the wheels reach 30 degrees left in exactly 60 passes and stay there |
| ServerOne.SteeringKeepsValid | picar-server.py:386-391 | a steering pass keeps the angle within the turn limits |
| ServerOne.PreParse | picar-server.py:608-621 | a line is skipped exactly when it is all whitespace. It is malformed exactly when it has fewer than two tokens, and the reply quotes the stripped text. Otherwise action and command are its first two tokens and the drive text is the stripped line |
| ServerOne.RunCommand | picar-server.py:623-641 | a handled command with a response writes the `send_multiline` of it, after the drive table ran on the handler's state, with the handler's events followed by the drive events; a `None` response drops the connection with those events and then the car's stop. A blocked handler hangs the turn. Quitting needs action "start", and the limits are kept |
| ServerOne.RunCommandOutcome | picar-server.py:623-641 | the turn hangs exactly on `start toggle_color` while detection runs. It is dropped exactly on `start toggle_color` otherwise, where `send_multiline(None)` raises, and then the events end with the car's stop. Every other command is answered |
| ServerOne.ProcessLine | picar-server.py:604-625 | blank lines are skipped and nothing else is. A malformed line gets one `send_response` and no state change or call. Quitting needs a well-formed `start` command. The limits are kept |
| ServerOne.ProcessCommandLine | picar-server.py:608-625 | a well-formed line runs the command on its first two words and the drive table on the whole stripped line |
| ServerOne.PreParseTwoWords | picar-server.py:608-621 | two whitespace-free words joined by a space pre-parse to those words, with the line itself as the drive text |
| ServerOne.UnknownCommandRuns | picar-server.py:623-625 | a command that is no command is answered with an empty block, and the drive table alone acts on the text |
| ServerOne.UnknownCommandLine | picar-server.py:608-625 | a line of two lower-case words whose second is no command is answered with an empty block; only the drive table acts on it |
| ServerOne.StartForward | picar-server.py:397-401 | the line `start forward` drives forward at 80, changes nothing else and is answered by the bytes "\n<END>\n" |
| ServerOne.StopForward | picar-server.py:408-409 | the line `stop forward` calls `forward(0)`, changes nothing else and is answered by the bytes "\n<END>\n" |
| ServerOne.DriveForward | picar-server.py:397-409 | the line `start forward` drives forward at 80 and `stop forward` stops, each answered by the bytes "\n<END>\n" |
| ServerTwo.InitialValid | picar_server2.py:16-32 | the start-up values satisfy the limits, and the detection modes start exclusive |
| ServerTwo.Move | picar_server2.py:299-344 | a speed or camera command on start answers, never quits, changes only speed, pan or tilt, and keeps the limits |
| ServerTwo.Answer | picar_server2.py:347-389 | a detection, photo, help or quit command on start raises exactly when the photo fails, quits exactly for quit and q, changes only the detection modes, and keeps them exclusive |
| ServerTwo.Start | picar_server2.py:299-392 | on start, only a failing `take_photo` raises and only quit/q quit. Steering is untouched and the limits and mode exclusivity are kept. Each branch's exact answer is stated by `StartMoves`, `StartToggles`, `StartDetect`, `StartHelp` and `StartPhoto` |
| ServerTwo.HandleCommand | picar_server2.py:248-395 | only `start take_photo` with a failing camera raises, and quit is `start quit`/`start q`. An unknown command answers "Unknown command: action=…, command=…" and changes nothing. A known command under another action gets its stop reply and changes nothing. Steering untouched; limits and exclusivity kept. The exact start and stop results per command are in `StartMoves`, `StartToggles`, `StartDetect`, `StartHelp`, `StartPhoto` and `StopIgnored` |
| ServerTwo.CaseInsensitive | picar_server2.py:252-253 | the result depends only on the lower-cased action and command |
| ServerTwo.OnStart | picar_server2.py:252-253 | a known command sent with an action that lower-cases to "start" runs its start branch |
| ServerTwo.StopReplies | picar_server2.py:303-381 | the stop replies of the one-shot commands are "... ignored on stop", and of the speed commands "Speed unchanged (n)" |
| ServerTwo.StopIgnored | picar_server2.py:303-370 | on a non-start action the one-shot commands answer "... ignored on stop" and both speed commands "Speed unchanged (n)", with nothing changed |
| ServerTwo.StartDispatch | picar_server2.py:299-392 | on start, the six speed and camera commands take the move branches and all others the answer branches |
| ServerTwo.SpeedMoves | picar_server2.py:299-309 | the speed commands move the speed by 10 within 0..100 and report the new value |
| ServerTwo.TiltMoves | picar_server2.py:314-326 | `cam_up` and `cam_down` move the tilt by 5 within -35..35, set the tilt servo and report the angle |
| ServerTwo.PanMoves | picar_server2.py:330-342 | `cam_left` and `cam_right` move the pan by 5 within -35..35, set the pan servo and report the angle |
| ServerTwo.StartMoves | picar_server2.py:299-344 | on start each speed command moves the speed by 10 within 0..100, and each of the four camera commands moves tilt or pan by 5 within -35..35 with the servo call; the new value is reported |
| ServerTwo.Toggles | picar_server2.py:347-355 | `toggle_face` and `toggle_color` answer and act exactly as `toggle_face_detect()` and `toggle_color_detect()` |
| ServerTwo.StartToggles | picar_server2.py:347-357 | on start, `toggle_face` and `toggle_color` set the modes, message and library calls of `toggle_face_detect()` and `toggle_color_detect()`, and nothing else changes |
| ServerTwo.Reports | picar_server2.py:366-379 | `show_detect` answers `get_detection_info()` and `help` the comma-separated command list, changing nothing |
| ServerTwo.PhotoSaved | picar_server2.py:359-362 | a saved photo is answered with "Photo saved: " and its path, changing nothing |
| ServerTwo.StartDetect | picar_server2.py:366-370 | on start, `show_detect` answers exactly `get_detection_info()` for the current modes and readings, and nothing changes |
| ServerTwo.StartHelp | picar_server2.py:372-379 | on start, `help` answers exactly the comma-separated command list, and nothing changes |
| ServerTwo.StartPhoto | picar_server2.py:359-362 | on start, a photo that was saved is answered with "Photo saved: " and its path, and nothing changes |
| ServerTwo.MovementIsUnknown | picar_server2.py:391-392 | forward, backward, left and right are unknown to `handle_command` and change nothing |
| ServerTwo.ColorToggleFromStart | picar_server2.py:135-141 | the first colour toggle after start-up selects red |
| ServerTwo.TurnRightSettles | picar_server2.py:216-240 | after `start right` from the centre the wheels reach 35 degrees right in exactly 70 passes and stay there |
| ServerTwo.DrivingKeepsValid | picar_server2.py:216-246 | the drive table and a steering pass keep the steering within the turn limits |
| Widget.Canonical | picar_widget.py:189 | letters are upper-cased, other characters kept |
| Widget.ButtonKeys | picar_widget.py:187-193 | every button key has a command, and every character whose canonical key has a command gets a button |
| Widget.Buttons | picar_widget.py:187-193 | the buttons built from `available_keys` are exactly the keys of `key_to_command` |
| Widget.SkippedKeys | picar_widget.py:85-102 | `x`, `+`, `_`, `r` and `q` have no command, so they get no button |
| Widget.KeyKinds | picar_widget.py:88-125 | continuous and toggle keys are disjoint and together are exactly the mapped keys |
| Widget.CommandBytes | picar_widget.py:297-304 | nothing is sent for an unmapped key, and `"<action> <command>\n"` as UTF-8 otherwise |
| Widget.SendCommand | picar_widget.py:285-307 | an unmapped key sends and reads nothing. A mapped one writes the command bytes, and the reply is a block exactly when a complete `<END>` line arrives: the complete lines before it joined by '\n', with the bytes after it pending |
| Widget.CommandExchange | picar_widget.py:297-307 | when the server answered with `send_multiline(msg)`, the widget sends `"<action> <command>\n"` and gets `msg` back, with the bytes after the block pending |
| Widget.Pressed | picar_widget.py:321-335 | a press sends `start` exactly for a continuous key, and nothing otherwise |
| Widget.Released | picar_widget.py:338-355 | a release sends `stop` for a continuous key, `start` for a toggle key, and nothing otherwise |
| Widget.PressThenRelease | picar_widget.py:321-355 | press and release give start then stop for a continuous key and a single start for a toggle key; every request has a command |
| Widget.CommandsAreWords | picar_widget.py:88-102 | both actions and every command name are non-empty ASCII words without whitespace |
| Widget.CommandLine | picar-server.py:608-621 | the line `"<action> <command>"` passes `rstrip("\r")` and `strip()` unchanged and splits back into the two words |
| Widget.LineBytes | picar_widget.py:303-304 | writing the line with its own "\n" puts the same bytes on the wire as `send_response` would |
| Widget.ServerReadsCommand | picar_widget.py:297-304 | for any two protocol words, the server's `recv_line` reads the bytes of `"<action> <command>\n"` back as one line and leaves what follows. The pre-parse gives back the two words, with that line as the drive text |
| Widget.ServerReadsKey | picar_widget.py:297-304 | for every mapped key and both actions, the server's `recv_line` reads what the widget sent as one line, leaves what follows, and pre-parses it to that action and the key's command |

## Left out

- Sockets, `accept`, threads, `sleep` and the `while running` loops: each
  loop is one tick or one turn, and the byte streams are parameters.
- The welcome message and the per-connection buffer reset in `main()`.
- The `quit` shutdown path (`cleanup()`, `sys.exit`): it is only the `quit`
  flag of the result.
- `send_response` checks that `connection_socket` is set and swallows send
  errors; the model always writes.
- Calls into `Picarx` and `Vilib` are recorded as events, never executed.
  Their readings (detection counts and coordinates, the ultrasonic
  distance) are inputs.
- `initialize_camera` inside the `picar_server2.py` mode functions is
  omitted.
- ServerOne.InitializeCamera: a failed start is modelled as failing before
  any call. An exception raised after `camera_start` or `display` already
  ran, or inside `face_detect_switch` or the thread start, would leave
  partial effects that the model does not record.
- `take_photo` (filesystem and clock) is an input: the text it returns in
  `picar-server.py`, and a path or a failure in `picar_server2.py`. The
  model leaves out `cleanup` and `get_ip_address` (subprocess) entirely.
- `picar_server2.py`'s `main`, `send_response` and `drive_loop` reading
  from the socket: only the match table is modelled, shared with
  `picar-server.py` through `Car.DriveTable`.
- The background `toggle_color_detect` thread of `picar-server.py`: it
  writes `current_color_idx`, which the model treats as an input state field.
- Printing of responses by both programs and the widget: console output only.
- Car.AvoidanceTick: the `float()` conversion is not modelled. Failed reads,
  a missing car and unconvertible readings all arrive as `None`.
- Bytes.Decode: bytes at or above 0x80 are dropped rather than decoded as
  UTF-8, so the round-trip lemmas are stated for ASCII text only.
- Text.Lower: only ASCII letters are lower-cased, and `Widget.Canonical`
  only upper-cases ASCII letters. `isspace` covers Python's whitespace set.
- `picar_server2.py` reads `detect_obj_parameter[...]` without a default.
  A missing key would raise `KeyError`; the model assumes all keys exist.
- The Qt layout, labels, styles, keyboard events and auto-repeat handling
  of `picar_widget.py`. The widget's `recv_line` is the same code as the
  server's, so `Framing.RecvLine` stands for both.
- `picar-client.py` (a terminal loop) and `picar-widget.py` (an incomplete
  skeleton) have no logic beyond that.

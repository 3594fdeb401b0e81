/** The command side of `picar-server.py`: `handle_command`, the
    `drive_loop` match table, `toggle_face_detect`, `get_detection_info` and
    one turn of the main loop, from a received line to the bytes written
    back. */
module ServerOne {
  import opened Wrappers
  import opened Seqs
  import opened Bytes
  import opened Text
  import opened Framing
  import opened Car
  import Detection

  /** `drive_loop` turns to 30 degrees: 60 half degrees. */
  const TurnTarget := 60

  /** The globals of `picar-server.py` that a command reads or writes.
      `cameraStarted` and `detectionRunning` are set when the camera starts,
      at start-up or later from `take_photo`; `colorIndex` is written only by
      the colour-cycling thread. */
  datatype Server = Server(
    speed: int,
    pan: int,
    tilt: int,
    steering: Steering,
    faceOn: bool,
    cameraStarted: bool,
    detectionRunning: bool,
    colorIndex: nat)

  /** The values the globals start with. */
  const Initial := Server(InitialSpeed, 0, 0, InitialSteering, true, false, false, 0)

  /** Speed, pan and tilt within their limits; the steering target one of
      the three the drive table sets, and the angle between the extremes. */
  predicate Valid(s: Server) {
    && MinSpeed <= s.speed <= MaxSpeed
    && -CamLimit <= s.pan <= CamLimit
    && -CamLimit <= s.tilt <= CamLimit
    && (s.steering.target == -TurnTarget || s.steering.target == 0 || s.steering.target == TurnTarget)
    && -TurnTarget <= s.steering.current <= TurnTarget
  }

  lemma InitialValid()
    ensures Valid(Initial)
  {
  }

  /** `initialize_camera()` when `camera_start` and `display` succeed
      (`ok`) or raise. A camera already started is left alone. Starting it
      switches face detection on in the library and starts the colour thread
      unless detection already runs. A failed start changes nothing. */
  function InitializeCamera(s: Server, ok: bool): (r: (Server, seq<Event>))
    ensures r.0.cameraStarted <==> s.cameraStarted || ok
    ensures r.0.detectionRunning <==> s.detectionRunning || (!s.cameraStarted && ok)
    ensures r.0 == s.(cameraStarted := r.0.cameraStarted, detectionRunning := r.0.detectionRunning)
    ensures r.1 != [] <==> !s.cameraStarted && ok
    ensures r.1 != [] ==> [CameraOn, FaceSwitch(true)] <= r.1
    ensures ColorThread in r.1 <==> !s.cameraStarted && ok && !s.detectionRunning
  {
    if s.cameraStarted || !ok then (s, [])
    else
      var thread := if s.detectionRunning then [] else [ColorThread];
      (s.(cameraStarted := true, detectionRunning := true), [CameraOn, FaceSwitch(true)] + thread)
  }

  /** A started camera is not started again. */
  lemma InitializeCameraOnce(s: Server, ok: bool, again: bool)
    ensures InitializeCamera(s, ok).0.cameraStarted ==>
      InitializeCamera(InitializeCamera(s, ok).0, again) == (InitializeCamera(s, ok).0, [])
  {
  }

  /** `main()` up to the camera: the globals after the start-up call to
      `initialize_camera`. */
  function Boot(ok: bool): (s: Server)
    ensures Valid(s)
    ensures s.cameraStarted == ok && s.detectionRunning == ok
    ensures s == Initial.(cameraStarted := ok, detectionRunning := ok)
  {
    InitializeCamera(Initial, ok).0
  }

  /** What `handle_command` cannot see: the camera library's readings, the
      text `take_photo()` returns (a path or an error message), and whether
      the camera would start if `take_photo` tried it. */
  datatype Env = Env(readings: Detection.Readings, photo: string, cameraStarts: bool)

  /** The result of `handle_command`. `response` is `None` when the function
      returned Python `None`; `Blocked` when it never returns. */
  datatype Handled =
    | Handled(state: Server, response: Option<string>, quit: bool, events: seq<Event>)
    | Blocked

  /** The command names `handle_command` has a branch for. */
  const Commands: seq<string> := [
    "speed_increase", "speed_decrease", "cam_up", "cam_down", "cam_left", "cam_right",
    "toggle_face", "toggle_color", "take_photo", "show_detect", "help", "quit", "q"]

  /** The lines of the `help` answer: a blank first line, the key table
      indented by twelve spaces, and a last line of only the indent. */
  const HelpLines: seq<string> := [
    "",
    "            MOVEMENT              CAMERA HEAD",
    "            w : Forward           i : Tilt up",
    "            s : Backward          k : Tilt down",
    "            a : Turn left         j : Pan left",
    "            d : Turn right        l : Pan right",
    "            UTILITY",
    "            p : Take photo        n : Show detection info",
    "            q : Quit",
    "            "]

  /** The lines joined by newlines; the blank first line joins as the
      leading newline. */
  function HelpText(): string {
    "\n" + Join(HelpLines[1..], "\n")
  }

  /** `toggle_face_detect()`: flips `face_detection_on`, tells the camera
      library, and reports the new state. */
  function ToggleFace(s: Server): (r: (Server, string, seq<Event>))
    ensures r.0 == s.(faceOn := !s.faceOn)
    ensures r.1 == "Face detection: " + (if r.0.faceOn then "ON" else "OFF")
    ensures r.2 == [FaceSwitch(r.0.faceOn)]
  {
    var on := !s.faceOn;
    (s.(faceOn := on), "Face detection: " + (if on then "ON" else "OFF"), [FaceSwitch(on)])
  }

  /** Two face toggles restore the state. */
  lemma ToggleFaceTwice(s: Server)
    ensures ToggleFace(ToggleFace(s).0).0 == s
  {
  }

  /** The face half of `get_detection_info()`. */
  function FaceReport(s: Server, rd: Detection.Readings): string {
    if s.faceOn then
      if rd.humanN > 0 then
        "Faces: " + IntToString(rd.humanN) + " at (" + IntToString(rd.humanX) + "," + IntToString(rd.humanY)
        + ") size:" + IntToString(rd.humanW) + "x" + IntToString(rd.humanH)
      else "Faces: none"
    else "Faces: OFF"
  }

  /** The face half always starts "Faces: ", and is "Faces: OFF" exactly
      when face detection is off; the eighth character tells the two apart. */
  lemma FaceReportShape(s: Server, rd: Detection.Readings)
    ensures "Faces: " <= FaceReport(s, rd)
    ensures FaceReport(s, rd) == "Faces: OFF" <==> !s.faceOn
    ensures |FaceReport(s, rd)| > 7 && (FaceReport(s, rd)[7] == 'O' <==> !s.faceOn)
  {
  }

  /** The colour half of `get_detection_info()`: the colour the cycling
      thread is on, or "unknown" for an index past the list. */
  function ColorReport(s: Server, rd: Detection.Readings): string {
    if s.detectionRunning then
      if rd.colorN > 0 then
        var name := if s.colorIndex < |Detection.Colors| then Detection.Colors[s.colorIndex] else "unknown";
        "Color(" + name + "): at (" + IntToString(rd.colorX) + "," + IntToString(rd.colorY) + ")"
      else "Color: none"
    else "Color: OFF"
  }

  /** The colour half starts "Color", is "Color: OFF" exactly when the
      colour loop is not running, and names the current colour when one is
      seen. */
  lemma ColorReportShape(s: Server, rd: Detection.Readings)
    ensures "Color" <= ColorReport(s, rd)
    ensures ColorReport(s, rd) == "Color: OFF" <==> !s.detectionRunning
    ensures s.detectionRunning && rd.colorN > 0 && s.colorIndex < |Detection.Colors| ==>
      "Color(" + Detection.Colors[s.colorIndex] + ")" <= ColorReport(s, rd)
  {
  }

  /** `get_detection_info()`: always both halves, face first. */
  function DetectionInfo(s: Server, rd: Detection.Readings): string {
    FaceReport(s, rd) + " | " + ColorReport(s, rd)
  }

  /** The report is the face half, then " | " and the colour half. It
      starts "Faces: OFF | " exactly when face detection is off, and is all
      OFF exactly when neither face detection nor the colour loop runs. */
  lemma DetectionInfoShape(s: Server, rd: Detection.Readings)
    ensures FaceReport(s, rd) <= DetectionInfo(s, rd)
    ensures DetectionInfo(s, rd)[|FaceReport(s, rd)|..] == " | " + ColorReport(s, rd)
    ensures "Faces: OFF | " <= DetectionInfo(s, rd) <==> !s.faceOn
    ensures DetectionInfo(s, rd) == "Faces: OFF | Color: OFF" <==> !s.faceOn && !s.detectionRunning
  {
    var face := FaceReport(s, rd);
    var color := ColorReport(s, rd);
    FaceReportShape(s, rd);
    ColorReportShape(s, rd);
    assert DetectionInfo(s, rd) == face + (" | " + color);
    AppendPrefix(face, " | " + color);
    OffReport(face, color);
  }

  /** The joined report reads as both halves OFF exactly when each is. */
  lemma OffReport(face: string, color: string)
    requires |face| > 7 && (face[7] == 'O' <==> face == "Faces: OFF")
    ensures "Faces: OFF | " <= face + " | " + color <==> face == "Faces: OFF"
    ensures face + " | " + color == "Faces: OFF | Color: OFF" <==> face == "Faces: OFF" && color == "Color: OFF"
  {
    var r := face + " | " + color;
    assert r[7] == face[7];
    if face == "Faces: OFF" {
      assert r == "Faces: OFF | " + color;
      assert r[13..] == color;
    }
  }

  /** The `take_photo` branch: `take_photo()` first tries to start the
      camera, then reports the path it returns. */
  function TakePhoto(s: Server, env: Env): Handled {
    var (s1, ev) := InitializeCamera(s, env.cameraStarts);
    Handled(s1, Some("Photo saved: " + env.photo), false, ev)
  }

  /** The speed and camera branches of `handle_command` on "start": one
      step within the limits, reported, and the camera servos set. */
  function Move(s: Server, c: string): (r: Handled)
    requires c in ["speed_increase", "speed_decrease", "cam_up", "cam_down", "cam_left", "cam_right"]
    ensures r.Handled? && r.response.Some? && !r.quit
    ensures r.state == s.(speed := r.state.speed, pan := r.state.pan, tilt := r.state.tilt)
    ensures Valid(s) ==> Valid(r.state)
  {
    if c == "speed_increase" then
      var v := Clamp(s.speed + SpeedStep, MinSpeed, MaxSpeed);
      Handled(s.(speed := v), Some("Speed increased to " + IntToString(v)), false, [])
    else if c == "speed_decrease" then
      var v := Clamp(s.speed - SpeedStep, MinSpeed, MaxSpeed);
      Handled(s.(speed := v), Some("Speed decreased to " + IntToString(v)), false, [])
    else if c == "cam_up" then
      var v := Clamp(s.tilt + CamStep, -CamLimit, CamLimit);
      Handled(s.(tilt := v), Some("Tilt: " + IntToString(v)), false, [CamTilt(v)])
    else if c == "cam_down" then
      var v := Clamp(s.tilt - CamStep, -CamLimit, CamLimit);
      Handled(s.(tilt := v), Some("Tilt: " + IntToString(v)), false, [CamTilt(v)])
    else if c == "cam_left" then
      var v := Clamp(s.pan - CamStep, -CamLimit, CamLimit);
      Handled(s.(pan := v), Some("Pan: " + IntToString(v)), false, [CamPan(v)])
    else
      var v := Clamp(s.pan + CamStep, -CamLimit, CamLimit);
      Handled(s.(pan := v), Some("Pan: " + IntToString(v)), false, [CamPan(v)])
  }

  /** The branches of `handle_command` on "start" that only answer: the
      face toggle, the detection report, the help text and quit. Only the
      face toggle changes a global. */
  function Answer(s: Server, env: Env, c: string): (r: Handled)
    requires c in ["toggle_face", "show_detect", "help", "quit", "q"]
    ensures r.Handled? && r.response.Some?
    ensures r.quit <==> c == "quit" || c == "q"
    ensures r.state == s.(faceOn := r.state.faceOn)
  {
    if c == "toggle_face" then
      var (s1, msg, ev) := ToggleFace(s);
      Handled(s1, Some(msg), false, ev)
    else if c == "show_detect" then Handled(s, Some(DetectionInfo(s, env.readings)), false, [])
    else if c == "help" then Handled(s, Some(HelpText()), false, [])
    else Handled(s, Some("Shutting down..."), true, [])
  }

  /** The branches of `handle_command` on "start": one branch per known
      command, and an empty answer for any other word. */
  function Start(s: Server, env: Env, c: string): (r: Handled)
    ensures r.Blocked? <==> c == "toggle_color" && s.detectionRunning
    ensures c == "take_photo" ==> r == TakePhoto(s, env)
  {
    if c in ["speed_increase", "speed_decrease", "cam_up", "cam_down", "cam_left", "cam_right"] then Move(s, c)
    else if c == "toggle_color" then
      if s.detectionRunning then Blocked else Handled(s, None, false, [])
    else if c == "take_photo" then TakePhoto(s, env)
    else if c in ["toggle_face", "show_detect", "help", "quit", "q"] then Answer(s, env, c)
    else Handled(s, Some(""), false, [])
  }

  /** Only `toggle_color` answers `None`; only `quit` and `q` end the
      session. */
  lemma StartAnswers(s: Server, env: Env, c: string)
    ensures Start(s, env, c).Handled? ==> (Start(s, env, c).response.None? <==> c == "toggle_color")
    ensures Start(s, env, c).Handled? ==> (Start(s, env, c).quit <==> c == "quit" || c == "q")
  {
  }

  /** Only `take_photo` starts the camera; no command on "start" moves the
      steering or the colour index. */
  lemma StartKeeps(s: Server, env: Env, c: string)
    ensures Start(s, env, c).Handled? && c != "take_photo" ==>
      Start(s, env, c).state.cameraStarted == s.cameraStarted && Start(s, env, c).state.detectionRunning == s.detectionRunning
    ensures Start(s, env, c).Handled? ==>
      Start(s, env, c).state.steering == s.steering && Start(s, env, c).state.colorIndex == s.colorIndex
  {
  }

  /** Every command on "start" keeps speed, pan and tilt within limits. */
  lemma StartKeepsValid(s: Server, env: Env, c: string)
    ensures Start(s, env, c).Handled? && Valid(s) ==> Valid(Start(s, env, c).state)
  {
  }

  /** The answer of `handle_command` to a command on any action other than
      "start": the camera commands report the unchanged angle, quit says it
      is ignored, every other command leaves the response empty. */
  function StopReply(s: Server, c: string): string {
    if c == "cam_up" || c == "cam_down" then "Tilt (no change): " + IntToString(s.tilt)
    else if c == "cam_left" || c == "cam_right" then "Pan (no change): " + IntToString(s.pan)
    else if c == "quit" || c == "q" then "Quit ignored on stop"
    else ""
  }

  /** `handle_command(action, command)`. Both words are lower-cased first.
      Every branch tests the command, then whether the action is "start";
      a command acts only on "start", and other actions change nothing. */
  function HandleCommand(s: Server, env: Env, action: string, command: string): (r: Handled)
    ensures r.Blocked? <==> Lower(action) == "start" && Lower(command) == "toggle_color" && s.detectionRunning
    ensures r.Handled? ==> (r.response.None? <==> Lower(action) == "start" && Lower(command) == "toggle_color")
    ensures r.Handled? ==> (r.quit <==> Lower(action) == "start" && (Lower(command) == "quit" || Lower(command) == "q"))
    ensures Lower(action) != "start" ==> r.Handled? && r.state == s && r.events == [] && !r.quit
    ensures Lower(command) !in Commands ==> r == Handled(s, Some(""), false, [])
    ensures Lower(action) == "start" && Lower(command) == "take_photo" ==>
      r == Handled(InitializeCamera(s, env.cameraStarts).0, Some("Photo saved: " + env.photo), false, InitializeCamera(s, env.cameraStarts).1)
    ensures r.Handled? && !(Lower(action) == "start" && Lower(command) == "take_photo") ==>
      r.state.cameraStarted == s.cameraStarted && r.state.detectionRunning == s.detectionRunning
    ensures r.Handled? ==> r.state.steering == s.steering && r.state.colorIndex == s.colorIndex
    ensures r.Handled? && Valid(s) ==> Valid(r.state)
  {
    var a := Lower(action);
    var c := Lower(command);
    if c !in Commands then Handled(s, Some(""), false, [])
    else if a == "start" then StartAnswers(s, env, c); StartKeeps(s, env, c); StartKeepsValid(s, env, c); Start(s, env, c)
    else Handled(s, Some(StopReply(s, c)), false, [])
  }

  /** `handle_command` lower-cases both words first, so the case the client
      used makes no difference. */
  lemma CaseInsensitive(s: Server, env: Env, action: string, command: string)
    ensures HandleCommand(s, env, action, command) == HandleCommand(s, env, Lower(action), Lower(command))
  {
    LowerIdempotent(action);
    LowerIdempotent(command);
  }

  /** The command names are written in lower case. */
  lemma CommandsAreLower(c: string)
    requires c in Commands
    ensures NoCapitals(c)
  {
  }

  /** A command sent with "start" runs its branch of `handle_command`. */
  lemma StartCommand(s: Server, env: Env, c: string)
    requires c in Commands
    ensures HandleCommand(s, env, "start", c) == Start(s, env, c)
  {
    CommandsAreLower(c);
    LowerOfLower(c);
    assert Lower("start") == "start";
  }

  /** A command sent with "stop" only answers. */
  lemma StopCommand(s: Server, env: Env, c: string)
    requires c in Commands
    ensures HandleCommand(s, env, "stop", c) == Handled(s, Some(StopReply(s, c)), false, [])
  {
    CommandsAreLower(c);
    LowerOfLower(c);
    assert Lower("stop") == "stop";
  }

  /** The speed commands move the speed ten up or down within 0..100 and
      report the new value; on stop they answer with nothing. */
  lemma SpeedCommands(s: Server, env: Env)
    ensures HandleCommand(s, env, "start", "speed_increase")
            == Handled(s.(speed := Clamp(s.speed + 10, 0, 100)), Some("Speed increased to " + IntToString(Clamp(s.speed + 10, 0, 100))), false, [])
    ensures HandleCommand(s, env, "start", "speed_decrease")
            == Handled(s.(speed := Clamp(s.speed - 10, 0, 100)), Some("Speed decreased to " + IntToString(Clamp(s.speed - 10, 0, 100))), false, [])
    ensures HandleCommand(s, env, "stop", "speed_increase") == Handled(s, Some(""), false, [])
    ensures HandleCommand(s, env, "stop", "speed_decrease") == Handled(s, Some(""), false, [])
  {
    SpeedIncrease(s, env);
    SpeedDecrease(s, env);
  }

  /** `speed_increase`: ten up, at most 100. */
  lemma SpeedIncrease(s: Server, env: Env)
    ensures HandleCommand(s, env, "start", "speed_increase")
            == Handled(s.(speed := Clamp(s.speed + 10, 0, 100)), Some("Speed increased to " + IntToString(Clamp(s.speed + 10, 0, 100))), false, [])
    ensures HandleCommand(s, env, "stop", "speed_increase") == Handled(s, Some(""), false, [])
  {
    StartCommand(s, env, "speed_increase");
    assert Start(s, env, "speed_increase") == Move(s, "speed_increase");
    StopCommand(s, env, "speed_increase");
  }

  /** `speed_decrease`: ten down, at least 0. */
  lemma SpeedDecrease(s: Server, env: Env)
    ensures HandleCommand(s, env, "start", "speed_decrease")
            == Handled(s.(speed := Clamp(s.speed - 10, 0, 100)), Some("Speed decreased to " + IntToString(Clamp(s.speed - 10, 0, 100))), false, [])
    ensures HandleCommand(s, env, "stop", "speed_decrease") == Handled(s, Some(""), false, [])
  {
    assert "speed_decrease"[6] != "speed_increase"[6];
    StartCommand(s, env, "speed_decrease");
    StopCommand(s, env, "speed_decrease");
  }

  /** The camera commands move tilt or pan five degrees within -35..35 and
      set the servo; on stop they report the unchanged angle. */
  lemma CameraCommands(s: Server, env: Env)
    ensures HandleCommand(s, env, "start", "cam_up")
            == Handled(s.(tilt := Clamp(s.tilt + 5, -35, 35)), Some("Tilt: " + IntToString(Clamp(s.tilt + 5, -35, 35))), false, [CamTilt(Clamp(s.tilt + 5, -35, 35))])
    ensures HandleCommand(s, env, "start", "cam_down")
            == Handled(s.(tilt := Clamp(s.tilt - 5, -35, 35)), Some("Tilt: " + IntToString(Clamp(s.tilt - 5, -35, 35))), false, [CamTilt(Clamp(s.tilt - 5, -35, 35))])
    ensures HandleCommand(s, env, "start", "cam_left")
            == Handled(s.(pan := Clamp(s.pan - 5, -35, 35)), Some("Pan: " + IntToString(Clamp(s.pan - 5, -35, 35))), false, [CamPan(Clamp(s.pan - 5, -35, 35))])
    ensures HandleCommand(s, env, "start", "cam_right")
            == Handled(s.(pan := Clamp(s.pan + 5, -35, 35)), Some("Pan: " + IntToString(Clamp(s.pan + 5, -35, 35))), false, [CamPan(Clamp(s.pan + 5, -35, 35))])
    ensures HandleCommand(s, env, "stop", "cam_up") == Handled(s, Some("Tilt (no change): " + IntToString(s.tilt)), false, [])
    ensures HandleCommand(s, env, "stop", "cam_down") == Handled(s, Some("Tilt (no change): " + IntToString(s.tilt)), false, [])
    ensures HandleCommand(s, env, "stop", "cam_left") == Handled(s, Some("Pan (no change): " + IntToString(s.pan)), false, [])
    ensures HandleCommand(s, env, "stop", "cam_right") == Handled(s, Some("Pan (no change): " + IntToString(s.pan)), false, [])
  {
    CamUp(s, env);
    CamDown(s, env);
    CamLeft(s, env);
    CamRight(s, env);
  }

  /** `cam_up`: tilt five up, at most 35. */
  lemma CamUp(s: Server, env: Env)
    ensures HandleCommand(s, env, "start", "cam_up")
            == Handled(s.(tilt := Clamp(s.tilt + 5, -35, 35)), Some("Tilt: " + IntToString(Clamp(s.tilt + 5, -35, 35))), false, [CamTilt(Clamp(s.tilt + 5, -35, 35))])
    ensures HandleCommand(s, env, "stop", "cam_up") == Handled(s, Some("Tilt (no change): " + IntToString(s.tilt)), false, [])
  {
    StartCommand(s, env, "cam_up");
    StopCommand(s, env, "cam_up");
  }

  /** `cam_down`: tilt five down, at least -35. */
  lemma CamDown(s: Server, env: Env)
    ensures HandleCommand(s, env, "start", "cam_down")
            == Handled(s.(tilt := Clamp(s.tilt - 5, -35, 35)), Some("Tilt: " + IntToString(Clamp(s.tilt - 5, -35, 35))), false, [CamTilt(Clamp(s.tilt - 5, -35, 35))])
    ensures HandleCommand(s, env, "stop", "cam_down") == Handled(s, Some("Tilt (no change): " + IntToString(s.tilt)), false, [])
  {
    StartCommand(s, env, "cam_down");
    StopCommand(s, env, "cam_down");
  }

  /** `cam_left`: pan five left, at least -35. */
  lemma CamLeft(s: Server, env: Env)
    ensures HandleCommand(s, env, "start", "cam_left")
            == Handled(s.(pan := Clamp(s.pan - 5, -35, 35)), Some("Pan: " + IntToString(Clamp(s.pan - 5, -35, 35))), false, [CamPan(Clamp(s.pan - 5, -35, 35))])
    ensures HandleCommand(s, env, "stop", "cam_left") == Handled(s, Some("Pan (no change): " + IntToString(s.pan)), false, [])
  {
    assert "cam_left"[4] != "cam_down"[4];
    StartCommand(s, env, "cam_left");
    StopCommand(s, env, "cam_left");
  }

  /** `cam_right`: pan five right, at most 35. */
  lemma CamRight(s: Server, env: Env)
    ensures HandleCommand(s, env, "start", "cam_right")
            == Handled(s.(pan := Clamp(s.pan + 5, -35, 35)), Some("Pan: " + IntToString(Clamp(s.pan + 5, -35, 35))), false, [CamPan(Clamp(s.pan + 5, -35, 35))])
    ensures HandleCommand(s, env, "stop", "cam_right") == Handled(s, Some("Pan (no change): " + IntToString(s.pan)), false, [])
  {
    StartCommand(s, env, "cam_right");
    StopCommand(s, env, "cam_right");
  }

  /** `toggle_face` on start flips face detection and reports the new
      state; on stop it answers with nothing. */
  lemma ToggleFaceCommand(s: Server, env: Env)
    ensures HandleCommand(s, env, "start", "toggle_face") == Handled(ToggleFace(s).0, Some(ToggleFace(s).1), false, ToggleFace(s).2)
    ensures HandleCommand(s, env, "stop", "toggle_face") == Handled(s, Some(""), false, [])
  {
    StartCommand(s, env, "toggle_face");
    StopCommand(s, env, "toggle_face");
  }

  /** `toggle_color` on start never returns while detection runs, and
      otherwise answers `None`; on stop it answers with nothing. */
  lemma ToggleColorCommand(s: Server, env: Env)
    ensures s.detectionRunning ==> HandleCommand(s, env, "start", "toggle_color") == Blocked
    ensures !s.detectionRunning ==> HandleCommand(s, env, "start", "toggle_color") == Handled(s, None, false, [])
    ensures HandleCommand(s, env, "stop", "toggle_color") == Handled(s, Some(""), false, [])
  {
    StartCommand(s, env, "toggle_color");
    StopCommand(s, env, "toggle_color");
  }

  /** `take_photo` on start tries to start the camera and reports the
      saved path; on stop it answers with nothing. */
  lemma TakePhotoCommand(s: Server, env: Env)
    ensures HandleCommand(s, env, "start", "take_photo") == TakePhoto(s, env)
    ensures HandleCommand(s, env, "stop", "take_photo") == Handled(s, Some(""), false, [])
  {
    StartCommand(s, env, "take_photo");
    StopCommand(s, env, "take_photo");
  }

  /** `show_detect` on start answers the detection report; on stop it
      answers with nothing. */
  lemma ShowDetectCommand(s: Server, env: Env)
    ensures HandleCommand(s, env, "start", "show_detect") == Handled(s, Some(DetectionInfo(s, env.readings)), false, [])
    ensures HandleCommand(s, env, "stop", "show_detect") == Handled(s, Some(""), false, [])
  {
    StartCommand(s, env, "show_detect");
    StopCommand(s, env, "show_detect");
  }

  /** `help` on start answers the key table; on stop it answers with
      nothing. */
  lemma HelpCommand(s: Server, env: Env)
    ensures HandleCommand(s, env, "start", "help") == Handled(s, Some(HelpText()), false, [])
    ensures HandleCommand(s, env, "stop", "help") == Handled(s, Some(""), false, [])
  {
    StartCommand(s, env, "help");
    StopCommand(s, env, "help");
  }

  /** `start quit` and `start q` shut down; `stop quit` is ignored. */
  lemma QuitCommands(s: Server, env: Env)
    ensures HandleCommand(s, env, "start", "quit") == Handled(s, Some("Shutting down..."), true, [])
    ensures HandleCommand(s, env, "start", "q") == Handled(s, Some("Shutting down..."), true, [])
    ensures HandleCommand(s, env, "stop", "quit") == Handled(s, Some("Quit ignored on stop"), false, [])
  {
    assert "quit"[0] != "help"[0];
    StartCommand(s, env, "quit");
    StartCommand(s, env, "q");
    StopCommand(s, env, "quit");
  }

  /** A camera that failed at start-up is started by `start take_photo`,
      which also starts detection: from then on `start toggle_color` never
      returns, where before it returned `None`. */
  lemma PhotoStartsCamera(env: Env, later: Env)
    requires env.cameraStarts
    ensures HandleCommand(Boot(false), later, "start", "toggle_color") == Handled(Boot(false), None, false, [])
    ensures HandleCommand(Boot(false), env, "start", "take_photo").state == Boot(true)
    ensures HandleCommand(Boot(false), env, "start", "take_photo").events == [CameraOn, FaceSwitch(true), ColorThread]
    ensures HandleCommand(Boot(true), later, "start", "toggle_color") == Blocked
  {
    assert Lower("start") == "start";
    assert Lower("take_photo") == "take_photo";
    assert Lower("toggle_color") == "toggle_color";
  }

  // ---------------------------------------------------------------------
  // Steering.
  // ---------------------------------------------------------------------

  /** After `start left` from the centre the wheels reach 30 degrees left
      in 60 passes of the steering loop and stay there. */
  lemma TurnLeftSettles(st: Steering, n: nat)
    requires st.current == 0
    ensures n < 60 ==> Ticks(DriveTable(st, "start left", TurnTarget).0, n).current != -TurnTarget
    ensures n >= 60 ==> Ticks(DriveTable(st, "start left", TurnTarget).0, n).current == -TurnTarget
  {
    TurnFromCentre(-TurnTarget, n);
  }

  /** A steering pass keeps the angle within the turn limits. */
  lemma SteeringKeepsValid(s: Server)
    requires Valid(s)
    ensures Valid(s.(steering := SteeringTick(s.steering).0))
  {
  }

  // ---------------------------------------------------------------------
  // One turn of the main loop.
  // ---------------------------------------------------------------------

  /** The main loop's reading of a received line: skipped when blank,
      rejected when it has fewer than two words, otherwise the first two
      words and the stripped text. */
  datatype Parsed =
    | Blank
    | Malformed(reply: string)
    | Command(action: string, command: string, text: string)

  function PreParse(line: string): (r: Parsed)
    ensures r.Blank? <==> AllSpace(line)
    ensures r.Malformed? <==> !AllSpace(line) && |Tokens(line)| < 2
    ensures r.Malformed? ==> r.reply == "Malformed command: '" + Strip(line) + "'"
    ensures r.Command? ==> |Tokens(line)| >= 2 && r.action == Tokens(line)[0] && r.command == Tokens(line)[1]
    ensures r.Command? ==> r.text == Strip(line)
  {
    var text := Strip(line);
    TokensOfStrip(line);
    if text == [] then Blank
    else
      var parts := Tokens(text);
      if |parts| < 2 then Malformed("Malformed command: '" + text + "'")
      else Command(parts[0], parts[1], text)
  }

  /** What one received line leads to. */
  datatype Turn =
    | Skipped
      // a reply written back; `quit` ends the server
    | Replied(state: Server, out: seq<Byte>, events: seq<Event>, quit: bool)
      // `send_multiline(None)` raised: the car is stopped and the connection closed
    | Dropped(state: Server, events: seq<Event>)
      // `handle_command` never returns
    | Hung

  /** `main()` in picar-server.py, lines 623-625: `handle_command` on the
      two words, `drive_loop` on the stripped text, then `send_multiline` of
      the response. */
  function RunCommand(s: Server, env: Env, action: string, command: string, text: string): (r: Turn)
    ensures !r.Skipped?
    ensures r.Replied? && r.quit ==> Lower(action) == "start"
    ensures r.Hung? ==> s.detectionRunning
    ensures r.Replied? && Valid(s) ==> Valid(r.state)
    ensures r.Dropped? && Valid(s) ==> Valid(r.state)
    ensures Lower(action) != "start" ==> r == Replied(s.(steering := DriveTable(s.steering, text, TurnTarget).0), SendMultiline(HandleCommand(s, env, action, command).response.value), DriveTable(s.steering, text, TurnTarget).1, false)
    ensures HandleCommand(s, env, action, command).Handled? ==>
      var h := HandleCommand(s, env, action, command);
      var d := DriveTable(h.state.steering, text, TurnTarget);
      && (h.response.Some? ==> r == Replied(h.state.(steering := d.0), SendMultiline(h.response.value), h.events + d.1, h.quit))
      && (h.response.None? ==> r == Dropped(h.state.(steering := d.0), h.events + d.1 + [Stop]))
  {
    match HandleCommand(s, env, action, command)
    case Blocked => Hung
    case Handled(s1, response, quit, ev) =>
      var (st, drive) := DriveTable(s1.steering, text, TurnTarget);
      var s2 := s1.(steering := st);
      match response
      case None => Dropped(s2, ev + drive + [Stop])
      case Some(msg) => Replied(s2, SendMultiline(msg), ev + drive, quit)
  }

  /** The turn hangs on `start toggle_color` while detection runs, and is
      dropped, with the car stopped last, on `start toggle_color` otherwise;
      every other command is answered. */
  lemma RunCommandOutcome(s: Server, env: Env, action: string, command: string, text: string)
    ensures RunCommand(s, env, action, command, text).Hung? <==>
              Lower(action) == "start" && Lower(command) == "toggle_color" && s.detectionRunning
    ensures RunCommand(s, env, action, command, text).Dropped? <==>
              Lower(action) == "start" && Lower(command) == "toggle_color" && !s.detectionRunning
    ensures RunCommand(s, env, action, command, text).Dropped? ==>
              var ev := RunCommand(s, env, action, command, text).events; ev != [] && ev[|ev| - 1] == Stop
  {
  }

  /** `main()` in picar-server.py, lines 604-625, for one line `recv_line`
      returned: blank lines are skipped, malformed ones answered without
      running the command or the drive table, the rest run. */
  function ProcessLine(s: Server, env: Env, line: string): (r: Turn)
    ensures r.Skipped? <==> AllSpace(line)
    ensures PreParse(line).Malformed? ==> r == Replied(s, SendResponse(PreParse(line).reply), [], false)
    ensures r.Replied? && r.quit ==> PreParse(line).Command? && Lower(PreParse(line).action) == "start"
    ensures r.Replied? && Valid(s) ==> Valid(r.state)
  {
    match PreParse(line)
    case Blank => Skipped
    case Malformed(reply) => Replied(s, SendResponse(reply), [], false)
    case Command(a, c, text) => RunCommand(s, env, a, c, text)
  }

  /** A well-formed line runs `handle_command` on its first two words and
      `drive_loop` on the whole stripped line. */
  lemma ProcessCommandLine(s: Server, env: Env, line: string)
    requires PreParse(line).Command?
    ensures ProcessLine(s, env, line) == RunCommand(s, env, Tokens(line)[0], Tokens(line)[1], Strip(line))
  {
  }

  /** Two words joined by a space are read back as those words, with the
      line itself as the drive text. */
  lemma PreParseTwoWords(action: string, word: string)
    requires action != [] && NoSpace(action) && word != [] && NoSpace(word)
    ensures PreParse(action + " " + word) == Command(action, word, action + " " + word)
  {
    var line := action + " " + word;
    TokensOfPair(action, word);
    assert line[0] == action[0] && line[|line| - 1] == word[|word| - 1];
    assert Strip(line) == line;
  }

  /** A command that is no command is answered with an empty block, and
      `drive_loop` still acts on the text. */
  lemma UnknownCommandRuns(s: Server, env: Env, action: string, command: string, text: string)
    requires Lower(command) !in Commands
    ensures RunCommand(s, env, action, command, text)
            == Replied(s.(steering := DriveTable(s.steering, text, TurnTarget).0),
                       SendMultiline(""), DriveTable(s.steering, text, TurnTarget).1, false)
  {
    EmptyAppend(DriveTable(s.steering, text, TurnTarget).1);
  }

  /** A line of two lower-case words whose second is no command:
      `handle_command` answers it with an empty block, and `drive_loop`
      acts on the line. */
  lemma UnknownCommandLine(s: Server, env: Env, action: string, word: string)
    requires action != [] && NoSpace(action) && NoCapitals(action)
    requires word != [] && NoSpace(word) && NoCapitals(word) && word !in Commands
    ensures ProcessLine(s, env, action + " " + word)
            == Replied(s.(steering := DriveTable(s.steering, action + " " + word, TurnTarget).0),
                       SendMultiline(""), DriveTable(s.steering, action + " " + word, TurnTarget).1, false)
  {
    var line := action + " " + word;
    LowerOfLower(word);
    PreParseTwoWords(action, word);
    ProcessCommandLine(s, env, line);
    UnknownCommandRuns(s, env, action, word, line);
  }

  /** The two forward lines, as the client builds them. */
  lemma ForwardLines()
    ensures "start" + " " + "forward" == "start forward"
    ensures "stop" + " " + "forward" == "stop forward"
  {
  }

  /** The words of the forward lines are single lower-case words, and
      "forward" is no command. */
  lemma ForwardWords()
    ensures NoSpace("start") && NoCapitals("start")
    ensures NoSpace("stop") && NoCapitals("stop")
    ensures NoSpace("forward") && NoCapitals("forward") && "forward" !in Commands
  {
  }

  /** `start forward` drives at 80 and is answered with an empty block. */
  lemma StartForward(s: Server, env: Env)
    ensures ProcessLine(s, env, "start forward") == Replied(s, Encode("\n" + EndMarker + "\n"), [Forward(80)], false)
  {
    ForwardWords();
    ForwardLines();
    UnknownCommandLine(s, env, "start", "forward");
    EmptyBlock();
    assert s.(steering := s.steering) == s;
  }

  /** `stop forward` stops the car and is answered with an empty block. */
  lemma StopForward(s: Server, env: Env)
    ensures ProcessLine(s, env, "stop forward") == Replied(s, Encode("\n" + EndMarker + "\n"), [Forward(0)], false)
  {
    ForwardWords();
    ForwardLines();
    UnknownCommandLine(s, env, "stop", "forward");
    EmptyBlock();
    assert s.(steering := s.steering) == s;
  }

  /** `start forward` drives at 80 and `stop forward` stops the car; both
      are answered with an empty block. */
  lemma DriveForward(s: Server, env: Env)
    ensures ProcessLine(s, env, "start forward") == Replied(s, Encode("\n" + EndMarker + "\n"), [Forward(80)], false)
    ensures ProcessLine(s, env, "stop forward") == Replied(s, Encode("\n" + EndMarker + "\n"), [Forward(0)], false)
  {
    StartForward(s, env);
    StopForward(s, env);
  }

}

/** The command side of `picar_server2.py`: `handle_command` over the car
    state and the detection modes, and its `drive_loop` match table. */
module ServerTwo {
  import opened Wrappers
  import opened Text
  import opened Car
  import opened Detection

  /** `drive_loop` turns to 35 degrees: 70 half degrees. */
  const TurnTarget := 70

  /** The globals of `picar_server2.py` that a command reads or writes. */
  datatype Server = Server(speed: int, pan: int, tilt: int, steering: Steering, modes: Modes)

  const Initial := Server(InitialSpeed, 0, 0, InitialSteering, InitialModes)

  /** Speed, pan and tilt within their limits; at most one detection mode
      on and the colour index on the list; the steering target one of the
      three the drive table sets and the angle between the extremes. */
  predicate Valid(s: Server) {
    && MinSpeed <= s.speed <= MaxSpeed
    && -CamLimit <= s.pan <= CamLimit
    && -CamLimit <= s.tilt <= CamLimit
    && Exclusive(s.modes)
    && 0 <= s.modes.colorIndex < |Colors|
    && (s.steering.target == -TurnTarget || s.steering.target == 0 || s.steering.target == TurnTarget)
    && -TurnTarget <= s.steering.current <= TurnTarget
  }

  lemma InitialValid()
    ensures Valid(Initial)
  {
  }

  /** What `handle_command` cannot see: the camera library's readings, and
      the path `take_photo()` returns, or `None` when it raises. */
  datatype Env = Env(readings: Readings, photo: Option<string>)

  /** The result of `handle_command`; `Raised` when `take_photo()` raised and
      the exception left the function. */
  datatype Handled =
    | Handled(state: Server, response: string, quit: bool, events: seq<Event>)
    | Raised

  /** The commands that move the speed or the camera one step. */
  const MoveCommands: seq<string> := ["speed_increase", "speed_decrease", "cam_up", "cam_down", "cam_left", "cam_right"]

  /** The commands that toggle detection or answer with a report. */
  const AnswerCommands: seq<string> := ["toggle_face", "toggle_color", "take_photo", "show_detect", "help", "quit", "q"]

  /** The command names `handle_command` has a branch for. */
  const Commands: seq<string> := MoveCommands + AnswerCommands

  /** The `help` answer: the command groups, separated by commas. */
  const HelpTopics: seq<string> := [
    "Commands: forward/backward/left/right", "speed_increase/speed_decrease",
    "cam_up/cam_down/cam_left/cam_right", "toggle_face/toggle_color",
    "take_photo", "show_detect", "help"]

  function HelpText(): string {
    Join(HelpTopics, ", ")
  }

  /** The reply to a command that acts only on "start", when it is stopped. */
  function StopReply(c: string, s: Server): string {
    if c == "speed_increase" || c == "speed_decrease" then "Speed unchanged (" + IntToString(s.speed) + ")"
    else if c == "cam_up" || c == "cam_down" then "Tilt (no change): " + IntToString(s.tilt)
    else if c == "cam_left" || c == "cam_right" then "Pan (no change): " + IntToString(s.pan)
    else if c == "toggle_face" then "Face toggle ignored on stop"
    else if c == "toggle_color" then "Color toggle ignored on stop"
    else if c == "take_photo" then "Photo command ignored on stop"
    else if c == "show_detect" then "Detection info ignored on stop"
    else if c == "help" then "Help ignored on stop"
    else "Quit ignored on stop"
  }

  /** The speed and camera branches of `handle_command` on "start": one
      step within the limits, reported, and the camera servos set. */
  function Move(s: Server, c: string): (r: Handled)
    requires c in MoveCommands
    ensures r.Handled? && !r.quit
    ensures r.state == s.(speed := r.state.speed, pan := r.state.pan, tilt := r.state.tilt)
    ensures Valid(s) ==> Valid(r.state)
  {
    if c == "speed_increase" || c == "speed_decrease" then
      var v := Clamp(if c == "speed_increase" then s.speed + SpeedStep else s.speed - SpeedStep, MinSpeed, MaxSpeed);
      Handled(s.(speed := v), (if c == "speed_increase" then "Speed increased to " else "Speed decreased to ") + IntToString(v), false, [])
    else if c == "cam_up" || c == "cam_down" then
      var v := Clamp(if c == "cam_up" then s.tilt + CamStep else s.tilt - CamStep, -CamLimit, CamLimit);
      Handled(s.(tilt := v), "Tilt: " + IntToString(v), false, [CamTilt(v)])
    else
      var v := Clamp(if c == "cam_right" then s.pan + CamStep else s.pan - CamStep, -CamLimit, CamLimit);
      Handled(s.(pan := v), "Pan: " + IntToString(v), false, [CamPan(v)])
  }

  /** The detection, photo, help and quit branches of `handle_command` on
      "start". Only the toggles change a global: the detection modes. */
  function Answer(s: Server, env: Env, c: string): (r: Handled)
    requires c in AnswerCommands
    ensures r.Raised? <==> c == "take_photo" && env.photo.None?
    ensures r.Handled? ==> (r.quit <==> c == "quit" || c == "q")
    ensures r.Handled? ==> r.state == s.(modes := r.state.modes)
    ensures r.Handled? && Valid(s) ==> Valid(r.state)
  {
    if c == "toggle_face" then
      var t := ToggleFace(s.modes);
      Handled(s.(modes := t.modes), t.message, false, t.events)
    else if c == "toggle_color" then
      var t := ToggleColor(s.modes);
      Handled(s.(modes := t.modes), t.message, false, t.events)
    else if c == "take_photo" then
      match env.photo
      case None => Raised
      case Some(path) => Handled(s, "Photo saved: " + path, false, [])
    else if c == "show_detect" then Handled(s, DetectionInfo(s.modes, env.readings), false, [])
    else if c == "help" then Handled(s, HelpText(), false, [])
    else Handled(s, "Shutting down...", true, [])
  }

  /** `handle_command(action, command)` for a command on "start". */
  function Start(s: Server, env: Env, c: string): (r: Handled)
    requires c in Commands
    ensures r.Raised? <==> c == "take_photo" && env.photo.None?
    ensures r.Handled? ==> (r.quit <==> c == "quit" || c == "q")
    ensures r.Handled? ==> r.state.steering == s.steering
    ensures r.Handled? && Valid(s) ==> Valid(r.state)
  {
    if c in MoveCommands then Move(s, c)
    else Answer(s, env, c)
  }

  /** `handle_command(action, command)`. Both words are lower-cased first;
      a known command acts on "start" and answers any other action without
      changing anything; an unknown one is reported back. */
  function HandleCommand(s: Server, env: Env, action: string, command: string): (r: Handled)
    ensures r.Raised? <==> Lower(action) == "start" && Lower(command) == "take_photo" && env.photo.None?
    ensures r.Handled? ==> (r.quit <==> Lower(action) == "start" && (Lower(command) == "quit" || Lower(command) == "q"))
    ensures Lower(command) !in Commands ==> r == Handled(s, "Unknown command: action=" + Lower(action) + ", command=" + Lower(command), false, [])
    ensures Lower(command) in Commands && Lower(action) != "start" ==> r == Handled(s, StopReply(Lower(command), s), false, [])
    ensures r.Handled? ==> r.state.steering == s.steering
    ensures r.Handled? && Valid(s) ==> Valid(r.state)
  {
    var a := Lower(action);
    var c := Lower(command);
    if c !in Commands then Handled(s, "Unknown command: action=" + a + ", command=" + c, false, [])
    else if a == "start" then Start(s, env, c)
    else Handled(s, StopReply(c, s), false, [])
  }

  /** `handle_command` lower-cases both words first, so the case the client
      used makes no difference. */
  lemma CaseInsensitive(s: Server, env: Env, action: string, command: string)
    ensures HandleCommand(s, env, action, command) == HandleCommand(s, env, Lower(action), Lower(command))
  {
    LowerIdempotent(action);
    LowerIdempotent(command);
  }

  /** A known command sent with "start" runs its branch of `handle_command`. */
  lemma OnStart(s: Server, env: Env, action: string, command: string)
    requires Lower(action) == "start" && Lower(command) in Commands
    ensures HandleCommand(s, env, action, command) == Start(s, env, Lower(command))
  {
  }

  /** The replies `StopReply` gives to the commands that only act on "start". */
  lemma StopReplies(s: Server)
    ensures StopReply("toggle_face", s) == "Face toggle ignored on stop"
    ensures StopReply("toggle_color", s) == "Color toggle ignored on stop"
    ensures StopReply("take_photo", s) == "Photo command ignored on stop"
    ensures StopReply("show_detect", s) == "Detection info ignored on stop"
    ensures StopReply("help", s) == "Help ignored on stop"
    ensures StopReply("speed_increase", s) == "Speed unchanged (" + IntToString(s.speed) + ")"
    ensures StopReply("speed_decrease", s) == "Speed unchanged (" + IntToString(s.speed) + ")"
  {
  }

  /** `stop` on a one-shot command answers that it was ignored, and on a
      speed command that the speed is unchanged. */
  lemma StopIgnored(s: Server, env: Env, action: string, command: string)
    requires Lower(action) != "start"
    ensures Lower(command) == "toggle_face" ==> HandleCommand(s, env, action, command) == Handled(s, "Face toggle ignored on stop", false, [])
    ensures Lower(command) == "toggle_color" ==> HandleCommand(s, env, action, command) == Handled(s, "Color toggle ignored on stop", false, [])
    ensures Lower(command) == "take_photo" ==> HandleCommand(s, env, action, command) == Handled(s, "Photo command ignored on stop", false, [])
    ensures Lower(command) == "show_detect" ==> HandleCommand(s, env, action, command) == Handled(s, "Detection info ignored on stop", false, [])
    ensures Lower(command) == "help" ==> HandleCommand(s, env, action, command) == Handled(s, "Help ignored on stop", false, [])
    ensures Lower(command) == "speed_increase" ==> HandleCommand(s, env, action, command) == Handled(s, "Speed unchanged (" + IntToString(s.speed) + ")", false, [])
    ensures Lower(command) == "speed_decrease" ==> HandleCommand(s, env, action, command) == Handled(s, "Speed unchanged (" + IntToString(s.speed) + ")", false, [])
  {
    StopReplies(s);
    assert "toggle_face" in AnswerCommands && "toggle_color" in AnswerCommands && "take_photo" in AnswerCommands;
    assert "show_detect" in AnswerCommands && "help" in AnswerCommands;
    assert "speed_increase" in MoveCommands && "speed_decrease" in MoveCommands;
  }

  /** On "start" a move runs `Move`, and any other command `Answer`. */
  lemma StartDispatch(s: Server, env: Env, c: string)
    requires c in Commands
    ensures c in MoveCommands ==> Start(s, env, c) == Move(s, c)
    ensures c !in MoveCommands ==> Start(s, env, c) == Answer(s, env, c)
  {
  }

  /** The speed moves: ten up or down within 0..100. */
  lemma SpeedMoves(s: Server)
    ensures Move(s, "speed_increase") == Handled(s.(speed := Clamp(s.speed + 10, 0, 100)), "Speed increased to " + IntToString(Clamp(s.speed + 10, 0, 100)), false, [])
    ensures Move(s, "speed_decrease") == Handled(s.(speed := Clamp(s.speed - 10, 0, 100)), "Speed decreased to " + IntToString(Clamp(s.speed - 10, 0, 100)), false, [])
  {
  }

  /** The tilt moves: five degrees up or down within -35..35. */
  lemma TiltMoves(s: Server)
    ensures Move(s, "cam_up") == Handled(s.(tilt := Clamp(s.tilt + 5, -35, 35)), "Tilt: " + IntToString(Clamp(s.tilt + 5, -35, 35)), false, [CamTilt(Clamp(s.tilt + 5, -35, 35))])
    ensures Move(s, "cam_down") == Handled(s.(tilt := Clamp(s.tilt - 5, -35, 35)), "Tilt: " + IntToString(Clamp(s.tilt - 5, -35, 35)), false, [CamTilt(Clamp(s.tilt - 5, -35, 35))])
  {
  }

  /** The pan moves: five degrees left or right within -35..35. */
  lemma PanMoves(s: Server)
    ensures Move(s, "cam_left") == Handled(s.(pan := Clamp(s.pan - 5, -35, 35)), "Pan: " + IntToString(Clamp(s.pan - 5, -35, 35)), false, [CamPan(Clamp(s.pan - 5, -35, 35))])
    ensures Move(s, "cam_right") == Handled(s.(pan := Clamp(s.pan + 5, -35, 35)), "Pan: " + IntToString(Clamp(s.pan + 5, -35, 35)), false, [CamPan(Clamp(s.pan + 5, -35, 35))])
  {
  }

  /** On "start" the speed moves ten up or down within 0..100 and the
      camera five degrees within -35..35, each reporting the new value. */
  lemma StartMoves(s: Server, env: Env, action: string, command: string)
    requires Lower(action) == "start"
    ensures Lower(command) == "speed_increase" ==>
              HandleCommand(s, env, action, command) == Handled(s.(speed := Clamp(s.speed + 10, 0, 100)), "Speed increased to " + IntToString(Clamp(s.speed + 10, 0, 100)), false, [])
    ensures Lower(command) == "speed_decrease" ==>
              HandleCommand(s, env, action, command) == Handled(s.(speed := Clamp(s.speed - 10, 0, 100)), "Speed decreased to " + IntToString(Clamp(s.speed - 10, 0, 100)), false, [])
    ensures Lower(command) == "cam_up" ==>
              HandleCommand(s, env, action, command) == Handled(s.(tilt := Clamp(s.tilt + 5, -35, 35)), "Tilt: " + IntToString(Clamp(s.tilt + 5, -35, 35)), false, [CamTilt(Clamp(s.tilt + 5, -35, 35))])
    ensures Lower(command) == "cam_down" ==>
              HandleCommand(s, env, action, command) == Handled(s.(tilt := Clamp(s.tilt - 5, -35, 35)), "Tilt: " + IntToString(Clamp(s.tilt - 5, -35, 35)), false, [CamTilt(Clamp(s.tilt - 5, -35, 35))])
    ensures Lower(command) == "cam_left" ==>
              HandleCommand(s, env, action, command) == Handled(s.(pan := Clamp(s.pan - 5, -35, 35)), "Pan: " + IntToString(Clamp(s.pan - 5, -35, 35)), false, [CamPan(Clamp(s.pan - 5, -35, 35))])
    ensures Lower(command) == "cam_right" ==>
              HandleCommand(s, env, action, command) == Handled(s.(pan := Clamp(s.pan + 5, -35, 35)), "Pan: " + IntToString(Clamp(s.pan + 5, -35, 35)), false, [CamPan(Clamp(s.pan + 5, -35, 35))])
  {
    var c := Lower(command);
    if c in MoveCommands {
      OnStart(s, env, action, command);
      StartDispatch(s, env, c);
      SpeedMoves(s);
      TiltMoves(s);
      PanMoves(s);
    }
  }

  /** The two toggles, as `toggle_face_detect` and `toggle_color_detect`. */
  lemma Toggles(s: Server, env: Env)
    ensures Answer(s, env, "toggle_face") == Handled(s.(modes := ToggleFace(s.modes).modes), ToggleFace(s.modes).message, false, ToggleFace(s.modes).events)
    ensures Answer(s, env, "toggle_color") == Handled(s.(modes := ToggleColor(s.modes).modes), ToggleColor(s.modes).message, false, ToggleColor(s.modes).events)
  {
  }

  /** On "start" the face and colour toggles change the detection modes as
      `toggle_face_detect` and `toggle_color_detect` do, and report it. */
  lemma StartToggles(s: Server, env: Env, action: string, command: string)
    requires Lower(action) == "start"
    ensures Lower(command) == "toggle_face" ==>
              HandleCommand(s, env, action, command) == Handled(s.(modes := ToggleFace(s.modes).modes), ToggleFace(s.modes).message, false, ToggleFace(s.modes).events)
    ensures Lower(command) == "toggle_color" ==>
              HandleCommand(s, env, action, command) == Handled(s.(modes := ToggleColor(s.modes).modes), ToggleColor(s.modes).message, false, ToggleColor(s.modes).events)
  {
    var c := Lower(command);
    if c == "toggle_face" || c == "toggle_color" {
      assert c == AnswerCommands[0] || c == AnswerCommands[1];
      OnStart(s, env, action, command);
      StartDispatch(s, env, c);
      Toggles(s, env);
    }
  }

  /** The detection report and the help text. */
  lemma Reports(s: Server, env: Env)
    ensures Answer(s, env, "show_detect") == Handled(s, DetectionInfo(s.modes, env.readings), false, [])
    ensures Answer(s, env, "help") == Handled(s, HelpText(), false, [])
  {
  }

  /** A photo that was saved is answered with its path. */
  lemma PhotoSaved(s: Server, env: Env)
    requires env.photo.Some?
    ensures Answer(s, env, "take_photo") == Handled(s, "Photo saved: " + env.photo.value, false, [])
  {
  }

  /** On "start" the detection report is answered, and nothing changes. */
  lemma StartDetect(s: Server, env: Env, action: string, command: string)
    requires Lower(action) == "start" && Lower(command) == "show_detect"
    ensures HandleCommand(s, env, action, command) == Handled(s, DetectionInfo(s.modes, env.readings), false, [])
  {
    assert "show_detect" == AnswerCommands[3] && "show_detect" !in MoveCommands;
    OnStart(s, env, action, command);
    StartDispatch(s, env, "show_detect");
    Reports(s, env);
  }

  /** On "start" the help text is answered, and nothing changes. */
  lemma StartHelp(s: Server, env: Env, action: string, command: string)
    requires Lower(action) == "start" && Lower(command) == "help"
    ensures HandleCommand(s, env, action, command) == Handled(s, HelpText(), false, [])
  {
    assert "help" == AnswerCommands[4] && "help" !in MoveCommands;
    OnStart(s, env, action, command);
    StartDispatch(s, env, "help");
    Reports(s, env);
  }

  /** On "start" a photo that was saved is answered with its path, and
      nothing changes. */
  lemma StartPhoto(s: Server, env: Env, action: string, command: string)
    requires Lower(action) == "start" && Lower(command) == "take_photo"
    ensures env.photo.Some? ==> HandleCommand(s, env, action, command) == Handled(s, "Photo saved: " + env.photo.value, false, [])
  {
    assert "take_photo" == AnswerCommands[2] && "take_photo" !in MoveCommands;
    OnStart(s, env, action, command);
    StartDispatch(s, env, "take_photo");
    if env.photo.Some? { PhotoSaved(s, env); }
  }

  /** The movement words the client sends are not commands here: they are
      reported as unknown and change nothing. */
  lemma MovementIsUnknown(s: Server, env: Env, action: string, command: string)
    requires Lower(command) == "forward" || Lower(command) == "backward" || Lower(command) == "left" || Lower(command) == "right"
    ensures HandleCommand(s, env, action, command) == Handled(s, "Unknown command: action=" + Lower(action) + ", command=" + Lower(command), false, [])
  {
  }

  /** Toggling colour detection from start-up steps through the colours. */
  lemma ColorToggleFromStart(env: Env)
    ensures HandleCommand(Initial, env, "start", "toggle_color").response == "Color detection: red"
    ensures HandleCommand(Initial, env, "start", "toggle_color").state.modes == Modes(false, true, false, 0)
  {
    assert Lower("start") == "start";
    assert Lower("toggle_color") == "toggle_color";
  }

  /** After `start right` from the centre the wheels reach 35 degrees right
      in 70 passes of the steering loop and stay there. */
  lemma TurnRightSettles(st: Steering, n: nat)
    requires st.current == 0
    ensures n < 70 ==> Ticks(DriveTable(st, "start right", TurnTarget).0, n).current != TurnTarget
    ensures n >= 70 ==> Ticks(DriveTable(st, "start right", TurnTarget).0, n).current == TurnTarget
  {
    TurnFromCentre(TurnTarget, n);
  }

  /** The drive table and a steering pass keep the steering within the turn
      limits. */
  lemma DrivingKeepsValid(s: Server, text: string)
    requires Valid(s)
    ensures Valid(s.(steering := DriveTable(s.steering, text, TurnTarget).0))
    ensures Valid(s.(steering := SteeringTick(s.steering).0))
  {
  }
}

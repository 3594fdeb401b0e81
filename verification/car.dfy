/** The car side shared by both servers: the calls made on the Picarx and
    Vilib libraries (recorded as events, never executed), `clamp`, and one
    pass of the two background loops, `steering_loop` and
    `simple_avoidance`. */
module Car {
  import opened Wrappers

  /** A call the server makes on the car or the camera library. */
  datatype Event =
    | Forward(speed: int)            // px.forward(speed)
    | Backward(speed: int)           // px.backward(speed)
    | Stop                           // px.stop()
    | DirServo(halfDegrees: int)     // px.set_dir_servo_angle(halfDegrees / 2)
    | CamTilt(degrees: int)          // px.set_cam_tilt_angle(degrees)
    | CamPan(degrees: int)           // px.set_cam_pan_angle(degrees)
    | FaceSwitch(on: bool)           // Vilib.face_detect_switch(on)
    | ColorDetect(color: string)     // Vilib.color_detect(color); "close" turns it off
    | QrSwitch(on: bool)             // Vilib.qrcode_detect_switch(on)
    | CameraOn                       // Vilib.camera_start(...) then Vilib.display(...)
    | ColorThread                    // the colour-cycling thread started

  /** Speed limits and the camera pan/tilt limits used by `handle_command`. */
  const MinSpeed := 0
  const MaxSpeed := 100
  const SpeedStep := 10
  const CamLimit := 35
  const CamStep := 5
  const InitialSpeed := 50

  /** `clamp(value, min_val, max_val) = max(min_val, min(max_val, value))`. */
  function Clamp(v: int, lo: int, hi: int): (r: int)
    ensures lo <= hi ==> lo <= r <= hi
    ensures lo <= v <= hi ==> r == v
    ensures lo <= hi && v < lo ==> r == lo
    ensures lo <= hi && hi < v ==> r == hi
    ensures hi < lo ==> r == lo
  {
    var m := if hi < v then hi else v;
    if lo < m then m else lo
  }

  /** Clamping twice is clamping once, whatever the bounds. */
  lemma ClampIdempotent(v: int, lo: int, hi: int)
    ensures Clamp(Clamp(v, lo, hi), lo, hi) == Clamp(v, lo, hi)
  {
  }

  /** Clamping keeps order: a larger value never clamps to a smaller one. */
  lemma ClampMonotone(v: int, w: int, lo: int, hi: int)
    requires v <= w
    ensures Clamp(v, lo, hi) <= Clamp(w, lo, hi)
  {
  }

  // ---------------------------------------------------------------------
  // Steering. The servo angle is a float moved in steps of 0.5 degrees from
  // 0.0 toward integer targets, so every value it takes is a whole number of
  // half degrees; the model counts in half degrees.
  // ---------------------------------------------------------------------

  /** `current_angle` and `target_angle`, in half degrees. */
  datatype Steering = Steering(current: int, target: int)

  const InitialSteering := Steering(0, 0)

  function Distance(a: int, b: int): nat {
    if a <= b then b - a else a - b
  }

  /** One pass of the `steering_loop` body: the angle moves half a degree
      toward the target, never past it, and the servo is set to the new
      angle. */
  function SteeringTick(s: Steering): (r: (Steering, Event))
    ensures r.0.target == s.target
    ensures s.current == s.target ==> r.0.current == s.current
    ensures s.current != s.target ==> Distance(r.0.current, s.target) + 1 == Distance(s.current, s.target)
    ensures Distance(s.current, r.0.current) <= 1
    ensures r.1 == DirServo(r.0.current)
  {
    var next :=
      if s.current < s.target then s.current + 1
      else if s.current > s.target then s.current - 1
      else s.current;
    (Steering(next, s.target), DirServo(next))
  }

  /** `n` passes of the steering loop. */
  function Ticks(s: Steering, n: nat): Steering
    decreases n
  {
    if n == 0 then s else Ticks(SteeringTick(s).0, n - 1)
  }

  /** After `n` passes the angle has closed the gap by `n` half degrees, or
      has reached the target and stays there; it never overshoots. */
  lemma {:induction false} TicksApproach(s: Steering, n: nat)
    ensures Ticks(s, n).target == s.target
    ensures n <= Distance(s.current, s.target) ==> Distance(Ticks(s, n).current, s.target) == Distance(s.current, s.target) - n
    ensures n >= Distance(s.current, s.target) ==> Ticks(s, n).current == s.target
    ensures s.current <= s.target ==> s.current <= Ticks(s, n).current <= s.target
    ensures s.target <= s.current ==> s.target <= Ticks(s, n).current <= s.current
    decreases n
  {
    if n > 0 {
      TicksApproach(SteeringTick(s).0, n - 1);
    }
  }

  /** From the centre, a turn target of `t` half degrees is reached in
      exactly |t| passes and not before. */
  lemma TurnFromCentre(t: int, n: nat)
    ensures n < Distance(0, t) ==> Ticks(Steering(0, t), n).current != t
    ensures n >= Distance(0, t) ==> Ticks(Steering(0, t), n).current == t
  {
    TicksApproach(Steering(0, t), n);
  }

  /** The `drive_loop` match table, with the turn angle `turn` (in half
      degrees) that each server uses: exact matches on the whole text set the
      steering target or drive the wheels at 80; any other text does
      nothing. */
  function DriveTable(st: Steering, text: string, turn: int): (r: (Steering, seq<Event>))
    ensures r.0.current == st.current
    ensures text == "start left" ==> r == (st.(target := -turn), [])
    ensures text == "start right" ==> r == (st.(target := turn), [])
    ensures text == "stop left" || text == "stop right" ==> r == (st.(target := 0), [])
    ensures text == "start forward" ==> r == (st, [Forward(80)])
    ensures text == "start backward" ==> r == (st, [Backward(80)])
    ensures text == "stop forward" || text == "stop backward" ==> r == (st, [Forward(0)])
    ensures text !in DriveTexts ==> r == (st, [])
    ensures r.0.target == st.target || r.0.target == -turn || r.0.target == 0 || r.0.target == turn
    ensures |r.1| <= 1
  {
    match text
    case "start forward" => (st, [Forward(80)])
    case "start backward" => (st, [Backward(80)])
    case "start left" => (st.(target := -turn), [])
    case "start right" => (st.(target := turn), [])
    case "stop forward" => (st, [Forward(0)])
    case "stop backward" => (st, [Forward(0)])
    case "stop left" => (st.(target := 0), [])
    case "stop right" => (st.(target := 0), [])
    case _ => (st, [])
  }

  /** The texts `drive_loop` reacts to. */
  const DriveTexts: seq<string> := [
    "start forward", "start backward", "start left", "start right",
    "stop forward", "stop backward", "stop left", "stop right"]

  // ---------------------------------------------------------------------
  // Obstacle avoidance.
  // ---------------------------------------------------------------------

  /** `safe_distance`, in centimetres. */
  const SafeDistance: real := 20.0

  /** One pass of the `simple_avoidance` loop. `reading` is the ultrasonic
      reading after the `float()` conversion; a missing car, a failed read,
      a `None` reading and an unconvertible one all arrive as `None`. The
      tick brakes with `forward(0)` exactly when a positive reading is
      within the safe distance, and otherwise makes no drive call. */
  function AvoidanceTick(reading: Option<real>): (r: seq<Event>)
    ensures r == [] || r == [Forward(0)]
    ensures r == [Forward(0)] <==> reading.Some? && 0.0 < reading.value <= SafeDistance
  {
    match reading
    case None => []
    case Some(d) =>
      if d > 0.0 then
        if d <= SafeDistance then [Forward(0)] else []
      else []
  }

  /** A reading that brakes keeps braking as the obstacle comes closer. */
  lemma AvoidanceCloser(d: real, e: real)
    requires AvoidanceTick(Some(d)) == [Forward(0)]
    requires 0.0 < e <= d
    ensures AvoidanceTick(Some(e)) == [Forward(0)]
  {
  }
}

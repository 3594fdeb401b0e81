/** The detection modes of `picar_server2.py`: three mode flags kept
    mutually exclusive by `toggle_face_detect`, `toggle_color_detect` and
    `set_color_detect`, the colour index cycled through six colours, and the
    `show_detect` report. The camera library's readings are inputs. */
module Detection {
  import opened Wrappers
  import opened Text
  import opened Car

  /** `color_list`. */
  const Colors: seq<string> := ["red", "orange", "yellow", "green", "blue", "purple"]

  /** `face_detect_on`, `color_detect_on`, `qr_detect_on` and
      `current_color_idx`. The index is an `int`: `set_color_detect` can store
      a negative one, which Python then reads from the end of the list. */
  datatype Modes = Modes(face: bool, color: bool, qr: bool, colorIndex: int)

  const InitialModes := Modes(false, false, false, 0)

  /** At most one detection mode is on. */
  predicate Exclusive(m: Modes) {
    && !(m.face && m.color)
    && !(m.face && m.qr)
    && !(m.color && m.qr)
  }

  /** What a mode change returns: the new modes, the message for the client
      and the camera-library calls made, in order. */
  datatype Change = Change(modes: Modes, message: string, events: seq<Event>)

  /** The "turn off other modes" preamble shared by the colour operations:
      face detection off, then QR detection off. */
  function FaceAndQrOff(m: Modes): (r: (Modes, seq<Event>))
    ensures !r.0.face && !r.0.qr && r.0.color == m.color && r.0.colorIndex == m.colorIndex
    ensures r.1 == (if m.face then [FaceSwitch(false)] else []) + (if m.qr then [QrSwitch(false)] else [])
  {
    var e1 := if m.face then [FaceSwitch(false)] else [];
    var e2 := if m.qr then [QrSwitch(false)] else [];
    (m.(face := false, qr := false), e1 + e2)
  }

  /** `toggle_face_detect()`: colour and QR detection off, then face
      detection flipped and reported. */
  function ToggleFace(m: Modes): (r: Change)
    ensures r.modes.face == !m.face
    ensures !r.modes.color && !r.modes.qr && r.modes.colorIndex == m.colorIndex
    ensures Exclusive(r.modes)
    ensures r.message == "Face detection: " + (if r.modes.face then "ON" else "OFF")
    ensures r.events == (if m.color then [ColorDetect("close")] else [])
                        + (if m.qr then [QrSwitch(false)] else [])
                        + [FaceSwitch(r.modes.face)]
  {
    var e1 := if m.color then [ColorDetect("close")] else [];
    var e2 := if m.qr then [QrSwitch(false)] else [];
    var on := !m.face;
    Change(Modes(on, false, false, m.colorIndex),
           "Face detection: " + (if on then "ON" else "OFF"),
           e1 + e2 + [FaceSwitch(on)])
  }

  /** Two face toggles in a row restore the face flag. */
  lemma ToggleFaceTwice(m: Modes)
    ensures ToggleFace(ToggleFace(m).modes).modes.face == m.face
    ensures ToggleFace(ToggleFace(m).modes).modes == m.(color := false, qr := false)
  {
  }

  /** `toggle_color_detect()`: face and QR detection off; then, if colour
      detection was on, the next colour, wrapping to OFF after the last one;
      if it was off, colour detection on with the first colour. */
  function ToggleColor(m: Modes): (r: Change)
    ensures !r.modes.face && !r.modes.qr
    ensures Exclusive(r.modes)
    ensures 0 <= r.modes.colorIndex < |Colors|
    ensures !m.color ==> r.modes.color && r.modes.colorIndex == 0
    ensures m.color ==> r.modes.colorIndex == (m.colorIndex + 1) % |Colors|
    ensures m.color ==> (r.modes.color <==> r.modes.colorIndex != 0)
    ensures r.message == "Color detection: " + (if r.modes.color then Colors[r.modes.colorIndex] else "OFF")
    ensures r.events == FaceAndQrOff(m).1 + [ColorDetect(if r.modes.color then Colors[r.modes.colorIndex] else "close")]
  {
    var (cleared, off) := FaceAndQrOff(m);
    if m.color then
      var idx := (m.colorIndex + 1) % |Colors|;
      if idx == 0 then
        Change(cleared.(color := false, colorIndex := idx), "Color detection: OFF", off + [ColorDetect("close")])
      else
        Change(cleared.(colorIndex := idx), "Color detection: " + Colors[idx], off + [ColorDetect(Colors[idx])])
    else
      Change(cleared.(color := true, colorIndex := 0), "Color detection: " + Colors[0], off + [ColorDetect(Colors[0])])
  }

  /** `k` colour toggles in a row. */
  function ToggleColorTimes(m: Modes, k: nat): Modes
    decreases k
  {
    if k == 0 then m else ToggleColorTimes(ToggleColor(m).modes, k - 1)
  }

  /** Starting from colour detection off, toggles 1 to 6 select the colours
      in list order. */
  lemma {:induction false} ColorCycleSelects(m: Modes, k: nat)
    requires !m.color
    requires 1 <= k <= |Colors|
    ensures ToggleColorTimes(m, k).color
    ensures ToggleColorTimes(m, k).colorIndex == k - 1
    decreases k
  {
    if k > 1 {
      ColorCycleSelects(m, k - 1);
      ToggleColorLast(m, k - 1);
    }
  }

  /** The last of `k + 1` toggles is one more toggle after the first `k`. */
  lemma {:induction false} ToggleColorLast(m: Modes, k: nat)
    ensures ToggleColorTimes(m, k + 1) == ToggleColor(ToggleColorTimes(m, k)).modes
    decreases k
  {
    if k > 0 {
      ToggleColorLast(ToggleColor(m).modes, k - 1);
    }
  }

  /** Seven toggles starting from colour detection off turn it off again,
      having gone once round all six colours. */
  lemma ColorCycleReturns(m: Modes)
    requires !m.color
    ensures !ToggleColorTimes(m, |Colors| + 1).color
    ensures ToggleColorTimes(m, |Colors| + 1).colorIndex == 0
  {
    ColorCycleSelects(m, |Colors|);
    ToggleColorLast(m, |Colors|);
  }

  /** What `set_color_detect` leads to: a change, or the `IndexError`
      raised by `color_list[color_num - 1]`, after the other modes were
      already switched off and the index already stored. */
  datatype SetOutcome =
    | Applied(change: Change)
    | IndexError(modes: Modes, events: seq<Event>)

  /** Python's `color_list[i]`: negative indices count from the end, and
      anything outside `-6 .. 5` has no element. */
  function ColorAt(i: int): (r: Option<string>)
    ensures r.Some? <==> -|Colors| <= i < |Colors|
    ensures 0 <= i < |Colors| ==> r == Some(Colors[i])
    ensures -|Colors| <= i < 0 ==> r == Some(Colors[i + |Colors|])
  {
    if 0 <= i < |Colors| then Some(Colors[i])
    else if -|Colors| <= i < 0 then Some(Colors[i + |Colors|])
    else None
  }

  /** `set_color_detect(color_num)`: face and QR detection off; 0 turns
      colour detection off, any other number selects colour `color_num - 1`. */
  function SetColor(m: Modes, n: int): (r: SetOutcome)
    ensures n == 0 ==> r == Applied(Change(Modes(false, false, false, m.colorIndex), "Color detection: OFF", FaceAndQrOff(m).1 + [ColorDetect("close")]))
    ensures 1 <= n <= |Colors| ==> r == Applied(Change(Modes(false, true, false, n - 1), "Color detection: " + Colors[n - 1], FaceAndQrOff(m).1 + [ColorDetect(Colors[n - 1])]))
    ensures r.IndexError? <==> n > |Colors| || n < 1 - |Colors|
    ensures r.Applied? ==> Exclusive(r.change.modes) && !r.change.modes.face && !r.change.modes.qr
    ensures r.IndexError? ==> r.modes == Modes(false, m.color, false, n - 1)
  {
    var (cleared, off) := FaceAndQrOff(m);
    if n == 0 then
      Applied(Change(cleared.(color := false), "Color detection: OFF", off + [ColorDetect("close")]))
    else
      match ColorAt(n - 1)
      case None => IndexError(cleared.(colorIndex := n - 1), off)
      case Some(c) => Applied(Change(cleared.(color := true, colorIndex := n - 1), "Color detection: " + c, off + [ColorDetect(c)]))
  }

  /** Every mode change leaves at most one mode on, whatever the modes were
      before. */
  lemma ChangesAreExclusive(m: Modes, n: int)
    ensures Exclusive(ToggleFace(m).modes)
    ensures Exclusive(ToggleColor(m).modes)
    ensures SetColor(m, n).Applied? ==> Exclusive(SetColor(m, n).change.modes)
    ensures SetColor(m, n).IndexError? ==> Exclusive(SetColor(m, n).modes)
  {
  }

  // ---------------------------------------------------------------------
  // The `show_detect` report.
  // ---------------------------------------------------------------------

  /** The camera library's `detect_obj_parameter` entries the reports read.
      `qrData` is `None` when the library holds Python `None`. */
  datatype Readings = Readings(
    humanN: int, humanX: int, humanY: int, humanW: int, humanH: int,
    colorN: int, colorX: int, colorY: int,
    qrData: Option<string>)

  const NoDetection := "No detection mode active"

  function FacePart(rd: Readings): (r: string)
    ensures "Faces: " <= r
  {
    if rd.humanN > 0 then "Faces: " + IntToString(rd.humanN) + " at (" + IntToString(rd.humanX) + "," + IntToString(rd.humanY) + ")"
    else "Faces: none"
  }

  function ColorPart(rd: Readings): (r: string)
    ensures "Color: " <= r
  {
    if rd.colorN > 0 then "Color: found at (" + IntToString(rd.colorX) + "," + IntToString(rd.colorY) + ")"
    else "Color: none"
  }

  /** A QR payload counts as nothing when it is `None`, empty or the text
      "None". */
  function QrPart(rd: Readings): (r: string)
    ensures "QR: " <= r
    ensures rd.qrData.None? || rd.qrData.value == "" || rd.qrData.value == "None" ==> r == "QR: none"
    ensures rd.qrData.Some? && rd.qrData.value != "" && rd.qrData.value != "None" ==> r == "QR: " + rd.qrData.value
  {
    match rd.qrData
    case Some(d) => if d != "" && d != "None" then "QR: " + d else "QR: none"
    case None => "QR: none"
  }

  /** The parts `get_detection_info` collects: one per mode that is on, in
      the order face, colour, QR. */
  function InfoParts(m: Modes, rd: Readings): (parts: seq<string>)
    ensures |parts| == (if m.face then 1 else 0) + (if m.color then 1 else 0) + (if m.qr then 1 else 0)
    ensures m.face ==> parts[0] == FacePart(rd)
    ensures m.color ==> parts[if m.face then 1 else 0] == ColorPart(rd)
    ensures m.qr ==> parts[|parts| - 1] == QrPart(rd)
  {
    (if m.face then [FacePart(rd)] else [])
    + (if m.color then [ColorPart(rd)] else [])
    + (if m.qr then [QrPart(rd)] else [])
  }

  /** `get_detection_info()`: "No detection mode active" exactly when no mode
      is on; otherwise the report starts with the part of the first mode on
      and ends with the part of the last, in face, colour, QR order. */
  function DetectionInfo(m: Modes, rd: Readings): (r: string)
    ensures r == NoDetection <==> !m.face && !m.color && !m.qr
    ensures m.face ==> FacePart(rd) <= r
    ensures !m.face && m.color ==> ColorPart(rd) <= r
    ensures !m.face && !m.color && m.qr ==> r == QrPart(rd)
    ensures m.qr ==> |QrPart(rd)| <= |r| && r[|r| - |QrPart(rd)|..] == QrPart(rd)
    ensures m.color && !m.qr ==> |ColorPart(rd)| <= |r| && r[|r| - |ColorPart(rd)|..] == ColorPart(rd)
    ensures m.face && !m.color && !m.qr ==> r == FacePart(rd)
  {
    var parts := InfoParts(m, rd);
    if parts == [] then NoDetection
    else
      var r := Join(parts, " | ");
      JoinStartsWithFirst(parts, " | ");
      JoinEndsWithLast(parts, " | ");
      assert r[0] == parts[0][0];
      r
  }

  /** With the modes exclusive, the report is the single active mode's part. */
  lemma DetectionInfoSingle(m: Modes, rd: Readings)
    requires Exclusive(m)
    ensures m.face ==> DetectionInfo(m, rd) == FacePart(rd)
    ensures m.color ==> DetectionInfo(m, rd) == ColorPart(rd)
    ensures m.qr ==> DetectionInfo(m, rd) == QrPart(rd)
  {
  }

  /** With two modes on, the report is their parts joined by " | ", in
      face, colour, QR order. */
  lemma DetectionInfoPairs(m: Modes, rd: Readings)
    ensures m.face && m.color && !m.qr ==> DetectionInfo(m, rd) == FacePart(rd) + " | " + ColorPart(rd)
    ensures m.face && !m.color && m.qr ==> DetectionInfo(m, rd) == FacePart(rd) + " | " + QrPart(rd)
    ensures !m.face && m.color && m.qr ==> DetectionInfo(m, rd) == ColorPart(rd) + " | " + QrPart(rd)
  {
    var parts := InfoParts(m, rd);
    if |parts| == 2 {
      assert DetectionInfo(m, rd) == Join(parts, " | ");
      assert parts[1..] == [parts[1]];
      assert Join(parts, " | ") == parts[0] + " | " + parts[1];
    }
  }

  /** With every mode on, the report is the three parts joined by " | ". */
  lemma DetectionInfoAll(m: Modes, rd: Readings)
    requires m.face && m.color && m.qr
    ensures DetectionInfo(m, rd) == FacePart(rd) + " | " + ColorPart(rd) + " | " + QrPart(rd)
  {
    var parts := InfoParts(m, rd);
    assert parts == [FacePart(rd), ColorPart(rd), QrPart(rd)];
    assert parts[1..] == [ColorPart(rd), QrPart(rd)];
    assert parts[1..][1..] == [QrPart(rd)];
    var f, c, q := FacePart(rd), ColorPart(rd), QrPart(rd);
    assert Join(parts[1..], " | ") == c + " | " + q;
    assert Join(parts, " | ") == f + " | " + (c + " | " + q);
    assert f + " | " + (c + " | " + q) == f + " | " + c + " | " + q;
  }
}

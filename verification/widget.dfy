/** The Qt client `picar_widget.py`: which keys get buttons, what a press
    and a release send, and the bytes `_send_command` writes and reads. */
module Widget {
  import opened Wrappers
  import opened Seqs
  import opened Bytes
  import opened Text
  import opened Framing
  import ServerOne

  /** `available_keys`. */
  const AvailableKeys := "wasxdikjl+-=_rpnhq"

  /** `key_to_command`. */
  const KeyToCommand: map<char, string> := map[
    'W' := "forward", 'A' := "left", 'S' := "backward", 'D' := "right",
    'I' := "cam_up", 'K' := "cam_down", 'J' := "cam_left", 'L' := "cam_right",
    '=' := "speed_increase", '-' := "speed_decrease",
    'P' := "take_photo", 'N' := "show_detect", 'H' := "help"]

  /** `CONTINUOUS_KEYS`: start on press, stop on release. */
  const ContinuousKeys: set<char> := {'W', 'A', 'S', 'D', 'I', 'J', 'K', 'L', '=', '-'}

  /** `TOGGLE_KEYS`: one start on release. */
  const ToggleKeys: set<char> := {'P', 'N', 'H'}

  /** The logical key of a character: `ch.upper() if ch.isalpha() else ch`,
      for the ASCII letters the key string uses. */
  function Canonical(ch: char): (k: char)
    ensures 'a' <= ch <= 'z' ==> k as int == ch as int - 32
    ensures !('a' <= ch <= 'z') ==> k == ch
  {
    if 'a' <= ch <= 'z' then (ch as int - 32) as char else ch
  }

  /** The loop building the buttons: the logical key of each character, in
      order, skipping those `key_to_command` has no entry for. */
  function ButtonKeys(chars: string): (r: seq<char>)
    ensures forall i :: 0 <= i < |r| ==> r[i] in KeyToCommand
    ensures forall i :: 0 <= i < |chars| && Canonical(chars[i]) in KeyToCommand ==> Canonical(chars[i]) in r
  {
    if chars == [] then []
    else
      var k := Canonical(chars[0]);
      var rest := ButtonKeys(chars[1..]);
      if k in KeyToCommand then [k] + rest else rest
  }

  /** The buttons the widget shows: exactly the keys of `key_to_command`. */
  lemma Buttons()
    ensures forall k :: k in ButtonKeys(AvailableKeys) <==> k in KeyToCommand
  {
    DriveButtons();
    CameraButtons();
    OtherButtons();
  }

  /** `x`, `+`, `_`, `r` and `q` are in the key string but get no button. */
  lemma SkippedKeys()
    ensures Canonical('x') !in KeyToCommand && Canonical('+') !in KeyToCommand && Canonical('_') !in KeyToCommand
    ensures Canonical('r') !in KeyToCommand && Canonical('q') !in KeyToCommand
  {
    assert Canonical('x') == 'X' && Canonical('r') == 'R' && Canonical('q') == 'Q';
  }

  /** The driving keys get buttons. */
  lemma DriveButtons()
    ensures 'W' in ButtonKeys(AvailableKeys) && 'A' in ButtonKeys(AvailableKeys) && 'S' in ButtonKeys(AvailableKeys) && 'D' in ButtonKeys(AvailableKeys)
  {
    assert Canonical(AvailableKeys[0]) == 'W';
    assert Canonical(AvailableKeys[1]) == 'A';
    assert Canonical(AvailableKeys[2]) == 'S';
    assert Canonical(AvailableKeys[4]) == 'D';
  }

  /** The camera keys get buttons. */
  lemma CameraButtons()
    ensures 'I' in ButtonKeys(AvailableKeys) && 'K' in ButtonKeys(AvailableKeys) && 'J' in ButtonKeys(AvailableKeys) && 'L' in ButtonKeys(AvailableKeys)
  {
    assert Canonical(AvailableKeys[5]) == 'I';
    assert Canonical(AvailableKeys[6]) == 'K';
    assert Canonical(AvailableKeys[7]) == 'J';
    assert Canonical(AvailableKeys[8]) == 'L';
  }

  /** The speed and one-shot keys get buttons. */
  lemma OtherButtons()
    ensures '=' in ButtonKeys(AvailableKeys) && '-' in ButtonKeys(AvailableKeys) && 'P' in ButtonKeys(AvailableKeys) && 'N' in ButtonKeys(AvailableKeys) && 'H' in ButtonKeys(AvailableKeys)
  {
    assert Canonical(AvailableKeys[11]) == '=';
    assert Canonical(AvailableKeys[10]) == '-';
    assert Canonical(AvailableKeys[14]) == 'P';
    assert Canonical(AvailableKeys[15]) == 'N';
    assert Canonical(AvailableKeys[16]) == 'H';
  }

  /** Every key with a command is either continuous or a toggle, never both. */
  lemma KeyKinds()
    ensures ContinuousKeys !! ToggleKeys
    ensures ContinuousKeys + ToggleKeys == KeyToCommand.Keys
  {
  }

  /** `_send_command(action, key_char)`: the bytes written to the socket,
      `"<action> <command>\n"`, or nothing for a key without a command. */
  function CommandBytes(action: string, key: char): (r: Option<seq<Byte>>)
    ensures r.None? <==> key !in KeyToCommand
    ensures r.Some? ==> r.value == Encode(action + " " + KeyToCommand[key] + "\n")
  {
    if key in KeyToCommand then Some(Encode(action + " " + KeyToCommand[key] + "\n")) else None
  }

  /** A command sent and its answer: the bytes written, then what
      `recv_multiline` makes of the server's reply. */
  datatype Exchange = Exchange(sent: seq<Byte>, reply: Read<string>)

  /** `_send_command` with the socket's incoming side `i`: nothing at all
      for a key without a command, otherwise the command and the reply. */
  function SendCommand(action: string, key: char, i: Inbox): (r: Option<Exchange>)
    ensures r.None? <==> key !in KeyToCommand
    ensures r.Some? ==> r.value.sent == CommandBytes(action, key).value
    ensures r.Some? ==> (r.value.reply.Got? <==> EndMarker in WireLines(Pending(i)))
    ensures r.Some? && r.value.reply.Got? ==>
      var n := IndexOf(WireLines(Pending(i)), EndMarker);
      && r.value.reply.value == Join(WireLines(Pending(i))[..n], "\n")
      && Pending(r.value.reply.rest) == AfterLines(Pending(i), n + 1)
  {
    match CommandBytes(action, key)
    case None => None
    case Some(bytes) =>
      RecvMultilineReadsWire(i);
      Some(Exchange(bytes, RecvMultiline(i)))
  }

  /** A command and the server's answer to it: when the server wrote a
      message of transparent lines with `send_multiline`, the widget gets
      that message back and the bytes after the block stay pending. */
  lemma CommandExchange(action: string, key: char, msg: string, i: Inbox, tail: seq<Byte>)
    requires key in KeyToCommand
    requires AllTransparent(Split(msg, '\n'))
    requires Pending(i) == Encode(msg + "\n" + EndMarker + "\n") + tail
    ensures SendCommand(action, key, i).Some?
    ensures SendCommand(action, key, i).value.sent == Encode(action + " " + KeyToCommand[key] + "\n")
    ensures SendCommand(action, key, i).value.reply.Got?
    ensures SendCommand(action, key, i).value.reply.value == msg
    ensures Pending(SendCommand(action, key, i).value.reply.rest) == tail
  {
    MultilineRoundTrip(msg, i, tail);
  }

  /** What a button event asks `_send_command` for: an action and a key. */
  datatype Request = Request(action: string, key: char)

  /** `buttonPressed`: a continuous key starts; anything else, and a
      button with no key, sends nothing. */
  function Pressed(key: Option<char>): (r: seq<Request>)
    ensures |r| <= 1
    ensures r != [] <==> key.Some? && key.value in ContinuousKeys
    ensures r != [] ==> r == [Request("start", key.value)]
  {
    match key
    case Some(k) => if k in ContinuousKeys then [Request("start", k)] else []
    case None => []
  }

  /** `buttonReleased`: a continuous key stops, a toggle key starts. */
  function Released(key: Option<char>): (r: seq<Request>)
    ensures |r| <= 1
    ensures r != [] <==> key.Some? && (key.value in ContinuousKeys || key.value in ToggleKeys)
    ensures key.Some? && key.value in ContinuousKeys ==> r == [Request("stop", key.value)]
    ensures key.Some? && key.value in ToggleKeys ==> r == [Request("start", key.value)]
  {
    match key
    case Some(k) =>
      if k in ContinuousKeys then [Request("stop", k)]
      else if k in ToggleKeys then [Request("start", k)]
      else []
    case None => []
  }

  /** Pressing and releasing a button: start then stop for a continuous key,
      a single start for a toggle key, and every request has a command to
      send. */
  lemma PressThenRelease(k: char)
    requires k in KeyToCommand
    ensures k in ContinuousKeys ==> Pressed(Some(k)) + Released(Some(k)) == [Request("start", k), Request("stop", k)]
    ensures k in ToggleKeys ==> Pressed(Some(k)) + Released(Some(k)) == [Request("start", k)]
    ensures forall q :: q in Pressed(Some(k)) + Released(Some(k)) ==> CommandBytes(q.action, q.key).Some?
  {
    KeyKinds();
  }

  // ---------------------------------------------------------------------
  // The command line as the server sees it.
  // ---------------------------------------------------------------------

  /** A word of the protocol: non-empty, ASCII, no whitespace. */
  predicate IsWord(w: string) {
    w != [] && IsAscii(w) && NoSpace(w)
  }

  /** The command names of `key_to_command`. */
  lemma CommandNames()
    ensures forall k :: k in KeyToCommand ==> KeyToCommand[k] in ["forward", "left", "backward", "right", "cam_up", "cam_down", "cam_left", "cam_right", "speed_increase", "speed_decrease", "take_photo", "show_detect", "help"]
  {
  }

  lemma DriveWords()
    ensures IsWord("start") && IsWord("stop")
    ensures IsWord("forward") && IsWord("left") && IsWord("backward") && IsWord("right")
  {
  }

  lemma CameraWords()
    ensures IsWord("cam_up") && IsWord("cam_down") && IsWord("cam_left") && IsWord("cam_right")
  {
  }

  lemma SpeedWords()
    ensures IsWord("speed_increase")
    ensures IsWord("speed_decrease")
  {
  }

  lemma OneShotWords()
    ensures IsWord("take_photo")
    ensures IsWord("show_detect")
    ensures IsWord("help")
  {
  }

  /** Both actions and every command name are protocol words. */
  lemma CommandsAreWords()
    ensures IsWord("start") && IsWord("stop")
    ensures forall k :: k in KeyToCommand ==> IsWord(KeyToCommand[k])
  {
    CommandNames();
    DriveWords();
    CameraWords();
    SpeedWords();
    OneShotWords();
  }

  lemma NoSpaceNoLF(w: string)
    requires NoSpace(w)
    ensures '\n' !in w
  {
  }

  /** `strip()` leaves text alone that neither starts nor ends with
      whitespace. */
  lemma StripUnpadded(s: string)
    requires s != [] && !IsSpace(s[0]) && !IsSpace(s[|s| - 1])
    ensures Strip(s) == s
  {
  }

  /** The line `_send_command` writes, as the server's main loop reads it:
      ASCII, one line, nothing for `rstrip("\r")` or `strip()` to remove, and
      split back into the two words. */
  lemma {:induction false} CommandLine(action: string, command: string)
    requires IsWord(action) && IsWord(command)
    ensures IsAscii(action + " " + command) && '\n' !in action + " " + command
    ensures RStrip(action + " " + command, '\r') == action + " " + command
    ensures ServerOne.PreParse(action + " " + command) == ServerOne.Command(action, command, action + " " + command)
  {
    var line := action + " " + command;
    assert IsAscii(line);
    NoSpaceNoLF(action);
    NoSpaceNoLF(command);
    assert '\n' !in line;
    assert RStrip(line, '\r') == line by { assert line[|line| - 1] == command[|command| - 1]; }
    StripUnpadded(line);
    TokensOfPair(action, command);
  }

  /** Writing a line with its own "\n" puts the same bytes on the wire as
      `send_response` does. */
  lemma LineBytes(line: string)
    requires '\n' !in line
    ensures Encode(line + "\n") == SendResponse(line)
  {
    EncodeAppend(line, "\n");
  }

  /** The server's `recv_line` returns a line `"<action> <command>"` of two
      protocol words written with its "\n", and the main loop's pre-parse
      gives back the two words, with the line itself as the drive-table
      text. With `CommandsAreWords` this covers every line `_send_command`
      writes (`CommandBytes`). */
  lemma {:induction false} ServerReadsCommand(action: string, command: string, i: Inbox, tail: seq<Byte>)
    requires IsWord(action) && IsWord(command)
    requires Pending(i) == Encode(action + " " + command + "\n") + tail
    ensures RecvLine(i).Got?
    ensures Pending(RecvLine(i).rest) == tail
    ensures ServerOne.PreParse(RecvLine(i).value) == ServerOne.Command(action, command, action + " " + command)
  {
    var line := action + " " + command;
    CommandLine(action, command);
    LineBytes(line);
    RecvLineOfResponse(line, i, tail);
  }

  /** What the widget writes for a button, as the server reads it: for
      `start` or `stop` and any key with a command, the server's `recv_line`
      returns the line `CommandBytes` wrote and the pre-parse gives back the
      action and the key's command. */
  lemma ServerReadsKey(action: string, key: char, i: Inbox, tail: seq<Byte>)
    requires action == "start" || action == "stop"
    requires key in KeyToCommand
    requires Pending(i) == CommandBytes(action, key).value + tail
    ensures RecvLine(i).Got?
    ensures Pending(RecvLine(i).rest) == tail
    ensures ServerOne.PreParse(RecvLine(i).value) == ServerOne.Command(action, KeyToCommand[key], action + " " + KeyToCommand[key])
  {
    CommandsAreWords();
    ServerReadsCommand(action, KeyToCommand[key], i, tail);
  }
}

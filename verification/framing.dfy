/** Line framing on the control connection (picar-server.py and
    picar_widget.py): `recv_line` cuts the incoming byte stream at line feeds,
    `send_response` / `send_multiline` write newline-terminated lines followed
    by an `<END>` sentinel line, and `recv_multiline` collects the lines of
    one block up to that sentinel. */
module Framing {
  import opened Seqs
  import opened Bytes
  import opened Text

  /** The sentinel line that closes a multi-line block. */
  const EndMarker := "<END>"

  /** The receiving side of a connection: the module-level `recv_buffer`
      followed by the chunks that successive `sock.recv(1024)` calls return,
      in order. An empty chunk is what `recv` returns once the peer closed. */
  datatype Inbox = Inbox(buffer: seq<Byte>, arrivals: seq<seq<Byte>>)

  /** The next `recv` reports the connection closed: an empty chunk, or no
      chunk left. The real `recv` would block in the second case; a finite
      list of arrivals stands for a connection that ends after them. */
  predicate AtClose(i: Inbox) {
    i.arrivals == [] || i.arrivals[0] == []
  }

  /** The bytes that arrive before the close. */
  function Upcoming(arrivals: seq<seq<Byte>>): seq<Byte> {
    if arrivals == [] || arrivals[0] == [] then [] else arrivals[0] + Upcoming(arrivals[1..])
  }

  /** Everything a reader can still obtain: the buffer, then the bytes to come. */
  function Pending(i: Inbox): seq<Byte> {
    i.buffer + Upcoming(i.arrivals)
  }

  /** The result of a read: a value and the connection state after it, or the
      close (Python's `None`) with the state in which the close was seen. */
  datatype Read<T> = Got(value: T, rest: Inbox) | Cut(rest: Inbox)

  /** The inner loop of `recv_line`: append received chunks to the buffer
      until it holds a line feed or the next `recv` reports the close. */
  function Fill(i: Inbox): (r: Inbox)
    ensures Pending(r) == Pending(i)
    ensures LF in r.buffer || AtClose(r)
    ensures LF in i.buffer ==> r == i
    decreases |i.arrivals|
  {
    if LF in i.buffer || AtClose(i) then i
    else
      var next := Inbox(i.buffer + i.arrivals[0], i.arrivals[1..]);
      assert Pending(next) == Pending(i);
      Fill(next)
  }

  /** `Fill` takes chunks off the front of the arrivals, in order. */
  lemma {:induction false} FillTakesChunksInOrder(i: Inbox)
    ensures |Fill(i).arrivals| <= |i.arrivals|
    ensures Fill(i).arrivals == i.arrivals[|i.arrivals| - |Fill(i).arrivals|..]
    decreases |i.arrivals|
  {
    if !(LF in i.buffer || AtClose(i)) {
      var next := Inbox(i.buffer + i.arrivals[0], i.arrivals[1..]);
      FillTakesChunksInOrder(next);
    }
  }

  /** A line without a line feed byte decodes and strips to text without '\n'. */
  lemma StrippedNoLF(bs: seq<Byte>)
    requires LF !in bs
    ensures '\n' !in RStrip(Decode(bs), '\r')
  {
    var text := Decode(bs);
    DecodeNoLF(bs);
    var line := RStrip(text, '\r');
    assert line == text[..|line|];
  }

  /** The first line feed of a buffer is the first of the buffer followed by
      anything. */
  lemma CutAppend(a: seq<Byte>, b: seq<Byte>, k: nat)
    requires LF in a && k == IndexOf(a, LF)
    ensures LF in a + b && IndexOf(a + b, LF) == k
    ensures (a + b)[..k] == a[..k]
    ensures (a + b)[k + 1..] == a[k + 1..] + b
  {
    IndexOfAppend(a, b, LF);
  }

  /** The first branch of `recv_line`'s loop, once the buffer `f` holds a
      line feed: the line before it, and the buffer after it. Everything
      pending, `p`, is the filled buffer followed by the bytes to come. */
  function CutLine(p: seq<Byte>, f: Inbox): (r: Read<string>)
    requires p == Pending(f) && LF in f.buffer
    ensures r.Got? && LF in p
    ensures r.value == RStrip(Decode(p[..IndexOf(p, LF)]), '\r')
    ensures Pending(r.rest) == p[IndexOf(p, LF) + 1..]
    ensures '\n' !in r.value
    ensures r.rest.arrivals == f.arrivals
  {
    var k := IndexOf(f.buffer, LF);
    CutAppend(f.buffer, Upcoming(f.arrivals), k);
    StrippedNoLF(f.buffer[..k]);
    Got(RStrip(Decode(f.buffer[..k]), '\r'), Inbox(f.buffer[k + 1..], f.arrivals))
  }

  /** `recv_line(sock)`: the text before the first line feed of the stream,
      with trailing carriage returns removed; the bytes after that line feed
      stay buffered. `Cut` exactly when no line feed arrives before the close. */
  function RecvLine(i: Inbox): (r: Read<string>)
    ensures r.Got? <==> LF in Pending(i)
    ensures r.Got? ==>
      var k := IndexOf(Pending(i), LF);
      && r.value == RStrip(Decode(Pending(i)[..k]), '\r')
      && Pending(r.rest) == Pending(i)[k + 1..]
    ensures r.Got? ==> |Pending(r.rest)| < |Pending(i)|
    ensures r.Got? ==> '\n' !in r.value
    ensures r.Cut? ==> AtClose(r.rest) && r.rest.buffer == Pending(i)
  {
    var f := Fill(i);
    if LF in f.buffer then CutLine(Pending(i), f)
    else
      assert Pending(f) == f.buffer;
      Cut(f)
  }

  /** `recv_line` takes chunks off the front of the arrivals, in order, and
      never puts one back. */
  lemma RecvLineTakesChunksInOrder(i: Inbox)
    ensures |RecvLine(i).rest.arrivals| <= |i.arrivals|
    ensures RecvLine(i).rest.arrivals == i.arrivals[|i.arrivals| - |RecvLine(i).rest.arrivals|..]
  {
    FillTakesChunksInOrder(i);
  }

  /** `send_response(msg)`: the message as UTF-8, with a newline added
      unless it already ends in one. */
  function SendResponse(msg: string): (r: seq<Byte>)
    ensures r != [] && r[|r| - 1] == LF
    ensures '\n' !in msg ==> r == Encode(msg) + [LF]
    ensures msg != [] && msg[|msg| - 1] == '\n' ==> r == Encode(msg)
  {
    var line := if msg != [] && msg[|msg| - 1] == '\n' then msg else msg + "\n";
    assert line == line[..|line| - 1] + "\n";
    EncodeAppend(line[..|line| - 1], "\n");
    EncodeAppend(msg, "\n");
    Encode(line)
  }

  /** One `send_response` per line, in order. */
  function SendEach(lines: seq<string>): seq<Byte> {
    if lines == [] then [] else SendResponse(lines[0]) + SendEach(lines[1..])
  }

  /** `send_multiline(msg)`: every '\n'-separated piece of the message as its
      own line, then the `<END>` line; on the wire that is the message itself
      followed by "\n<END>\n". */
  function SendMultiline(msg: string): (r: seq<Byte>)
    ensures r == Encode(msg + "\n" + EndMarker + "\n")
  {
    var pieces := Split(msg, '\n');
    SendEachIsJoin(pieces);
    EncodeAppend(msg + "\n", EndMarker + "\n");
    assert msg + "\n" + EndMarker + "\n" == (msg + "\n") + (EndMarker + "\n");
    SendEach(pieces) + SendResponse(EndMarker)
  }

  /** An empty response is sent as an empty line and the `<END>` line. */
  lemma EmptyBlock()
    ensures SendMultiline("") == Encode("\n" + EndMarker + "\n")
  {
    assert "" + "\n" + EndMarker + "\n" == "\n" + EndMarker + "\n";
  }

  /** Sending lines that hold no '\n' one by one puts their '\n'-join, plus a
      final line feed, on the wire. */
  lemma {:induction false} SendEachIsJoin(lines: seq<string>)
    requires |lines| >= 1
    requires forall k :: 0 <= k < |lines| ==> '\n' !in lines[k]
    ensures SendEach(lines) == Encode(Join(lines, "\n") + "\n")
  {
    if |lines| == 1 {
      assert SendEach(lines) == SendResponse(lines[0]) + SendEach([]);
      EncodeAppend(lines[0], "\n");
    } else {
      SendEachIsJoin(lines[1..]);
      var head := lines[0];
      var tail := Join(lines[1..], "\n") + "\n";
      assert Join(lines, "\n") + "\n" == (head + "\n") + tail;
      EncodeAppend(head + "\n", tail);
      EncodeAppend(head, "\n");
    }
  }


  /** The loop of `recv_multiline`: the lines read before the `<END>` line. */
  function RecvLines(i: Inbox): (r: Read<seq<string>>)
    ensures r.Got? ==> EndMarker !in r.value
    ensures r.Got? ==> |Pending(r.rest)| < |Pending(i)|
    ensures r.Got? ==> NoneContain(r.value, '\n')
    ensures r.Cut? ==> AtClose(r.rest)
    decreases |Pending(i)|
  {
    var first := RecvLine(i);
    if first.Cut? then Cut(first.rest)
    else if first.value == EndMarker then Got([], first.rest)
    else
      var more := RecvLines(first.rest);
      if more.Cut? then more
      else
        var lines := [first.value] + more.value;
        assert lines[1..] == more.value;
        Got(lines, more.rest)
  }

  /** `recv_multiline(sock)`: the lines before the `<END>` line, joined with
      '\n'; `Cut` if the connection closes before the sentinel arrives. */
  function RecvMultiline(i: Inbox): (r: Read<string>)
    ensures r.Got? ==> EndMarker !in Split(r.value, '\n')
    ensures r.Got? ==> |Pending(r.rest)| < |Pending(i)|
    ensures r.Cut? ==> AtClose(r.rest)
  {
    match RecvLines(i)
    case Cut(rest) => Cut(rest)
    case Got(lines, rest) =>
      if lines == [] then Got("", rest)
      else
        SplitJoin(lines, '\n');
        Got(Join(lines, "\n"), rest)
  }

  // ---------------------------------------------------------------------
  // What the readers return, for any incoming bytes.
  // ---------------------------------------------------------------------

  /** The complete lines of a byte stream as `recv_line` hands them out: the
      bytes before each line feed, decoded, trailing carriage returns
      removed. Bytes after the last line feed make no line. */
  function WireLines(bs: seq<Byte>): seq<string>
    decreases |bs|
  {
    if LF !in bs then []
    else
      var k := IndexOf(bs, LF);
      [RStrip(Decode(bs[..k]), '\r')] + WireLines(bs[k + 1..])
  }

  /** The bytes that follow the first `n` complete lines. */
  function AfterLines(bs: seq<Byte>, n: nat): seq<Byte>
    requires n <= |WireLines(bs)|
    decreases n
  {
    if n == 0 then bs
    else AfterLines(bs[IndexOf(bs, LF) + 1..], n - 1)
  }

  /** A stream holding a line feed: its first line, then the lines after
      that line feed. */
  lemma WireLinesCons(bs: seq<Byte>, n: nat)
    requires LF in bs
    ensures WireLines(bs) == [RStrip(Decode(bs[..IndexOf(bs, LF)]), '\r')] + WireLines(bs[IndexOf(bs, LF) + 1..])
    ensures n <= |WireLines(bs[IndexOf(bs, LF) + 1..])| ==>
      n + 1 <= |WireLines(bs)| && AfterLines(bs, n + 1) == AfterLines(bs[IndexOf(bs, LF) + 1..], n)
  {
  }

  /** One `recv_line` takes the first complete line off the stream. */
  lemma RecvLineReadsWire(i: Inbox)
    ensures RecvLine(i).Got? <==> WireLines(Pending(i)) != []
    ensures RecvLine(i).Got? ==>
      && WireLines(Pending(i)) == [RecvLine(i).value] + WireLines(Pending(RecvLine(i).rest))
      && Pending(RecvLine(i).rest) == AfterLines(Pending(i), 1)
  {
    var p := Pending(i);
    var r := RecvLine(i);
    if LF in p {
      WireFirst(p, r.value, Pending(r.rest));
    } else {
      assert WireLines(p) == [];
    }
  }

  /** The first complete line of a stream, and the bytes after its line
      feed, are the head of `WireLines` and what follows one line. */
  lemma WireFirst(p: seq<Byte>, line: string, after: seq<Byte>)
    requires LF in p
    requires line == RStrip(Decode(p[..IndexOf(p, LF)]), '\r') && after == p[IndexOf(p, LF) + 1..]
    ensures WireLines(p) == [line] + WireLines(after) && after == AfterLines(p, 1)
  {
    WireLinesCons(p, 0);
  }

  /** `recv_multiline`'s loop, for any incoming bytes: it returns exactly
      when a complete `<END>` line arrives before the close, with the lines
      before the first such line, and leaves the bytes after it pending. */
  lemma {:induction false} RecvLinesReadsWire(i: Inbox)
    ensures RecvLines(i).Got? <==> EndMarker in WireLines(Pending(i))
    ensures RecvLines(i).Got? ==>
      var n := IndexOf(WireLines(Pending(i)), EndMarker);
      && RecvLines(i).value == WireLines(Pending(i))[..n]
      && Pending(RecvLines(i).rest) == AfterLines(Pending(i), n + 1)
    decreases |Pending(i)|
  {
    RecvLineReadsWire(i);
    var first := RecvLine(i);
    if first.Got? && first.value != EndMarker {
      var rest := first.rest;
      var more := WireLines(Pending(rest));
      RecvLinesReadsWire(rest);
      if EndMarker in more {
        var n := IndexOf(more, EndMarker);
        IndexOfCons(first.value, more, EndMarker);
        WireLinesCons(Pending(i), n + 1);
      }
    }
  }

  /** `recv_multiline`, for any incoming bytes: `None` unless a complete
      `<END>` line arrives before the close; otherwise the lines before the
      first one, joined with '\n', and the bytes after it stay pending. */
  lemma RecvMultilineReadsWire(i: Inbox)
    ensures RecvMultiline(i).Got? <==> EndMarker in WireLines(Pending(i))
    ensures RecvMultiline(i).Got? ==>
      var n := IndexOf(WireLines(Pending(i)), EndMarker);
      && RecvMultiline(i).value == Join(WireLines(Pending(i))[..n], "\n")
      && Pending(RecvMultiline(i).rest) == AfterLines(Pending(i), n + 1)
  {
    RecvLinesReadsWire(i);
  }

  /** A line the sender can put on the wire and the receiver gets back
      unchanged: ASCII, a single line, not the sentinel, and not ending in a
      carriage return (which `recv_line` would strip). */
  predicate Transparent(line: string) {
    && IsAscii(line)
    && '\n' !in line
    && line != EndMarker
    && (line == [] || line[|line| - 1] != '\r')
  }

  predicate AllTransparent(lines: seq<string>) {
    lines == [] || (Transparent(lines[0]) && AllTransparent(lines[1..]))
  }

  /** `recv_line` returns a single line written by `send_response`, and the
      bytes after it stay pending. */
  lemma RecvLineOfResponse(line: string, i: Inbox, tail: seq<Byte>)
    requires IsAscii(line) && '\n' !in line
    requires Pending(i) == SendResponse(line) + tail
    ensures RecvLine(i).Got?
    ensures RecvLine(i).value == RStrip(line, '\r')
    ensures Pending(RecvLine(i).rest) == tail
  {
    assert SendResponse(line) == Encode(line) + [LF];
    ResponseBytes(line, Pending(i), tail);
  }

  /** The first line feed of a `send_response` line followed by anything
      ends that line, and the text before it decodes back to the line. */
  lemma ResponseBytes(line: string, p: seq<Byte>, tail: seq<Byte>)
    requires IsAscii(line) && '\n' !in line
    requires p == Encode(line) + [LF] + tail
    ensures LF in p
    ensures Decode(p[..IndexOf(p, LF)]) == line
    ensures p[IndexOf(p, LF) + 1..] == tail
  {
    var e := Encode(line);
    EncodeHasLF(line);
    LineThenTail(e, p, tail);
    DecodeEncode(line);
  }

  /** Bytes without a line feed, a line feed, then anything: the first line
      feed is the one after those bytes. */
  lemma LineThenTail(e: seq<Byte>, p: seq<Byte>, tail: seq<Byte>)
    requires LF !in e && p == e + [LF] + tail
    ensures LF in p && IndexOf(p, LF) == |e|
    ensures p[..|e|] == e && p[|e| + 1..] == tail
  {
    assert p == e + ([LF] + tail);
    IndexOfAppend(e, [LF] + tail, LF);
  }

  /** `recv_multiline`'s loop collects exactly the lines sent one by one
      before the sentinel. */
  lemma {:induction false} RecvLinesOfSent(lines: seq<string>, i: Inbox, ending: seq<Byte>, tail: seq<Byte>)
    requires AllTransparent(lines)
    requires ending == SendResponse(EndMarker) + tail
    requires Pending(i) == SendEach(lines) + ending
    ensures RecvLines(i).Got?
    ensures RecvLines(i).value == lines
    ensures Pending(RecvLines(i).rest) == tail
    decreases |lines|
  {
    if lines == [] {
      assert SendEach(lines) + ending == ending;
      RecvLinesAtEnd(i, tail);
    } else {
      var after := SendEach(lines[1..]) + ending;
      SendEachCons(lines, ending);
      RecvLineOfTransparent(lines[0], i, after);
      var rest := RecvLine(i).rest;
      RecvLinesOfSent(lines[1..], rest, ending, tail);
      RecvLinesStep(i, lines[0], rest, lines[1..], RecvLines(rest).rest);
      HeadTail(lines);
    }
  }

  /** Peeling the first line off what `SendEach` writes. */
  lemma SendEachCons(lines: seq<string>, ending: seq<Byte>)
    requires lines != []
    ensures SendEach(lines) + ending == SendResponse(lines[0]) + (SendEach(lines[1..]) + ending)
  {
  }

  lemma RecvLinesAtEnd(i: Inbox, tail: seq<Byte>)
    requires Pending(i) == SendResponse(EndMarker) + tail
    ensures RecvLines(i).Got? && RecvLines(i).value == [] && Pending(RecvLines(i).rest) == tail
  {
    RecvLineOfResponse(EndMarker, i, tail);
    assert RStrip(EndMarker, '\r') == EndMarker;
  }

  lemma RecvLineOfTransparent(line: string, i: Inbox, tail: seq<Byte>)
    requires Transparent(line)
    requires Pending(i) == SendResponse(line) + tail
    ensures RecvLine(i) == Got(line, RecvLine(i).rest) && Pending(RecvLine(i).rest) == tail
  {
    RecvLineOfResponse(line, i, tail);
  }

  /** One turn of the `recv_multiline` loop on a line other than the sentinel. */
  lemma RecvLinesStep(i: Inbox, line: string, rest: Inbox, more: seq<string>, last: Inbox)
    requires RecvLine(i) == Got(line, rest) && line != EndMarker
    requires RecvLines(rest) == Got(more, last)
    ensures RecvLines(i) == Got([line] + more, last)
  {
  }

  /** Round trip: for a message whose lines are all transparent, what
      `recv_multiline` reassembles from the bytes `send_multiline` wrote is
      the message itself, however the bytes are cut into chunks, and the
      bytes after the block stay pending. The incoming bytes are written as
      `SendMultiline`'s contract gives them: the message, "\n<END>\n". */
  lemma MultilineRoundTrip(msg: string, i: Inbox, tail: seq<Byte>)
    requires AllTransparent(Split(msg, '\n'))
    requires Pending(i) == Encode(msg + "\n" + EndMarker + "\n") + tail
    ensures RecvMultiline(i).Got?
    ensures RecvMultiline(i).value == msg
    ensures Pending(RecvMultiline(i).rest) == tail
  {
    assert Pending(i) == SendMultiline(msg) + tail;
    var pieces := Split(msg, '\n');
    var ending := SendResponse(EndMarker) + tail;
    SendMultilinePieces(msg, tail);
    RecvLinesOfSent(pieces, i, ending, tail);
    RecvMultilineOfLines(i, pieces, RecvLines(i).rest);
  }

  lemma RecvMultilineOfLines(i: Inbox, lines: seq<string>, rest: Inbox)
    requires RecvLines(i) == Got(lines, rest) && lines != []
    ensures RecvMultiline(i) == Got(Join(lines, "\n"), rest)
  {
  }

  lemma SendMultilinePieces(msg: string, tail: seq<Byte>)
    ensures SendMultiline(msg) + tail == SendEach(Split(msg, '\n')) + (SendResponse(EndMarker) + tail)
  {
  }
}

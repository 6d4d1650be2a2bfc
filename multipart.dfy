/** The client side of the restraint protocol in src/multipart.c: the handshake over the
    pipes of the remote command (wait for the server's greeting, post the job, collect the
    response header), the loop over the parts of the multipart reply (headers, then body
    chunks until a read of 0 bytes, then one callback), and the teardown when the child
    exits.

    GIO and libsoup deliver one event per callback; the model takes each event as an
    input. The pure functions (Request, Step, OnNextPartStep, OnReadStep, Teardown) say
    what one callback does, Negotiate and Stream run a whole sequence of events, and the
    classes HandshakeData and MultiPartData do the same work in place and are proved
    against those functions. */
module Multipart {
  import opened Wrappers
  import opened Errors
  import opened Text

  /** READ_BUFFER_SIZE of src/multipart.h: the most one read of a part asks for. */
  const ReadBufferSize := 10000

  /** The line the server greets with, up to its protocol number. */
  const Greeting := "User-Agent: restraint/"

  type byte = b: int | 0 <= b < 256

  /** The headers of one part. libsoup looks names up without regard to case; the model
      looks them up exactly. */
  type Headers = map<string, string>

  /** soup_message_headers_get_one: the value of a header, or NULL when it is absent. */
  function GetOne(headers: Headers, name: string): (r: Option<string>)
    ensures r.Some? <==> name in headers
    ensures r.Some? ==> r.value == headers[name]
  {
    if name in headers then Some(headers[name]) else None
  }

  // ---------------------------------------------------------------------------
  // post_data: the request written to the server

  /** The request line, "POST <path> HTTP/1.1" and its CR. */
  function RequestLine(remotePath: string): string {
    "POST " + remotePath + " HTTP/1.1\r"
  }

  const LengthField := "Content-Length: "

  /** The Content-Length line, the length written with %zu. */
  function LengthLine(contentLength: nat): string {
    LengthField + DecimalString(contentLength) + "\r"
  }

  /** The Content-Type line, which announces the boundary with two dashes in front. */
  function TypeLine(boundary: string): string {
    "Content-Type: " + "multipart/x-mixed-replace; " + "boundary=--" + boundary + "\r"
  }

  /** The header post_data formats: the three lines above, each ended by CR LF, then the
      blank line CR LF. It opens with the request line and ends with the empty line that
      closes an HTTP header. */
  function RequestHeader(remotePath: string, contentLength: nat, boundary: string): (r: string)
    ensures HasPrefix(r, RequestLine(remotePath) + "\n")
    ensures |r| >= 4 && r[|r| - 4..] == "\r\n\r\n"
  {
    RequestLine(remotePath) + "\n" + LengthLine(contentLength) + "\n" + TypeLine(boundary) + "\n" + "\r\n"
  }

  /** What follows the header: the data, then the delimiter "--<boundary>" and a LF. */
  function RequestBody(data: string, boundary: string): (r: string)
    ensures |r| == |data| + |boundary| + 3
    ensures HasPrefix(r, data) && r[|data|..] == "--" + boundary + "\n"
  {
    data + "--" + boundary + "\n"
  }

  /** Everything post_data writes: the header, declaring data_len + strlen(boundary) + 3
      bytes, then the body. */
  function Request(remotePath: string, data: string, boundary: string): (r: string)
    ensures var header := RequestHeader(remotePath, |data| + |boundary| + 3, boundary);
      HasPrefix(r, header) && |r| - |header| == |data| + |boundary| + 3
  {
    RequestHeader(remotePath, |data| + |boundary| + 3, boundary) + RequestBody(data, boundary)
  }

  /** A reader of the framing: the request line, a Content-Length line holding a decimal
      number, a third header line, and the blank line; what follows is the body. Gives the
      declared length and the body, or None when the text is not framed that way. */
  function ReadFraming(request: string): Option<(nat, string)> {
    var (_, afterFirst) := SplitFirst(request, '\n');
    if afterFirst.None? then None
    else
      var (lengthLine, afterSecond) := SplitFirst(afterFirst.value, '\n');
      if afterSecond.None? || !HasPrefix(lengthLine, LengthField) || |lengthLine| < |LengthField| + 2
         || lengthLine[|lengthLine| - 1] != '\r'
      then None
      else
        var digits := lengthLine[|LengthField|..|lengthLine| - 1];
        if !(forall k :: 0 <= k < |digits| ==> IsDigit(digits[k])) then None
        else
          var (_, afterThird) := SplitFirst(afterSecond.value, '\n');
          if afterThird.None? then None
          else
            var (blank, body) := SplitFirst(afterThird.value, '\n');
            if blank != "\r" || body.None? then None
            else Some((DecimalValue(digits), body.value))
  }

  /** The Content-Length post_data declares is exactly the number of bytes it writes after
      the blank line, and the body ends with the "--<boundary>" delimiter and a LF. Holds
      whenever neither the path nor the boundary holds a LF (a boundary is 64 hex digits). */
  lemma ContentLengthDeclaresBody(remotePath: string, data: string, boundary: string)
    requires Avoids(remotePath, {'\n'}) && Avoids(boundary, {'\n'})
    ensures ReadFraming(Request(remotePath, data, boundary))
         == Some((|RequestBody(data, boundary)|, RequestBody(data, boundary)))
    ensures HasPrefix(RequestBody(data, boundary), data)
    ensures RequestBody(data, boundary)[|data|..] == "--" + boundary + "\n"
  {
    var body := RequestBody(data, boundary);
    var n := |body|;
    var l1, l2, l3 := RequestLine(remotePath), LengthLine(n), TypeLine(boundary);
    assert Request(remotePath, data, boundary) == l1 + "\n" + l2 + "\n" + l3 + "\n" + "\r\n" + body;
    HeaderLinesAvoidLF(remotePath, n, boundary);
    FramingReadsBack(l1, n, l3, body);
    assert body[..|data|] == data;
  }

  /** A header made of a first line, the Content-Length line for n, a third line and the
      blank line reads back as n and the body after it. */
  lemma FramingReadsBack(l1: string, n: nat, l3: string, body: string)
    requires Avoids(l1, {'\n'}) && Avoids(LengthLine(n), {'\n'}) && Avoids(l3, {'\n'})
    ensures ReadFraming(l1 + "\n" + LengthLine(n) + "\n" + l3 + "\n" + "\r\n" + body) == Some((n, body))
  {
    var l2 := LengthLine(n);
    var rest3 := "\r" + "\n" + body;
    var rest2 := l3 + "\n" + rest3;
    var rest1 := l2 + "\n" + rest2;
    assert l1 + "\n" + l2 + "\n" + l3 + "\n" + "\r\n" + body == l1 + ['\n'] + rest1;
    SplitFirstAtFirst(l1, '\n', rest1);
    assert rest1 == l2 + ['\n'] + rest2;
    SplitFirstAtFirst(l2, '\n', rest2);
    assert rest2 == l3 + ['\n'] + rest3;
    SplitFirstAtFirst(l3, '\n', rest3);
    assert rest3 == "\r" + ['\n'] + body;
    assert Avoids("\r", {'\n'});
    SplitFirstAtFirst("\r", '\n', body);
    LengthLineDigits(n);
  }

  lemma WithoutLF(s: string)
    requires '\n' !in s
    ensures Avoids(s, {'\n'})
  {
  }

  lemma AvoidsAppend(a: string, b: string, seps: set<char>)
    requires Avoids(a, seps) && Avoids(b, seps)
    ensures Avoids(a + b, seps)
  {
    assert forall k :: |a| <= k < |a + b| ==> (a + b)[k] == b[k - |a|];
  }

  /** None of the three header lines holds a LF. */
  lemma HeaderLinesAvoidLF(remotePath: string, n: nat, boundary: string)
    requires Avoids(remotePath, {'\n'}) && Avoids(boundary, {'\n'})
    ensures Avoids(RequestLine(remotePath), {'\n'}) && Avoids(LengthLine(n), {'\n'}) && Avoids(TypeLine(boundary), {'\n'})
  {
    RequestLineAvoidsLF(remotePath);
    LengthLineAvoidsLF(n);
    TypeLineAvoidsLF(boundary);
  }

  lemma RequestLineAvoidsLF(remotePath: string)
    requires Avoids(remotePath, {'\n'})
    ensures Avoids(RequestLine(remotePath), {'\n'})
  {
    WithoutLF("POST ");
    WithoutLF(" HTTP/1.1\r");
    AvoidsAppend("POST ", remotePath, {'\n'});
    AvoidsAppend("POST " + remotePath, " HTTP/1.1\r", {'\n'});
  }

  lemma LengthLineAvoidsLF(n: nat)
    ensures Avoids(LengthLine(n), {'\n'})
  {
    var d := DecimalString(n);
    assert Avoids(d, {'\n'});
    WithoutLF("Content-Length: ");
    WithoutLF("\r");
    AvoidsAppend(LengthField, d, {'\n'});
    AvoidsAppend(LengthField + d, "\r", {'\n'});
  }

  lemma TypeLineAvoidsLF(boundary: string)
    requires Avoids(boundary, {'\n'})
    ensures Avoids(TypeLine(boundary), {'\n'})
  {
    var field := "Content-Type: " + "multipart/x-mixed-replace; " + "boundary=--";
    WithoutLF("Content-Type: ");
    WithoutLF("multipart/x-mixed-replace; ");
    WithoutLF("boundary=--");
    AvoidsAppend("Content-Type: ", "multipart/x-mixed-replace; ", {'\n'});
    AvoidsAppend("Content-Type: " + "multipart/x-mixed-replace; ", "boundary=--", {'\n'});
    WithoutLF("\r");
    AvoidsAppend(field, boundary, {'\n'});
    AvoidsAppend(field + boundary, "\r", {'\n'});
  }

  /** The Content-Length line reads back as the number it was written from. */
  lemma LengthLineDigits(n: nat)
    ensures var l := LengthLine(n);
      HasPrefix(l, LengthField) && |l| >= |LengthField| + 2 && l[|l| - 1] == '\r'
      && l[|LengthField|..|l| - 1] == DecimalString(n)
    ensures DecimalValue(DecimalString(n)) == n
  {
    DecimalRoundTrip(n);
  }

  // ---------------------------------------------------------------------------
  // handshake_io_cb: the handshake as a function of the line events

  /** ClientState of src/multipart.h. */
  datatype ClientState = Handshake | ReadHeader | Run | Running

  /** What g_io_channel_read_line returned: a line (with its terminator, and the position
      of the terminator in it), an error, end of file, or "try again". */
  datatype IoStatus =
    | Normal(line: string, terminatorPos: nat)
    | IoError(error: Error)
    | Eof
    | Again

  /** One call of the watch: the channel was readable (G_IO_IN) and a line was read, or it
      woke up for G_IO_ERR, G_IO_HUP or G_IO_NVAL only. */
  datatype Wakeup = Readable(status: IoStatus) | NotReadable

  /** What the handshake has done so far: its state, the response header collected, the
      bytes written to the child's standard input, and how often the part reader was
      started. */
  datatype Session = Session(state: ClientState, responseStr: string, output: string, readerStarts: nat)

  const Fresh := Session(Handshake, [], [], 0)

  predicate IsGreeting(w: Wakeup) {
    w.Readable? && w.status.Normal? && HasPrefix(w.status.line, Greeting)
  }

  predicate IsBlankLine(w: Wakeup) {
    w.Readable? && w.status.Normal? && w.status.terminatorPos == 0
  }

  /** One call of handshake_io_cb: the new session and whether the watch stays (TRUE). The
      request data and the boundary generate_boundary would return are parameters. */
  function Step(s: Session, w: Wakeup, remotePath: string, data: string, boundary: string): (r: (Session, bool))
    ensures !w.Readable? || w.status.IoError? || w.status.Eof? ==> r == (s, false)
    ensures w == Readable(Again) ==> r == (s, true)
    ensures r.0.state != s.state ==>
      (s.state == Handshake && r.0.state == ReadHeader && IsGreeting(w) && r.1)
      || (s.state == ReadHeader && r.0.state == Run && IsBlankLine(w) && !r.1)
    ensures s.state == Handshake && IsGreeting(w) ==>
      r == (s.(output := s.output + Request(remotePath, data, boundary), state := ReadHeader), true)
    ensures s.state == Handshake && w.Readable? && w.status.Normal? && !IsGreeting(w) ==> r == (s, true)
    ensures s.state == ReadHeader && w.Readable? && w.status.Normal? && !IsBlankLine(w) ==>
      r == (s.(responseStr := s.responseStr + w.status.line), true)
    ensures s.state == ReadHeader && IsBlankLine(w) ==>
      r == (s.(state := Run, readerStarts := s.readerStarts + 1), false)
    ensures (s.state == Run || s.state == Running) && w.Readable? && w.status.Normal? ==> r == (s, true)
  {
    match w
    case NotReadable => (s, false)
    case Readable(status) =>
      match status
      case Normal(line, terminatorPos) =>
        (match s.state
         case Handshake =>
           if HasPrefix(line, Greeting) then
             (s.(output := s.output + Request(remotePath, data, boundary), state := ReadHeader), true)
           else (s, true)
         case ReadHeader =>
           if terminatorPos == 0 then (s.(state := Run, readerStarts := s.readerStarts + 1), false)
           else (s.(responseStr := s.responseStr + line), true)
         case _ => (s, true))
      case IoError(_) => (s, false)
      case Eof => (s, false)
      case Again => (s, true)
  }

  /** The watch over a sequence of wake-ups: each is handled until a call returns FALSE,
      which removes the watch, and the later ones are never delivered. Returns the session
      and whether the watch is still installed. Reaching RUN starts the reader once and
      removes the watch; a session already in RUN is never changed. */
  function Negotiate(s: Session, ws: seq<Wakeup>, remotePath: string, data: string, boundary: string): (r: (Session, bool))
    ensures s.state == Run ==> r.0 == s
    ensures s.state != Run && r.0.state == Run ==> !r.1 && r.0.readerStarts == s.readerStarts + 1
    ensures r.0.state != Run ==> r.0.readerStarts == s.readerStarts
    decreases |ws|
  {
    if ws == [] then (s, true)
    else
      var (s', keep) := Step(s, ws[0], remotePath, data, boundary);
      if keep then Negotiate(s', ws[1..], remotePath, data, boundary) else (s', false)
  }

  /** What every session of the handshake satisfies: nothing is written before the greeting
      and exactly one request after it, the reader is started exactly when RUN is reached,
      no response is collected before the request, and RUNNING is never entered. */
  predicate Posted(s: Session, remotePath: string, data: string, boundary: string) {
    && s.state != Running
    && (s.state == Handshake ==> s.output == [] && s.responseStr == [])
    && (s.state != Handshake ==> s.output == Request(remotePath, data, boundary))
    && s.readerStarts == (if s.state == Run then 1 else 0)
  }

  lemma StepKeepsPosted(s: Session, w: Wakeup, remotePath: string, data: string, boundary: string)
    requires Posted(s, remotePath, data, boundary)
    ensures Posted(Step(s, w, remotePath, data, boundary).0, remotePath, data, boundary)
  {
    if s.state == Handshake && IsGreeting(w) {
      assert [] + Request(remotePath, data, boundary) == Request(remotePath, data, boundary);
    }
  }

  /** Whatever the wake-ups, the request is written at most once, and only after a greeting;
      the reader is started at most once, and only on reaching RUN. */
  lemma {:induction false} RequestWrittenAtMostOnce(s: Session, ws: seq<Wakeup>, remotePath: string, data: string, boundary: string)
    requires Posted(s, remotePath, data, boundary)
    ensures Posted(Negotiate(s, ws, remotePath, data, boundary).0, remotePath, data, boundary)
    decreases |ws|
  {
    if ws != [] {
      StepKeepsPosted(s, ws[0], remotePath, data, boundary);
      var (s', keep) := Step(s, ws[0], remotePath, data, boundary);
      if keep {
        RequestWrittenAtMostOnce(s', ws[1..], remotePath, data, boundary);
      }
    }
  }

  /** The handshake leaves HANDSHAKE only on a greeting line. */
  lemma {:induction false} LeavesHandshakeOnGreeting(s: Session, ws: seq<Wakeup>, remotePath: string, data: string, boundary: string)
    requires s.state == Handshake
    requires Negotiate(s, ws, remotePath, data, boundary).0.state != Handshake
    ensures exists i :: 0 <= i < |ws| && IsGreeting(ws[i])
    decreases |ws|
  {
    var (s', keep) := Step(s, ws[0], remotePath, data, boundary);
    if IsGreeting(ws[0]) {
      assert IsGreeting(ws[0]);
    } else {
      assert keep && s'.state == Handshake;
      LeavesHandshakeOnGreeting(s', ws[1..], remotePath, data, boundary);
      var i :| 0 <= i < |ws[1..]| && IsGreeting(ws[1..][i]);
      assert IsGreeting(ws[i + 1]);
    }
  }

  /** RUN is reached only on a blank line (terminator at position 0); when it is, the watch
      is removed. */
  lemma {:induction false} RunNeedsBlankLine(s: Session, ws: seq<Wakeup>, remotePath: string, data: string, boundary: string)
    requires s.state != Run
    requires Negotiate(s, ws, remotePath, data, boundary).0.state == Run
    ensures exists i :: 0 <= i < |ws| && IsBlankLine(ws[i])
    ensures !Negotiate(s, ws, remotePath, data, boundary).1
    decreases |ws|
  {
    var (s', keep) := Step(s, ws[0], remotePath, data, boundary);
    if s'.state == Run {
      assert IsBlankLine(ws[0]) && !keep;
    } else {
      assert keep;
      RunNeedsBlankLine(s', ws[1..], remotePath, data, boundary);
      var i :| 0 <= i < |ws[1..]| && IsBlankLine(ws[1..][i]);
      assert IsBlankLine(ws[i + 1]);
    }
  }

  /** Lines with a terminator past position 0. */
  predicate HeaderLines(ws: seq<Wakeup>) {
    forall i :: 0 <= i < |ws| ==> ws[i].Readable? && ws[i].status.Normal? && ws[i].status.terminatorPos != 0
  }

  /** The text of a sequence of line events, in order. */
  function LinesText(ws: seq<Wakeup>): string
    requires HeaderLines(ws)
  {
    if ws == [] then [] else ws[0].status.line + LinesText(ws[1..])
  }

  /** In READ_HEADER, the header lines are appended to the response in arrival order and the
      watch stays; the blank line after them moves to RUN, starts the reader and removes the
      watch, so nothing after it is read. */
  lemma {:induction false} ResponseCollectedInOrder(s: Session, lines: seq<Wakeup>, blank: Wakeup, later: seq<Wakeup>,
                                                     remotePath: string, data: string, boundary: string)
    requires s.state == ReadHeader && HeaderLines(lines) && IsBlankLine(blank)
    ensures Negotiate(s, lines, remotePath, data, boundary) == (s.(responseStr := s.responseStr + LinesText(lines)), true)
    ensures Negotiate(s, lines + [blank] + later, remotePath, data, boundary)
         == (s.(responseStr := s.responseStr + LinesText(lines), state := Run, readerStarts := s.readerStarts + 1), false)
    decreases |lines|
  {
    if lines == [] {
      assert s.responseStr + [] == s.responseStr;
      assert (lines + [blank] + later)[0] == blank;
    } else {
      var line := lines[0].status.line;
      var s' := s.(responseStr := s.responseStr + line);
      assert !IsBlankLine(lines[0]);
      assert (lines + [blank] + later)[0] == lines[0];
      assert (lines + [blank] + later)[1..] == lines[1..] + [blank] + later;
      ResponseCollectedInOrder(s', lines[1..], blank, later, remotePath, data, boundary);
      assert s'.responseStr + LinesText(lines[1..]) == s.responseStr + LinesText(lines);
    }
  }

  /** In HANDSHAKE, lines other than the greeting are dropped; the greeting then writes the
      request once and moves to READ_HEADER, with the watch kept. */
  lemma {:induction false} PostsOnGreeting(s: Session, ws: seq<Wakeup>, greeting: Wakeup,
                                           remotePath: string, data: string, boundary: string)
    requires s.state == Handshake && IsGreeting(greeting)
    requires forall i :: 0 <= i < |ws| ==> ws[i].Readable? && ws[i].status.Normal? && !IsGreeting(ws[i])
    ensures Negotiate(s, ws + [greeting], remotePath, data, boundary)
         == (s.(output := s.output + Request(remotePath, data, boundary), state := ReadHeader), true)
    decreases |ws|
  {
    if ws == [] {
      assert ws + [greeting] == [greeting];
    } else {
      assert (ws + [greeting])[0] == ws[0] && (ws + [greeting])[1..] == ws[1..] + [greeting];
      PostsOnGreeting(s, ws[1..], greeting, remotePath, data, boundary);
    }
  }

  /** Before the greeting, any line that is not the greeting is dropped and the watch stays. */
  lemma {:induction false} WaitsForGreeting(s: Session, ws: seq<Wakeup>, remotePath: string, data: string, boundary: string)
    requires s.state == Handshake
    requires forall i :: 0 <= i < |ws| ==> ws[i].Readable? && ws[i].status.Normal? && !IsGreeting(ws[i])
    ensures Negotiate(s, ws, remotePath, data, boundary) == (s, true)
    decreases |ws|
  {
    if ws != [] {
      WaitsForGreeting(s, ws[1..], remotePath, data, boundary);
    }
  }

  // ---------------------------------------------------------------------------
  // next_part_cb and read_cb: the parts as functions of the stream events

  /** The asynchronous request outstanding on the multipart stream: none yet, the next part,
      a read of the current part, or none ever again (the base stream is being closed). */
  datatype Pending = Idle | AwaitNextPart | AwaitRead | Closing

  /** One call of the part callback: httpMethod, path, error, headers and body of a part. */
  datatype Dispatch = Dispatch(httpMethod: Option<string>, path: Option<string>, error: Option<Error>,
                               headers: Option<Headers>, body: seq<byte>)

  /** The fields of MultiPartData the part loop writes, with the callbacks made so far and
      the number of part streams closed. */
  datatype Parts = Parts(httpMethod: Option<string>, path: Option<string>, headers: Option<Headers>,
                         error: Option<Error>, buffer: seq<byte>, pending: Pending,
                         dispatched: seq<Dispatch>, partsClosed: nat)

  /** g_slice_new0 (MultiPartData): nothing set, no request outstanding. */
  const Unstarted := Parts(None, None, None, None, [], Idle, [], 0)

  /** What soup_multipart_input_stream_next_part_finish gave: no more parts (NULL, with or
      without an error), or the stream of the next part together with the headers
      soup_multipart_input_stream_get_headers then returns. */
  datatype NextPart = NoMorePart(error: Option<Error>) | PartStream(headers: Option<Headers>)

  /** What g_input_stream_read_finish gave: the bytes read (none at all is a read of 0
      bytes), or -1 with an error. */
  datatype ReadResult = Data(bytes: seq<byte>) | ReadFailed(error: Error)

  /** multipart_handler_async: asks for the first part, and changes nothing else. */
  function Begin(p: Parts): (r: Parts)
    ensures r.pending == AwaitNextPart
    ensures r.(pending := p.pending) == p
  {
    p.(pending := AwaitNextPart)
  }

  /** next_part_cb, followed by multipart_read_headers: with no next part, the error (if
      any) is recorded (GIO only ever sets an error, it never clears one) and the base stream is closed; otherwise the part's headers are
      kept, method and path are read from them (when there is a header object at all), a
      fresh buffer is made and the first read is asked for. */
  function OnNextPartStep(p: Parts, next: NextPart): (r: Parts)
    ensures next.NoMorePart? ==> r == p.(error := if next.error.Some? then next.error else p.error, pending := Closing)
    ensures next.PartStream? ==> r.pending == AwaitRead && r.buffer == [] && r.headers == next.headers
    ensures next.PartStream? && next.headers.Some? ==>
      r.httpMethod == GetOne(next.headers.value, "rstrnt-method") && r.path == GetOne(next.headers.value, "rstrnt-path")
    ensures next.PartStream? && next.headers.None? ==> r.httpMethod == p.httpMethod && r.path == p.path
    ensures r.dispatched == p.dispatched && r.partsClosed == p.partsClosed
  {
    match next
    case NoMorePart(e) => p.(error := if e.Some? then e else p.error, pending := Closing)
    case PartStream(h) =>
      var withHeaders :=
        if h.Some? then p.(httpMethod := GetOne(h.value, "rstrnt-method"), path := GetOne(h.value, "rstrnt-path"))
        else p;
      withHeaders.(headers := h, buffer := [], pending := AwaitRead)
  }

  /** read_cb: bytes read are appended to the buffer and the next read is asked for. A read
      of 0 bytes or a failing one ends the part: its stream is closed, the callback (when
      there is one) receives httpMethod, path, error, headers and the whole buffer, the buffer
      is released, and then the next part is asked for, or, once an error is recorded, the
      base stream is closed instead. */
  function OnReadStep(p: Parts, result: ReadResult, hasCallback: bool): (r: Parts)
    ensures result.Data? && result.bytes != [] ==>
      r == p.(buffer := p.buffer + result.bytes)
    ensures !(result.Data? && result.bytes != []) ==>
      && r.partsClosed == p.partsClosed + 1
      && r.error == (if result.ReadFailed? then Some(result.error) else p.error)
      && r.dispatched == p.dispatched
           + (if hasCallback then [Dispatch(p.httpMethod, p.path, r.error, p.headers, p.buffer)] else [])
      && r.pending == (if r.error.Some? then Closing else AwaitNextPart)
      && r.buffer == [] && r.httpMethod == p.httpMethod && r.path == p.path && r.headers == p.headers
  {
    if result.Data? && result.bytes != [] then p.(buffer := p.buffer + result.bytes)
    else
      var error := if result.ReadFailed? then Some(result.error) else p.error;
      var call := if hasCallback then [Dispatch(p.httpMethod, p.path, error, p.headers, p.buffer)] else [];
      p.(error := error, partsClosed := p.partsClosed + 1, dispatched := p.dispatched + call, buffer := [],
         pending := if error.Some? then Closing else AwaitNextPart)
  }

  datatype Event = NextPartDone(next: NextPart) | ReadDone(result: ReadResult)

  /** One event delivered to the part loop. Only the request that is outstanding can
      complete; any other event is one GIO never delivers, and is skipped. Callbacks are only
      ever added, one for each part stream closed when there is a callback and none when
      there is not. */
  function Deliver(p: Parts, e: Event, hasCallback: bool): (r: Parts)
    ensures p.pending == Closing || p.pending == Idle ==> r == p
    ensures p.dispatched <= r.dispatched && p.partsClosed <= r.partsClosed <= p.partsClosed + 1
    ensures hasCallback ==> |r.dispatched| - |p.dispatched| == r.partsClosed - p.partsClosed
    ensures !hasCallback ==> r.dispatched == p.dispatched
  {
    match e
    case NextPartDone(next) => if p.pending == AwaitNextPart then OnNextPartStep(p, next) else p
    case ReadDone(result) => if p.pending == AwaitRead then OnReadStep(p, result, hasCallback) else p
  }

  /** The part loop over a sequence of events. Whatever the events, callbacks are only ever
      added, and each part stream closed gives exactly one when there is a callback. */
  function Stream(p: Parts, events: seq<Event>, hasCallback: bool): (r: Parts)
    ensures p.dispatched <= r.dispatched && r.partsClosed >= p.partsClosed
    ensures hasCallback ==> |r.dispatched| - |p.dispatched| == r.partsClosed - p.partsClosed
    ensures !hasCallback ==> r.dispatched == p.dispatched
    decreases |events|
  {
    if events == [] then p else Stream(Deliver(p, events[0], hasCallback), events[1..], hasCallback)
  }

  lemma {:induction false} StreamAppend(p: Parts, a: seq<Event>, b: seq<Event>, hasCallback: bool)
    ensures Stream(p, a + b, hasCallback) == Stream(Stream(p, a, hasCallback), b, hasCallback)
    decreases |a|
  {
    if a == [] {
      assert a + b == b;
    } else {
      assert (a + b)[0] == a[0] && (a + b)[1..] == a[1..] + b;
      StreamAppend(Deliver(p, a[0], hasCallback), a[1..], b, hasCallback);
    }
  }

  /** What holds between callbacks: an error is only ever recorded together with closing the
      base stream. */
  predicate Consistent(p: Parts) {
    p.error.Some? ==> p.pending == Closing
  }

  /** Once the base stream is being closed (at the end of the parts, or after an error)
      nothing more is asked for and no event changes anything. Deliver skips every event
      when nothing is outstanding, so the content of this lemma lies in OnNextPartStep and
      OnReadStep, which set Closing exactly when no further request is made. */
  lemma {:induction false} ClosingIsFinal(p: Parts, events: seq<Event>, hasCallback: bool)
    requires p.pending == Closing
    ensures Stream(p, events, hasCallback) == p
    decreases |events|
  {
    if events != [] {
      assert Deliver(p, events[0], hasCallback) == p;
      ClosingIsFinal(p, events[1..], hasCallback);
    }
  }

  /** Every event keeps the loop consistent, so once an error is recorded no further read
      or next part is requested. */
  lemma {:induction false} StreamKeepsConsistent(p: Parts, events: seq<Event>, hasCallback: bool)
    requires Consistent(p)
    ensures Consistent(Stream(p, events, hasCallback))
    decreases |events|
  {
    if events != [] {
      StreamKeepsConsistent(Deliver(p, events[0], hasCallback), events[1..], hasCallback);
    }
  }

  /** The read events of a part's body, one per chunk. */
  function Reads(chunks: seq<seq<byte>>): (r: seq<Event>)
    ensures |r| == |chunks|
  {
    if chunks == [] then [] else [ReadDone(Data(chunks[0]))] + Reads(chunks[1..])
  }

  predicate NonEmptyChunks(chunks: seq<seq<byte>>) {
    forall i :: 0 <= i < |chunks| ==> chunks[i] != []
  }

  /** While a read is outstanding, non-empty chunks are appended to the buffer in order. */
  lemma {:induction false} ChunksAccumulate(p: Parts, chunks: seq<seq<byte>>, hasCallback: bool)
    requires p.pending == AwaitRead && NonEmptyChunks(chunks)
    ensures Stream(p, Reads(chunks), hasCallback) == p.(buffer := p.buffer + Concat(chunks))
    decreases |chunks|
  {
    if chunks == [] {
      assert p.buffer + [] == p.buffer;
    } else {
      var p' := p.(buffer := p.buffer + chunks[0]);
      var rs := Reads(chunks);
      assert rs[0] == ReadDone(Data(chunks[0])) && rs[1..] == Reads(chunks[1..]);
      assert Deliver(p, rs[0], hasCallback) == p';
      assert Stream(p, rs, hasCallback) == Stream(p', Reads(chunks[1..]), hasCallback);
      ChunksAccumulate(p', chunks[1..], hasCallback);
      assert Concat(chunks) == chunks[0] + Concat(chunks[1..]);
      assert p'.buffer + Concat(chunks[1..]) == p.buffer + Concat(chunks);
    }
  }

  /** The events of one part that arrives whole: its stream, its chunks, a read of 0 bytes. */
  function PartEvents(headers: Option<Headers>, chunks: seq<seq<byte>>): seq<Event> {
    [NextPartDone(PartStream(headers))] + Reads(chunks) + [ReadDone(Data([]))]
  }

  /** The value a part is dispatched with for the header `name` (rstrnt-method for the
      method, rstrnt-path for the path): that header when the part has a header object (NULL
      when the header is missing), and otherwise the value of the part before. */
  function HeaderAfter(current: Option<string>, headers: Option<Headers>, name: string): (r: Option<string>)
    ensures headers.None? ==> r == current
    ensures headers.Some? ==> (r.Some? <==> name in headers.value)
    ensures headers.Some? && r.Some? ==> r.value == headers.value[name]
  {
    if headers.Some? then GetOne(headers.value, name) else current
  }

  /** A whole part, with no error, gives exactly one callback holding its headers, its
      method and path, and the concatenation of its chunks; then the next part is asked for. */
  lemma PartDelivered(p: Parts, headers: Option<Headers>, chunks: seq<seq<byte>>)
    requires p.pending == AwaitNextPart && p.error.None? && NonEmptyChunks(chunks)
    ensures var m, t := HeaderAfter(p.httpMethod, headers, "rstrnt-method"), HeaderAfter(p.path, headers, "rstrnt-path");
      Stream(p, PartEvents(headers, chunks), true)
      == p.(httpMethod := m, path := t, headers := headers, buffer := [], pending := AwaitNextPart,
            dispatched := p.dispatched + [Dispatch(m, t, None, headers, Concat(chunks))],
            partsClosed := p.partsClosed + 1)
  {
    var started := OnNextPartStep(p, PartStream(headers));
    assert Stream(p, [NextPartDone(PartStream(headers))], true) == started;
    StreamAppend(p, [NextPartDone(PartStream(headers))], Reads(chunks), true);
    StreamAppend(p, [NextPartDone(PartStream(headers))] + Reads(chunks), [ReadDone(Data([]))], true);
    ChunksAccumulate(started, chunks, true);
    assert [] + Concat(chunks) == Concat(chunks);
  }

  /** A part as the stream delivers it: its header object and its non-empty chunks. */
  datatype Part = Part(headers: Option<Headers>, chunks: seq<seq<byte>>)

  function AllEvents(parts: seq<Part>): seq<Event> {
    if parts == [] then [] else PartEvents(parts[0].headers, parts[0].chunks) + AllEvents(parts[1..])
  }

  /** The callbacks a sequence of whole parts gives, method and path carried over from the
      part before when a part has no header object. */
  function Dispatches(httpMethod: Option<string>, path: Option<string>, parts: seq<Part>): (r: seq<Dispatch>)
    ensures |r| == |parts|
    decreases |parts|
  {
    if parts == [] then []
    else
      var m, t := HeaderAfter(httpMethod, parts[0].headers, "rstrnt-method"), HeaderAfter(path, parts[0].headers, "rstrnt-path");
      [Dispatch(m, t, None, parts[0].headers, Concat(parts[0].chunks))] + Dispatches(m, t, parts[1..])
  }

  /** The value for the header `name` after a sequence of parts, carried over any part
      without a header object. */
  function LastHeader(current: Option<string>, parts: seq<Part>, name: string): Option<string>
    decreases |parts|
  {
    if parts == [] then current else LastHeader(HeaderAfter(current, parts[0].headers, name), parts[1..], name)
  }

  /** N whole parts give N callbacks, in order, each with the body of its part; the loop is
      then waiting for the next part. */
  lemma {:induction false} AllPartsDelivered(p: Parts, parts: seq<Part>)
    requires p.pending == AwaitNextPart && p.error.None?
    requires forall i :: 0 <= i < |parts| ==> NonEmptyChunks(parts[i].chunks)
    ensures var q := Stream(p, AllEvents(parts), true);
      && q.dispatched == p.dispatched + Dispatches(p.httpMethod, p.path, parts)
      && q.pending == AwaitNextPart && q.error.None?
      && q.partsClosed == p.partsClosed + |parts|
      && q.httpMethod == LastHeader(p.httpMethod, parts, "rstrnt-method") && q.path == LastHeader(p.path, parts, "rstrnt-path")
    decreases |parts|
  {
    if parts == [] {
      assert p.dispatched + [] == p.dispatched;
    } else {
      var h, c := parts[0].headers, parts[0].chunks;
      PartDelivered(p, h, c);
      var p' := Stream(p, PartEvents(h, c), true);
      StreamAppend(p, PartEvents(h, c), AllEvents(parts[1..]), true);
      AllPartsDelivered(p', parts[1..]);
      var d := Dispatch(p'.httpMethod, p'.path, None, h, Concat(c));
      assert p.dispatched + [d] + Dispatches(p'.httpMethod, p'.path, parts[1..])
          == p.dispatched + Dispatches(p.httpMethod, p.path, parts);
    }
  }

  /** A failing read ends the session: the part is still handed to the callback, with the
      error and what was read so far, the base stream is closed, and nothing after it has
      any effect. */
  lemma ReadErrorEndsSession(p: Parts, e: Error, later: seq<Event>, hasCallback: bool)
    requires p.pending == AwaitRead
    ensures var q := Stream(p, [ReadDone(ReadFailed(e))] + later, hasCallback);
      && q.error == Some(e) && q.pending == Closing
      && q.dispatched == p.dispatched + (if hasCallback then [Dispatch(p.httpMethod, p.path, Some(e), p.headers, p.buffer)] else [])
  {
    var q := OnReadStep(p, ReadFailed(e), hasCallback);
    assert ([ReadDone(ReadFailed(e))] + later)[1..] == later;
    ClosingIsFinal(q, later, hasCallback);
  }

  // ---------------------------------------------------------------------------
  // handshake_pid_callback: the descriptors closed at teardown

  /** The descriptors handshake_pid_callback closes, in order: f_in, then f_out, each only
      when it is not -1. */
  function Teardown(fIn: int, fOut: int): (r: seq<int>)
    ensures -1 !in r
    ensures fIn in r <==> fIn != -1
    ensures fOut in r <==> fOut != -1
    ensures |r| == (if fIn != -1 then 1 else 0) + (if fOut != -1 then 1 else 0)
    ensures fIn != -1 ==> r[0] == fIn
    ensures fOut != -1 ==> r[|r| - 1] == fOut
  {
    (if fIn != -1 then [fIn] else []) + (if fOut != -1 then [fOut] else [])
  }

  // ---------------------------------------------------------------------------
  // The callbacks as methods on the C structures

  /** MultiPartData: the state of the part loop, updated in place by the callbacks. */
  class MultiPartData {
    /** Whether the callback and destroy function pointers are non-NULL. */
    const hasCallback: bool
    const hasDestroy: bool

    var httpMethod: Option<string>
    var path: Option<string>
    var headers: Option<Headers>
    var error: Option<Error>
    var buffer: seq<byte>
    var pending: Pending
    /** The calls of the callback and of the destroy function, and the part streams closed. */
    var dispatched: seq<Dispatch>
    var destroyCalls: seq<Option<Error>>
    var partsClosed: nat
    var freed: bool

    function Value(): Parts
      reads this
    {
      Parts(httpMethod, path, headers, error, buffer, pending, dispatched, partsClosed)
    }

    constructor (hasCallback: bool, hasDestroy: bool)
      ensures Value() == Unstarted && this.hasCallback == hasCallback && this.hasDestroy == hasDestroy
      ensures destroyCalls == [] && !freed
    {
      this.hasCallback, this.hasDestroy := hasCallback, hasDestroy;
      httpMethod, path, headers, error, buffer, pending := None, None, None, None, [], Idle;
      dispatched, destroyCalls, partsClosed, freed := [], [], 0, false;
    }

    /** multipart_handler_async */
    method Start()
      modifies this
      ensures Value() == Begin(old(Value()))
      ensures destroyCalls == old(destroyCalls) && freed == old(freed)
    {
      pending := AwaitNextPart;
    }

    /** multipart_read_headers */
    method ReadHeaders(h: Option<Headers>)
      modifies this
      ensures headers == h && httpMethod == HeaderAfter(old(httpMethod), h, "rstrnt-method") && path == HeaderAfter(old(path), h, "rstrnt-path")
      ensures error == old(error) && buffer == old(buffer) && pending == old(pending)
      ensures dispatched == old(dispatched) && partsClosed == old(partsClosed)
      ensures destroyCalls == old(destroyCalls) && freed == old(freed)
    {
      headers := h;
      if headers.Some? {
        httpMethod := GetOne(headers.value, "rstrnt-method");
        path := GetOne(headers.value, "rstrnt-path");
      }
    }

    /** next_part_cb: GIO calls it only while the next part is outstanding. */
    method OnNextPart(next: NextPart)
      requires pending == AwaitNextPart
      modifies this
      ensures Value() == OnNextPartStep(old(Value()), next)
      ensures destroyCalls == old(destroyCalls) && freed == old(freed)
    {
      if next.NoMorePart? {
        if next.error.Some? {
          error := next.error;
        }
        pending := Closing;
        return;
      }
      ReadHeaders(next.headers);
      buffer := [];
      pending := AwaitRead;
    }

    /** read_cb: GIO calls it only while a read is outstanding, with at most
        READ_BUFFER_SIZE bytes. */
    method OnRead(result: ReadResult)
      requires pending == AwaitRead
      requires result.Data? ==> |result.bytes| <= ReadBufferSize
      modifies this
      ensures Value() == OnReadStep(old(Value()), result, hasCallback)
      ensures destroyCalls == old(destroyCalls) && freed == old(freed)
    {
      if result.ReadFailed? {
        error := Some(result.error);
      }
      if result.ReadFailed? || result.bytes == [] {
        partsClosed := partsClosed + 1;
        if hasCallback {
          dispatched := dispatched + [Dispatch(httpMethod, path, error, headers, buffer)];
        }
        buffer := [];
        if error.Some? {
          pending := Closing;
          return;
        }
        pending := AwaitNextPart;
        return;
      }
      buffer := buffer + result.bytes;
    }

    /** multipart_destroy: the destroy function (when there is one) receives the recorded
        error, then the error is cleared and the structure freed. */
    method Destroy()
      modifies this
      ensures destroyCalls == old(destroyCalls) + (if hasDestroy then [old(error)] else [])
      ensures error.None? && freed
      ensures httpMethod == old(httpMethod) && path == old(path) && headers == old(headers) && buffer == old(buffer)
      ensures pending == old(pending) && dispatched == old(dispatched) && partsClosed == old(partsClosed)
    {
      if hasDestroy {
        destroyCalls := destroyCalls + [error];
      }
      error := None;
      freed := true;
    }
  }

  /** HandshakeData: the handshake, updated in place by handshake_io_cb, and the pipes to
      the remote command. */
  class HandshakeData {
    const remotePath: string
    const data: string
    /** The boundary generate_boundary returns when the request is posted. */
    const boundary: string
    const multipartData: MultiPartData

    var state: ClientState
    var responseStr: string
    /** Everything written to f_out. */
    var output: string
    var readerStarts: nat
    var fIn: int
    var fOut: int
    /** The descriptors closed by close(), in order. */
    var closed: seq<int>
    var freed: bool

    function Value(): Session
      reads this
    {
      Session(state, responseStr, output, readerStarts)
    }

    constructor (remotePath: string, data: string, boundary: string, fIn: int, fOut: int, multipartData: MultiPartData)
      ensures Value() == Fresh && this.fIn == fIn && this.fOut == fOut && closed == [] && !freed
      ensures this.remotePath == remotePath && this.data == data && this.boundary == boundary
      ensures this.multipartData == multipartData
    {
      this.remotePath, this.data, this.boundary, this.multipartData := remotePath, data, boundary, multipartData;
      state, responseStr, output, readerStarts := Handshake, [], [], 0;
      this.fIn, this.fOut, closed, freed := fIn, fOut, [], false;
    }

    /** post_data: five writes to f_out, the header first. */
    method PostData()
      modifies this
      ensures output == old(output) + Request(remotePath, data, boundary)
      ensures state == old(state) && responseStr == old(responseStr) && readerStarts == old(readerStarts)
      ensures fIn == old(fIn) && fOut == old(fOut) && closed == old(closed) && freed == old(freed)
    {
      output := output + RequestHeader(remotePath, |data| + |boundary| + 3, boundary);
      output := output + data;
      output := output + "--";
      output := output + boundary;
      output := output + "\n";
    }

    /** handshake_io_cb: returns whether the watch stays. */
    method OnLine(w: Wakeup) returns (keep: bool)
      modifies this, multipartData
      ensures (Value(), keep) == Step(old(Value()), w, remotePath, data, boundary)
      ensures multipartData.Value()
           == if state == Run && old(state) != Run then Begin(old(multipartData.Value())) else old(multipartData.Value())
      ensures multipartData.destroyCalls == old(multipartData.destroyCalls) && multipartData.freed == old(multipartData.freed)
      ensures fIn == old(fIn) && fOut == old(fOut) && closed == old(closed) && freed == old(freed)
    {
      if w.NotReadable? {
        return false;
      }
      match w.status
      case Normal(line, terminatorPos) =>
        if state == Handshake {
          if HasPrefix(line, Greeting) {
            PostData();
            state := ReadHeader;
          }
        } else if state == ReadHeader {
          if terminatorPos == 0 {
            state := Run;
            readerStarts := readerStarts + 1;
            multipartData.Start();
            return false;
          }
          responseStr := responseStr + line;
        }
        return true;
      case IoError(_) =>
        return false;
      case Eof =>
        return false;
      case Again =>
        return true;
    }

    /** handshake_pid_callback: closes f_in and then f_out, each only when it is not -1 and
        setting it to -1, destroys the part loop and frees the handshake. */
    method OnChildExit()
      modifies this, multipartData
      ensures closed == old(closed) + Teardown(old(fIn), old(fOut))
      ensures fIn == -1 && fOut == -1 && freed
      ensures multipartData.destroyCalls
           == old(multipartData.destroyCalls) + (if multipartData.hasDestroy then [old(multipartData.error)] else [])
      ensures multipartData.freed && multipartData.error.None?
      ensures Value() == old(Value())
    {
      if fIn != -1 {
        closed := closed + [fIn];
        fIn := -1;
      }
      if fOut != -1 {
        closed := closed + [fOut];
        fOut := -1;
      }
      multipartData.Destroy();
      freed := true;
    }
  }
}

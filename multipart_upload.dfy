/**
 * The upload receiver of the bufferevent server (recv_file_from_client and
 * get_start_and_end_boundary, src/http_functions.c).
 *
 * The body is read line by line. A line equal to the closing delimiter
 * "--boundary--" ends the upload, a line equal to the opening delimiter
 * "--boundary" (the delimiter forms of section 5.1.1 of RFC 2046) is skipped,
 * and from the first empty line on every line is appended to the file,
 * that empty line included. The loop runs while fewer than Content-Length
 * bytes have been counted, where each line counts what the reader stored.
 *
 * fopen's outcome is a parameter. When the stream is exhausted after some
 * data, every further read returns 0 and changes nothing, so the C loop
 * never ends; the model reports that as a Stalled outcome, in which no reply
 * is sent.
 */
module MultipartUpload {
  import opened CString
  import opened LineFraming
  import opened HttpResponse
  import opened RequestParser

  /** "--" boundary "\n", as strcat builds it. */
  function StartBoundary(b: String): String {
    "--" + b + "\n"
  }

  /** "--" boundary "--\n", as strcat builds it. */
  function EndBoundary(b: String): String {
    "--" + b + "--\n"
  }

  /**
   * get_start_and_end_boundary (src/http_functions.c:288-297): both buffers
   * are zeroed, then filled by strcat. The end marker and its terminator must
   * fit the 1024-byte buffers.
   */
  method GetStartAndEndBoundary(boundary: String) returns (start: String, end: String)
    requires NoNul(boundary) && |boundary| + 6 <= LINE_CAP
    ensures start == StartBoundary(boundary) && end == EndBoundary(boundary)
    ensures |start| < MAX_LINE_LEN && |end| < MAX_LINE_LEN
  {
    start, end := [], [];
    start := start + "--";
    start := start + boundary;
    start := start + "\n";
    end := end + "--";
    end := end + boundary;
    end := end + "--\n";
  }

  /**
   * The two markers are different C strings, neither is the empty line, and
   * each determines the boundary it was built from.
   */
  lemma Markers(b: String, b': String)
    requires NoNul(b)
    ensures NoNul(StartBoundary(b)) && NoNul(EndBoundary(b))
    ensures StartBoundary(b) != EndBoundary(b)
    ensures StartBoundary(b) != "\n" && EndBoundary(b) != "\n"
    ensures StartBoundary(b) == StartBoundary(b') ==> b == b'
    ensures EndBoundary(b) == EndBoundary(b') ==> b == b'
  {
    assert |StartBoundary(b)| == |b| + 3 && |EndBoundary(b)| == |b| + 5;
    if StartBoundary(b) == StartBoundary(b') {
      assert b == StartBoundary(b)[2..|b| + 2] == StartBoundary(b')[2..|b'| + 2] == b';
    }
    if EndBoundary(b) == EndBoundary(b') {
      assert b == EndBoundary(b)[2..|b| + 2] == EndBoundary(b')[2..|b'| + 2] == b';
    }
  }

  // ---------------------------------------------------------------------
  // The stream as lines

  /** The lines successive get_line_from_bufferevent calls return until a read comes back empty. */
  function StreamLines(s: String): (ls: seq<String>)
    ensures forall i :: 0 <= i < |ls| ==> 1 <= |ls[i]| <= LINE_CAP
    decreases |s|
  {
    if s == [] then []
    else
      var f := FramedLine(s);
      [f.line] + StreamLines(s[f.consumed..])
  }

  lemma StreamLinesUnfold(s: String, line: String, consumed: nat)
    requires s != [] && FramedLine(s) == Frame(line, consumed)
    ensures StreamLines(s) == [line] + StreamLines(s[consumed..])
  {
  }

  /** One read: at the end of the stream it returns nothing, otherwise the next line of StreamLines. */
  lemma ReadStep(input: String, cur: nat, line: String, next: nat)
    requires cur <= |input|
    requires line == FramedLine(input[cur..]).line && next == cur + FramedLine(input[cur..]).consumed
    ensures next <= |input|
    ensures cur == |input| <==> line == []
    ensures cur == |input| ==> next == cur && StreamLines(input[cur..]) == []
    ensures cur < |input| ==> cur < next && StreamLines(input[cur..]) == [line] + StreamLines(input[next..])
    ensures cur < |input| ==> StreamLines(input[cur..])[1..] == StreamLines(input[next..])
  {
    if cur < |input| {
      StreamLinesUnfold(input[cur..], line, next - cur);
      assert input[cur..][next - cur..] == input[next..];
      var ls := StreamLines(input[next..]);
      assert ([line] + ls)[1..] == ls;
    }
  }

  /** What recv_file_from_client ends with. */
  datatype Upload =
    | Refused            // 500 sent, nothing written
    | Stored(file: String)   // the loop ended: the file holds `file`, 200 sent
    | Stalled(file: String)  // the loop waits for data that never comes: nothing sent

  /**
   * The receive loop over the lines still to come: `received` is
   * bytes_received, `body` is is_file_body, `file` what fputs has written.
   */
  function Scan(ls: seq<String>, start: String, end: String, length: int,
                received: int, body: bool, file: String): (u: Upload)
    ensures !u.Refused?
    decreases |ls|
  {
    if received >= length then Stored(file)
    else if ls == [] then
      // reads return 0 from here on: the eleventh ends the loop if nothing came yet
      if received == 0 then Stored(file) else Stalled(file)
    else
      var l := CStr(ls[0]);
      var r := received + |ls[0]|;
      if l == end then Stored(file)
      else if l == start then Scan(ls[1..], start, end, length, r, body, file)
      else
        var b := body || l == "\n";
        Scan(ls[1..], start, end, length, r, b, if b then file + l else file)
  }

  /** Scan after one read: the stream is exhausted or hands over its next line. */
  lemma ScanStep(ls: seq<String>, line: String, l: String, start: String, end: String, length: int,
                 received: int, r: int, body: bool, file: String)
    requires received < length && 0 <= received
    requires ls == [] ==> line == []
    requires ls != [] ==> ls[0] == line
    requires l == CStr(line) && r == received + |line|
    requires start != [] && end != [] && start != end
    ensures ls == [] ==>
      Scan(ls, start, end, length, received, body, file) == (if received == 0 then Stored(file) else Stalled(file))
    ensures ls != [] && l == end ==> Scan(ls, start, end, length, received, body, file) == Stored(file)
    ensures ls != [] && l == start ==>
      Scan(ls, start, end, length, received, body, file) == Scan(ls[1..], start, end, length, r, body, file)
    ensures ls != [] && l != end && l != start && (body || l == "\n") ==>
      Scan(ls, start, end, length, received, body, file) == Scan(ls[1..], start, end, length, r, true, file + l)
    ensures ls != [] && l != end && l != start && !body && l != "\n" ==>
      Scan(ls, start, end, length, received, body, file) == Scan(ls[1..], start, end, length, r, false, file)
  {
  }

  /** The outcome of recv_file_from_client on the stream `s`; `fileOpened` is whether fopen succeeded. */
  function RecvOutcome(s: String, hdr: Headers, fileOpened: bool): Upload {
    if hdr.length == 0 && hdr.mode == Post then Refused
    else if !fileOpened then Refused
    else Scan(StreamLines(s), StartBoundary(hdr.boundary), EndBoundary(hdr.boundary), hdr.length, 0, false, [])
  }

  /** The reply that goes with an outcome. */
  function Reply(u: Upload): String {
    match u
    case Refused => Response(InternalError500)
    case Stored(_) => Response(Ok200)
    case Stalled(_) => []
  }

  /**
   * recv_file_from_client (src/http_functions.c:299-349) on the stream from
   * `pos`. The breaks of the C loop are the end marker and the eleventh
   * empty read while nothing has been received.
   */
  method RecvFileFromClient(input: String, pos: nat, hdr: Headers, fileOpened: bool, sent: String)
    returns (u: Upload, next: nat, sent': String)
    requires pos <= |input|
    requires NoNul(hdr.boundary) && |hdr.boundary| + 6 <= LINE_CAP
    ensures u == RecvOutcome(input[pos..], hdr, fileOpened)
    ensures sent' == sent + Reply(u)
    ensures pos <= next <= |input|
  {
    if hdr.length == 0 && hdr.mode == Post {
      sent' := HttpInternalServerError(sent);
      return Refused, pos, sent';
    }
    if !fileOpened {
      sent' := HttpInternalServerError(sent);
      return Refused, pos, sent';
    }
    var start, end := GetStartAndEndBoundary(hdr.boundary);
    Markers(hdr.boundary, hdr.boundary);
    u, next := ReceiveBody(input, pos, start, end, hdr.length);
    if u.Stalled? {
      sent' := sent;
    } else {
      sent' := HttpOk(sent);
    }
  }

  /**
   * The receive loop of recv_file_from_client (src/http_functions.c:326-346)
   * with the markers already built.
   */
  method ReceiveBody(input: String, pos: nat, start: String, end: String, length: int)
    returns (u: Upload, next: nat)
    requires pos <= |input|
    requires start != [] && end != [] && start != end
    ensures u == Scan(StreamLines(input[pos..]), start, end, length, 0, false, [])
    ensures pos <= next <= |input|
  {
    ghost var goal := Scan(StreamLines(input[pos..]), start, end, length, 0, false, []);
    var received, body, count := 0, false, 0;
    var file: String := [];
    var stalled := false;
    var cur := pos;
    ghost var rest := StreamLines(input[pos..]);
    while received < length
      invariant pos <= cur <= |input| && 0 <= count <= 10 && received >= 0
      invariant count > 0 ==> cur == |input| && received == 0
      invariant !stalled
      invariant rest == StreamLines(input[cur..])
      invariant Scan(rest, start, end, length, received, body, file) == goal
      decreases |input| - cur, 10 - count
    {
      ghost var old_file := file;
      var line, ret, nxt := GetLineFromBufferevent(input, cur);
      ReadStep(input, cur, line, nxt);
      ghost var before := received;
      received := received + ret;
      var l := CStr(line);
      ScanStep(rest, line, l, start, end, length, before, received, body, file);
      if ret == 0 && received > 0 {
        // every further read returns 0 and leaves everything as it is
        stalled := true;
        cur := nxt;
        break;
      }
      if received == 0 {
        if count == 10 {
          cur := nxt;
          break;
        }
        count := count + 1;
      }
      if l == end {
        cur := nxt;
        break;
      } else if l == start {
        assert Scan(rest[1..], start, end, length, received, body, file) == goal;
        cur := nxt;
        rest := rest[1..];
        continue;
      } else if l == "\n" {
        body := true;
      }
      if body {
        file := file + l;
      }
      if line == [] {
        assert file == old_file && Scan([], start, end, length, received, body, file) == Stored(file);
      } else {
        rest := rest[1..];
      }
      cur := nxt;
    }
    next := cur;
    if stalled {
      u := Stalled(file);
    } else {
      u := Stored(file);
    }
  }

  // ---------------------------------------------------------------------
  // What the loop writes and when it stalls, stated without the loop

  /** The bytes the reader stored for the lines `ls`: what bytes_received adds up. */
  function Total(ls: seq<String>): nat {
    if ls == [] then 0 else |ls[0]| + Total(ls[1..])
  }

  /** The lines the loop reads before the count, starting at `received`, reaches `length`. */
  function Budget(ls: seq<String>, length: int, received: int): (r: seq<String>)
    ensures |r| <= |ls| && r == ls[..|r|]
  {
    if ls == [] || received >= length then []
    else [ls[0]] + Budget(ls[1..], length, received + |ls[0]|)
  }

  /** The lines in front of the first one whose C string is `end`. */
  function UntilEnd(ls: seq<String>, end: String): (r: seq<String>)
    ensures |r| <= |ls| && r == ls[..|r|]
    ensures forall i :: 0 <= i < |r| ==> CStr(r[i]) != end
    ensures |r| < |ls| ==> CStr(ls[|r|]) == end
  {
    if ls == [] || CStr(ls[0]) == end then []
    else [ls[0]] + UntilEnd(ls[1..], end)
  }

  /** The lines from the first one whose C string is the empty line "\n" on, or none. */
  function FromBlank(ls: seq<String>): (r: seq<String>)
    ensures |r| <= |ls| && r == ls[|ls| - |r|..]
    ensures r != [] ==> CStr(r[0]) == "\n"
    ensures forall i :: 0 <= i < |ls| - |r| ==> CStr(ls[i]) != "\n"
  {
    if ls == [] then []
    else if CStr(ls[0]) == "\n" then ls
    else FromBlank(ls[1..])
  }

  /** The C strings of the lines, those equal to `start` left out, one after the other. */
  function Payload(ls: seq<String>, start: String): String {
    if ls == [] then []
    else (if CStr(ls[0]) == start then [] else CStr(ls[0])) + Payload(ls[1..], start)
  }

  /**
   * The file the loop leaves: of the lines it reads before the end marker,
   * those from the first empty line on (all of them once is_file_body is
   * set), start markers left out.
   */
  lemma {:induction false} ScanFile(ls: seq<String>, start: String, end: String, length: int,
                                    received: int, body: bool, file: String)
    requires 0 <= received && start != [] && end != [] && start != end && start != "\n"
    ensures var read := UntilEnd(Budget(ls, length, received), end);
      Scan(ls, start, end, length, received, body, file).file ==
        file + Payload(if body then read else FromBlank(read), start)
    decreases |ls|
  {
    var read := UntilEnd(Budget(ls, length, received), end);
    if received >= length || ls == [] || CStr(ls[0]) == end {
      NothingRead(ls, start, end, length, received, body, file);
    } else {
      var l := CStr(ls[0]);
      var r := received + |ls[0]|;
      var rest := UntilEnd(Budget(ls[1..], length, r), end);
      ReadOneMore(ls, end, length, received);
      ScanStep(ls, ls[0], l, start, end, length, received, r, body, file);
      assert read[1..] == rest && read[0] == ls[0];
      if l == start {
        ScanFile(ls[1..], start, end, length, r, body, file);
        assert FromBlank(read) == FromBlank(rest);
        assert Payload(read, start) == Payload(rest, start);
      } else if body || l == "\n" {
        ScanFile(ls[1..], start, end, length, r, true, file + l);
        assert !body ==> FromBlank(read) == read;
        assert Payload(read, start) == l + Payload(rest, start);
        assert file + l + Payload(rest, start) == file + (l + Payload(rest, start));
      } else {
        ScanFile(ls[1..], start, end, length, r, false, file);
        assert FromBlank(read) == FromBlank(rest);
      }
    }
  }

  /** Once the count is reached, the stream is empty or the end marker comes, nothing more is written. */
  lemma NothingRead(ls: seq<String>, start: String, end: String, length: int,
                    received: int, body: bool, file: String)
    requires received >= length || ls == [] || CStr(ls[0]) == end
    ensures UntilEnd(Budget(ls, length, received), end) == []
    ensures Scan(ls, start, end, length, received, body, file).file == file
  {
    var bs := Budget(ls, length, received);
    assert bs != [] ==> bs[0] == ls[0];
  }

  /** A line read within the budget and before the end marker is the first of the lines that count. */
  lemma ReadOneMore(ls: seq<String>, end: String, length: int, received: int)
    requires received < length && ls != [] && CStr(ls[0]) != end
    ensures UntilEnd(Budget(ls, length, received), end) ==
      [ls[0]] + UntilEnd(Budget(ls[1..], length, received + |ls[0]|), end)
  {
    var bs := Budget(ls[1..], length, received + |ls[0]|);
    assert Budget(ls, length, received) == [ls[0]] + bs;
    assert ([ls[0]] + bs)[1..] == bs;
  }

  /**
   * The loop waits forever exactly when something was received, the whole
   * stream counts fewer bytes than Content-Length and no end marker comes.
   * The empty-read limit only ends the loop while nothing has arrived.
   */
  lemma {:induction false} ScanStalls(ls: seq<String>, start: String, end: String, length: int,
                                      received: int, body: bool, file: String)
    requires 0 <= received
    ensures Scan(ls, start, end, length, received, body, file).Stalled? <==>
      && 0 < received + Total(ls) < length
      && forall i :: 0 <= i < |ls| ==> CStr(ls[i]) != end
    decreases |ls|
  {
    if ls != [] {
      var r := received + |ls[0]|;
      var b := body || CStr(ls[0]) == "\n";
      ScanStalls(ls[1..], start, end, length, r, body, file);
      ScanStalls(ls[1..], start, end, length, r, b, if b then file + CStr(ls[0]) else file);
      assert forall i :: 1 <= i < |ls| ==> ls[i] == ls[1..][i - 1];
      assert forall i :: 0 <= i < |ls[1..]| ==> ls[1..][i] == ls[i + 1];
      if received < length {
        assert Total(ls) == |ls[0]| + Total(ls[1..]);
      }
    }
  }

  /**
   * recv_file_from_client in full: 500 without writing when a POST announces
   * no length or the file cannot be opened; otherwise the file receives the
   * payload lines, and the reply is withheld exactly when the loop stalls.
   */
  lemma RecvOutcomeMeaning(s: String, hdr: Headers, fileOpened: bool)
    requires NoNul(hdr.boundary)
    ensures var u := RecvOutcome(s, hdr, fileOpened);
      && (u.Refused? <==> (hdr.length == 0 && hdr.mode == Post) || !fileOpened)
      && (!u.Refused? ==>
            var ls := StreamLines(s);
            var start, end := StartBoundary(hdr.boundary), EndBoundary(hdr.boundary);
            && u.file == Payload(FromBlank(UntilEnd(Budget(ls, hdr.length, 0), end)), start)
            && (u.Stalled? <==> 0 < Total(ls) < hdr.length && forall i :: 0 <= i < |ls| ==> CStr(ls[i]) != end))
  {
    if !((hdr.length == 0 && hdr.mode == Post) || !fileOpened) {
      var ls := StreamLines(s);
      var start, end := StartBoundary(hdr.boundary), EndBoundary(hdr.boundary);
      Markers(hdr.boundary, hdr.boundary);
      ScanFile(ls, start, end, hdr.length, 0, false, []);
      ScanStalls(ls, start, end, hdr.length, 0, false, []);
    }
  }

  /** With the stream already drained, a POST stores an empty file and gets 200. */
  lemma DrainedUpload(hdr: Headers)
    requires hdr.length != 0
    ensures RecvOutcome([], hdr, true) == Stored([])
  {
  }
}

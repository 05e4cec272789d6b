/**
 * Line framing over a byte stream.
 *
 * Three generations of the server read a request one line at a time, one byte
 * per read call, into a MAX_LINE_LEN buffer:
 *  - get_line_from_bufferevent (src/http_functions.c) and
 *    get_line_from_evbuffer (src/httpd.c) stop at '\n' and fold "\r\n" into a
 *    single '\n';
 *  - get_line_from_socket (http_server.c) ends a line at '\r', '\n' or "\r\n",
 *    peeking at the byte after a '\r'.
 * The stream is a sequence with a cursor; a read at the end returns 0 bytes.
 */
module LineFraming {
  import opened CString

  const MAX_LINE_LEN: nat := 1024

  /** A reader stores at most this many bytes, keeping room for the NUL. */
  const LINE_CAP: nat := MAX_LINE_LEN - 1

  /** One line read: the bytes left in the caller's buffer and the bytes taken off the stream. */
  datatype Frame = Frame(line: String, consumed: nat)

  /**
   * The line that get_line_from_bufferevent and get_line_from_evbuffer take
   * from the front of `s`: up to and including the first '\n' when that '\n'
   * falls within the cap, a '\r' right before it being dropped; otherwise the
   * first LINE_CAP bytes, or all of `s` when it is shorter.
   */
  function FramedLine(s: String): (f: Frame)
    ensures f.consumed <= |s| && |f.line| <= LINE_CAP
    ensures s != [] ==> 1 <= |f.line| && 1 <= f.consumed
    ensures s == [] ==> f == Frame([], 0)
  {
    var j := IndexFrom(s, '\n', 0);
    if j < |s| && j < LINE_CAP then
      if j > 0 && s[j - 1] == '\r' then Frame(s[..j - 1] + ['\n'], j + 1)
      else Frame(s[..j + 1], j + 1)
    else
      var n := if |s| < LINE_CAP then |s| else LINE_CAP;
      Frame(s[..n], n)
  }

  /**
   * What a framed line looks like: a '\n' can only be its last byte; it ends in
   * '\n', fills the cap, or takes the rest of the stream; and the bytes it took
   * off the stream are the line itself, or the line with its final '\n'
   * written "\r\n" on the wire.
   */
  lemma FramedLineShape(s: String)
    ensures var f := FramedLine(s);
      && (forall m :: 0 <= m < |f.line| - 1 ==> f.line[m] != '\n')
      && ((f.line != [] && f.line[|f.line| - 1] == '\n') || |f.line| == LINE_CAP || f.consumed == |s|)
      && (s[..f.consumed] == f.line
          || (f.consumed == |f.line| + 1 && f.line[|f.line| - 1] == '\n'
              && s[..f.consumed] == f.line[..|f.line| - 1] + ['\r', '\n']))
  {
    var j := IndexFrom(s, '\n', 0);
    if j < |s| && j < LINE_CAP && j > 0 && s[j - 1] == '\r' {
      assert s[..j + 1] == s[..j - 1] + ['\r', '\n'];
    }
  }

  /**
   * get_line_from_bufferevent (src/http_functions.c): reads byte by byte until
   * a '\n' is stored, "\r\n" is seen, the cap is reached or a read returns 0.
   * The return value is the number of bytes stored, so "\r\n" counts as one.
   */
  method GetLineFromBufferevent(input: String, pos: nat) returns (buf: String, ret: int, next: nat)
    requires pos <= |input|
    ensures buf == FramedLine(input[pos..]).line
    ensures next == pos + FramedLine(input[pos..]).consumed
    ensures ret == |buf|
  {
    ghost var s := input[pos..];
    var i := 0;
    var c, cb := '\0', '\0';
    var cur := pos;
    buf := [];
    while i < LINE_CAP && c != '\n'
      invariant pos <= cur <= |input|
      invariant i == |buf| == cur - pos <= LINE_CAP
      invariant buf == s[..i]
      invariant cb == if i > 0 then buf[i - 1] else '\0'
      invariant forall m :: 0 <= m < i - 1 ==> buf[m] != '\n'
      invariant c != '\n' ==> i == 0 || buf[i - 1] != '\n'
      invariant c == '\n' ==> (i > 0 && buf[i - 1] == '\n' && (i < 2 || buf[i - 2] != '\r'))
                              || (cur == |input| && (i == 0 || buf[i - 1] != '\n'))
      decreases LINE_CAP - i, if c == '\n' then 0 else 1
    {
      if cur < |input| {
        // bufferevent_read(bev, &c, 1) returned 1
        c := input[cur];
        cur := cur + 1;
        if cb == '\r' && c == '\n' {
          buf := buf[..i - 1] + [c];
          break;
        }
        cb := c;
        buf := buf + [c];
        i := i + 1;
      } else {
        c := '\n';
      }
    }
    ret, next := i, cur;
    FramedLineAfterLoop(s, buf, cur - pos);
  }

  /** The four ways the reading loop can end, each matched against FramedLine. */
  lemma FramedLineAfterLoop(s: String, buf: String, taken: nat)
    requires taken <= |s| && |buf| <= LINE_CAP
    requires
      // "\r\n" folded: the loop broke out after reading the '\n'
      (0 < |buf| < taken && taken == |buf| + 1 && buf == s[..|buf| - 1] + ['\n']
       && s[|buf| - 1] == '\r' && s[|buf|] == '\n' && |buf| < LINE_CAP
       && forall m :: 0 <= m < |buf| ==> s[m] != '\n')
      // a '\n' stored
      || (taken == |buf| > 0 && buf == s[..taken] && s[taken - 1] == '\n'
          && (taken < 2 || s[taken - 2] != '\r')
          && forall m :: 0 <= m < taken - 1 ==> s[m] != '\n')
      // the stream ran dry
      || (taken == |buf| == |s| < LINE_CAP && buf == s && forall m :: 0 <= m < |s| ==> s[m] != '\n')
      // the cap was reached
      || (taken == |buf| == LINE_CAP && buf == s[..taken] && forall m :: 0 <= m < taken ==> s[m] != '\n')
    ensures FramedLine(s) == Frame(buf, taken)
  {
  }

  /**
   * get_line_from_evbuffer (src/httpd.c): the same framing, but the loop also
   * stops when the buffer is empty, and the return value counts the bytes
   * removed from the buffer, so "\r\n" counts as two.
   */
  method GetLineFromEvbuffer(buffer: String, pos: nat) returns (buf: String, ret: int, next: nat)
    requires pos <= |buffer|
    ensures buf == FramedLine(buffer[pos..]).line
    ensures next == pos + FramedLine(buffer[pos..]).consumed
    ensures ret == next - pos
  {
    ghost var s := buffer[pos..];
    var i, isALine := 0, 0;
    var c, cb := '\0', '\0';
    var cur := pos;
    buf := [];
    // evbuffer_remove(buffer, &c, 1) cannot come back empty while the buffer is not
    while i < LINE_CAP && c != '\n' && cur < |buffer|
      invariant pos <= cur <= |buffer|
      invariant i == |buf| == cur - pos <= LINE_CAP
      invariant buf == s[..i]
      invariant cb == if i > 0 then buf[i - 1] else '\0'
      invariant forall m :: 0 <= m < i - 1 ==> buf[m] != '\n'
      invariant c != '\n' ==> i == 0 || buf[i - 1] != '\n'
      invariant c == '\n' ==> i > 0 && buf[i - 1] == '\n' && (i < 2 || buf[i - 2] != '\r')
      invariant isALine == 0
      decreases LINE_CAP - i
    {
      c := buffer[cur];
      cur := cur + 1;
      if cb == '\r' && c == '\n' {
        buf := buf[..i - 1] + [c];
        isALine := 1;
        break;
      }
      cb := c;
      buf := buf + [c];
      i := i + 1;
    }
    ret, next := i + isALine, cur;
    FramedLineAfterLoop(s, buf, cur - pos);
  }

  /**
   * The line get_line_from_socket (http_server.c) takes from the front of `s`:
   * a '\r', a '\n' or "\r\n" ends it and is stored as one '\n'; at most
   * LINE_CAP bytes are stored.
   */
  function SocketLine(s: String): (f: Frame)
    ensures f.consumed <= |s| && |f.line| <= LINE_CAP
    ensures s != [] ==> 1 <= |f.line| && 1 <= f.consumed
  {
    var j := LineEndIndex(s);
    if j < |s| && j < LINE_CAP then
      Frame(s[..j] + ['\n'], if s[j] == '\r' && j + 1 < |s| && s[j + 1] == '\n' then j + 2 else j + 1)
    else
      var n := if |s| < LINE_CAP then |s| else LINE_CAP;
      Frame(s[..n], n)
  }

  /** The first '\r' or '\n' in `s`, or |s|. */
  function LineEndIndex(s: String): (j: nat)
    ensures j <= |s|
    ensures forall m :: 0 <= m < j ==> s[m] != '\r' && s[m] != '\n'
    ensures j < |s| ==> s[j] == '\r' || s[j] == '\n'
  {
    var r, n := IndexFrom(s, '\r', 0), IndexFrom(s, '\n', 0);
    if r < n then r else n
  }

  /**
   * get_line_from_socket (http_server.c): a '\r' is followed by a peek at the
   * next byte, which is consumed only when it is '\n'. The return value is the
   * number of bytes stored.
   */
  method GetLineFromSocket(input: String, pos: nat) returns (buf: String, ret: int, next: nat)
    requires pos <= |input|
    ensures buf == SocketLine(input[pos..]).line
    ensures next == pos + SocketLine(input[pos..]).consumed
    ensures ret == |buf|
    ensures forall m :: 0 <= m < |buf| - 1 ==> buf[m] != '\n' && buf[m] != '\r'
  {
    ghost var s := input[pos..];
    var i := 0;
    var c := '\0';
    var cur := pos;
    buf := [];
    while i < LINE_CAP && c != '\n'
      invariant pos <= cur <= |input|
      invariant i == |buf| <= LINE_CAP
      invariant c != '\n' ==> cur - pos == i && buf == s[..i]
      invariant c != '\n' ==> forall m :: 0 <= m < i ==> s[m] != '\r' && s[m] != '\n'
      invariant c == '\n' ==> buf == SocketLine(s).line && cur - pos == SocketLine(s).consumed
      decreases LINE_CAP - i, if c == '\n' then 0 else 1
    {
      if cur < |input| {
        // recv(sockfd, &c, 1, 0) returned 1
        c := input[cur];
        cur := cur + 1;
        if c == '\r' {
          // recv(sockfd, &c, 1, MSG_PEEK)
          if cur < |input| && input[cur] == '\n' {
            c := input[cur];
            cur := cur + 1;
          } else {
            c := '\n';
          }
          assert LineEndIndex(s) == i;
        } else if c == '\n' {
          assert LineEndIndex(s) == i;
        }
        buf := buf + [c];
        i := i + 1;
      } else {
        // recv returned 0: the line ends here
        assert s == s[..i];
        assert SocketLine(s).line == s;
        c := '\n';
      }
    }
    ret, next := i, cur;
    if c != '\n' {
      assert LineEndIndex(s) >= LINE_CAP;
    }
  }

  // ---------------------------------------------------------------------
  // Lines as a client writes them

  /** A line a client sends: at most the cap, ends in '\n' and holds no other '\n' and no '\r'. */
  predicate SimpleLine(l: String) {
    1 <= |l| <= LINE_CAP && l[|l| - 1] == '\n'
    && forall m :: 0 <= m < |l| - 1 ==> l[m] != '\n' && l[m] != '\r'
  }

  lemma FramedSimpleLine(l: String, rest: String)
    requires SimpleLine(l)
    ensures FramedLine(l + rest) == Frame(l, |l|)
  {
    var s := l + rest;
    assert forall m :: 0 <= m < |l| - 1 ==> s[m] == l[m];
    assert s[|l| - 1] == '\n';
    IndexFromAt(s, '\n', 0, |l| - 1);
    assert s[..|l|] == l;
  }

  /** A line a client ends with "\r\n" is read back with a single '\n', both bytes consumed. */
  lemma FramedCrlfLine(l: String, rest: String)
    requires |l| + 2 <= LINE_CAP
    requires forall m :: 0 <= m < |l| ==> l[m] != '\n' && l[m] != '\r'
    ensures FramedLine(l + "\r\n" + rest) == Frame(l + "\n", |l| + 2)
  {
    var s := l + "\r\n" + rest;
    assert forall m :: 0 <= m < |l| ==> s[m] == l[m];
    assert s[|l|] == '\r' && s[|l| + 1] == '\n';
    IndexFromAt(s, '\n', 0, |l| + 1);
    assert s[..|l|] == l;
  }
}

/**
 * The first, thread-per-connection server (http_server.c): it reads the
 * request line, serves GET from the "htmldoc" directory after discarding the
 * remaining header lines, and writes its fixed replies line by line.
 */
module ThreadServer {
  import opened CString
  import opened LineFraming
  import opened HttpResponse
  import RequestParser

  const MAX_METHOD_LEN: nat := 15
  const MAX_URL_LEN: nat := 255
  const MAX_PATH_LEN: nat := 512
  const DOC_ROOT: String := "htmldoc"

  // ---------------------------------------------------------------------
  // Fixed replies

  /** The lines not_found (http_server.c:82-102) sends, each followed by "\r\n". */
  const NOT_FOUND_LINES: seq<String> := [
    "HTTP/1.0 404 NOT FOUND", SERVER_BASE_STR, CONTENT_TYPE_HTML, "",
    "<HTML><TITLE>Not Found</TITLE>",
    "<BODY><P>The server could not fulfill",
    "your request because the resource specified",
    "is unavailable or nonexistent.",
    "</BODY></HTML>"]

  /** The lines unimplemented (http_server.c:104-122) sends. */
  const UNIMPLEMENTED_LINES: seq<String> := [
    "HTTP/1.0 501 Method Not Implemented", SERVER_BASE_STR, CONTENT_TYPE_HTML, "",
    "<HTML><HEAD><TITLE>Method Not Implemented",
    "</TITLE></HEAD>",
    "<BODY><P>HTTP request method not supported.",
    "</BODY></HTML>"]

  /** The lines send_response_headers (http_server.c:124-141) sends. */
  const HEADER_LINES: seq<String> := ["HTTP/1.0 200 OK", SERVER_BASE_STR, CONTENT_TYPE_HTML, ""]

  /**
   * One sprintf(buf, "<line>\r\n") or strcpy, then send(client, buf,
   * strlen(buf), 0): the line is the k-th of `lines`, and the first k were
   * sent since `base`.
   */
  method SendLine(sent: String, line: String, ghost base: String, ghost lines: seq<String>, ghost k: nat)
    returns (sent': String)
    requires k < |lines| && line == lines[k]
    requires sent == base + JoinCrlf(lines[..k])
    ensures sent' == base + JoinCrlf(lines[..k + 1])
  {
    var buf := line + CRLF;
    sent' := sent + buf;
    assert lines[..k + 1] == lines[..k] + [line];
    JoinCrlfSplit(lines[..k], [line]);
    assert [line][1..] == [];
  }

  /** not_found: the 404 header block, then a four-line page. */
  method NotFound(sent: String) returns (sent': String)
    ensures sent' == sent + JoinCrlf(NOT_FOUND_LINES)
  {
    sent' := sent;
    sent' := SendLine(sent', "HTTP/1.0 404 NOT FOUND", sent, NOT_FOUND_LINES, 0);
    sent' := SendLine(sent', SERVER_BASE_STR, sent, NOT_FOUND_LINES, 1);
    sent' := SendLine(sent', CONTENT_TYPE_HTML, sent, NOT_FOUND_LINES, 2);
    sent' := SendLine(sent', "", sent, NOT_FOUND_LINES, 3);
    sent' := SendLine(sent', "<HTML><TITLE>Not Found</TITLE>", sent, NOT_FOUND_LINES, 4);
    sent' := SendLine(sent', "<BODY><P>The server could not fulfill", sent, NOT_FOUND_LINES, 5);
    sent' := SendLine(sent', "your request because the resource specified", sent, NOT_FOUND_LINES, 6);
    sent' := SendLine(sent', "is unavailable or nonexistent.", sent, NOT_FOUND_LINES, 7);
    sent' := SendLine(sent', "</BODY></HTML>", sent, NOT_FOUND_LINES, 8);
    assert NOT_FOUND_LINES[..9] == NOT_FOUND_LINES;
  }

  /** unimplemented: the 501 header block, then a four-line page. */
  method Unimplemented(sent: String) returns (sent': String)
    ensures sent' == sent + JoinCrlf(UNIMPLEMENTED_LINES)
  {
    sent' := sent;
    sent' := SendLine(sent', "HTTP/1.0 501 Method Not Implemented", sent, UNIMPLEMENTED_LINES, 0);
    sent' := SendLine(sent', SERVER_BASE_STR, sent, UNIMPLEMENTED_LINES, 1);
    sent' := SendLine(sent', CONTENT_TYPE_HTML, sent, UNIMPLEMENTED_LINES, 2);
    sent' := SendLine(sent', "", sent, UNIMPLEMENTED_LINES, 3);
    sent' := SendLine(sent', "<HTML><HEAD><TITLE>Method Not Implemented", sent, UNIMPLEMENTED_LINES, 4);
    sent' := SendLine(sent', "</TITLE></HEAD>", sent, UNIMPLEMENTED_LINES, 5);
    sent' := SendLine(sent', "<BODY><P>HTTP request method not supported.", sent, UNIMPLEMENTED_LINES, 6);
    sent' := SendLine(sent', "</BODY></HTML>", sent, UNIMPLEMENTED_LINES, 7);
    assert UNIMPLEMENTED_LINES[..8] == UNIMPLEMENTED_LINES;
  }

  /** send_response_headers: the 200 header block; the file name is not used. */
  method SendResponseHeaders(sent: String, filename: String) returns (sent': String)
    ensures sent' == sent + JoinCrlf(HEADER_LINES)
  {
    sent' := sent;
    sent' := SendLine(sent', "HTTP/1.0 200 OK", sent, HEADER_LINES, 0);
    sent' := SendLine(sent', SERVER_BASE_STR, sent, HEADER_LINES, 1);
    sent' := SendLine(sent', CONTENT_TYPE_HTML, sent, HEADER_LINES, 2);
    sent' := SendLine(sent', "", sent, HEADER_LINES, 3);
    assert HEADER_LINES[..4] == HEADER_LINES;
  }

  /**
   * send_response_headers sends the bytes of the libevent-free server's
   * http_ok, so a client cutting them at "\r\n" reads back the four lines.
   */
  lemma HeadersAsHttpOk()
    ensures HEADER_LINES == Messages(Ok200)
    ensures JoinCrlf(HEADER_LINES) == Response(Ok200)
    ensures SplitCrlf(JoinCrlf(HEADER_LINES)) == HEADER_LINES
  {
    assert StatusLine(Ok200) == "HTTP/1.0 200 OK";
    ResponseLines(Ok200);
  }

  /**
   * not_found and unimplemented open with the header blocks of http_not_found
   * and http_not_implemented: the same status line, "Server: WUW", the HTML
   * content type and the empty line; only the pages after them differ.
   */
  lemma NotFoundHeadersShared()
    ensures NOT_FOUND_LINES[..4] == ReplyMessages(StatusLine(NotFound404), None)
  {
    assert StatusLine(NotFound404) == "HTTP/1.0 404 NOT FOUND";
  }

  /** The same for unimplemented and http_not_implemented. */
  lemma UnimplementedHeadersShared()
    ensures UNIMPLEMENTED_LINES[..4] == ReplyMessages(StatusLine(NotImplemented501), None)
  {
    assert StatusLine(NotImplemented501) == "HTTP/1.0 501 Method Not Implemented";
  }

  // ---------------------------------------------------------------------
  // Discarding the header lines

  /**
   * How many bytes the discard loops of http_server.c:157-163 and :214-217
   * read from `s`: line after line until a line is "\n" or the read stores
   * nothing.
   */
  function Discarded(s: String): (n: nat)
    ensures n <= |s|
    decreases |s|
  {
    var f := SocketLine(s);
    if f.line == [] || f.line == "\n" then f.consumed
    else f.consumed + Discarded(s[f.consumed..])
  }

  /** The discard loop, entered with a last line of `len` bytes that is not "\n". */
  method DiscardHeaders(input: String, pos: nat, len: int, line: String) returns (next: nat)
    requires pos <= |input|
    requires len > 0 && line != "\n"
    ensures next == pos + Discarded(input[pos..])
  {
    var numchars, buf := len, line;
    next := pos;
    while numchars > 0 && buf != "\n"
      invariant pos <= next <= |input|
      invariant numchars > 0 && buf != "\n" ==> pos + Discarded(input[pos..]) == next + Discarded(input[next..])
      invariant !(numchars > 0 && buf != "\n") ==> next == pos + Discarded(input[pos..])
      decreases |input| - next + (if numchars > 0 && buf != "\n" then 1 else 0)
    {
      ghost var before := next;
      buf, numchars, next := GetLineFromSocket(input, next);
      assert input[before..][SocketLine(input[before..]).consumed..] == input[next..];
    }
  }

  /** A header line as a client writes it: not empty, within the cap, no CR or LF. */
  predicate HeaderText(l: String) {
    0 < |l| < LINE_CAP && forall m :: 0 <= m < |l| ==> l[m] != '\n' && l[m] != '\r'
  }

  /** A line ended by "\r\n" is read whole, its terminator stored as one '\n'. */
  lemma SocketCrlfLine(l: String, rest: String)
    requires |l| < LINE_CAP
    requires forall m :: 0 <= m < |l| ==> l[m] != '\n' && l[m] != '\r'
    ensures SocketLine(l + CRLF + rest) == Frame(l + "\n", |l| + 2)
  {
    var s := l + CRLF + rest;
    assert forall m :: 0 <= m < |l| ==> s[m] == l[m];
    assert s[|l|] == '\r' && s[|l| + 1] == '\n';
    assert IndexFrom(s, '\r', 0) == |l| by { IndexFromAt(s, '\r', 0, |l|); }
    assert s[..|l|] == l;
  }

  /**
   * Header lines sent with "\r\n" and closed by an empty line are read up to
   * and including that empty line, and not a byte further: what follows
   * stays unread.
   */
  lemma {:induction false} DiscardHeaderBlock(ls: seq<String>, rest: String)
    requires forall i :: 0 <= i < |ls| ==> HeaderText(ls[i])
    ensures Discarded(JoinCrlf(ls) + (CRLF + rest)) == |JoinCrlf(ls)| + 2
    decreases |ls|
  {
    if ls == [] {
      SocketCrlfLine([], rest);
      assert [] + CRLF + rest == CRLF + rest;
    } else {
      var l := ls[0];
      var tail := JoinCrlf(ls[1..]) + (CRLF + rest);
      var s := JoinCrlf(ls) + (CRLF + rest);
      assert s == l + CRLF + tail;
      assert HeaderText(l);
      SocketCrlfLine(l, tail);
      assert (l + "\n")[|l|] == '\n';
      assert s[|l| + 2..] == tail;
      DiscardHeaderBlock(ls[1..], rest);
    }
  }

  // ---------------------------------------------------------------------
  // The request line

  /** Where get_method_from_str stops: white space, or 14 characters. */
  function MethodEnd(buf: String): nat
    requires TokenBounded(buf, 0, MAX_METHOD_LEN - 1)
  {
    TokenEnd(buf, 0, MAX_METHOD_LEN - 1)
  }

  /** The method name as strcasecmp sees it. */
  function MethodOf(buf: String): String
    requires TokenBounded(buf, 0, MAX_METHOD_LEN - 1)
  {
    CStr(buf[..MethodEnd(buf)])
  }

  /** The first byte of the URL token, after the white space that follows the method. */
  function UrlStart(buf: String): nat
    requires TokenBounded(buf, 0, MAX_METHOD_LEN - 1)
  {
    SkipSpaces(buf, MethodEnd(buf))
  }

  /** The request line parses without reading past its end. */
  predicate LineDefined(buf: String) {
    && |buf| <= LINE_CAP
    && TokenBounded(buf, 0, MAX_METHOD_LEN - 1)
    && (RequestParser.ModeOf(MethodOf(buf)) != RequestParser.NotImplement ==>
          TokenBounded(buf, UrlStart(buf), MAX_URL_LEN - 1))
  }

  /** The URL token as copied: at most 254 bytes up to white space. */
  function RawUrl(buf: String): (u: String)
    requires LineDefined(buf) && RequestParser.ModeOf(MethodOf(buf)) != RequestParser.NotImplement
    ensures |u| <= MAX_URL_LEN - 1 && NoNul(u)
  {
    CStr(buf[UrlStart(buf)..TokenEnd(buf, UrlStart(buf), MAX_URL_LEN - 1)])
  }

  /** The URL the handler uses: for GET the part before the first '?'. */
  function UrlOf(buf: String): (u: String)
    requires LineDefined(buf) && RequestParser.ModeOf(MethodOf(buf)) != RequestParser.NotImplement
    ensures |u| <= MAX_URL_LEN - 1
    ensures RequestParser.ModeOf(MethodOf(buf)) == RequestParser.Get ==> '?' !in u
  {
    var raw := RawUrl(buf);
    if RequestParser.ModeOf(MethodOf(buf)) == RequestParser.Get then RequestParser.SplitAtQuery(raw).0 else raw
  }

  /** get_method_from_str (http_server.c:51-59): copies the method and returns its length. */
  method GetMethodFromStr(buf: String) returns (name: String, n: nat)
    requires |buf| <= LINE_CAP && TokenBounded(buf, 0, MAX_METHOD_LEN - 1)
    ensures n == MethodEnd(buf) && n <= MAX_METHOD_LEN - 1
    ensures name == buf[..n] && forall m :: 0 <= m < n ==> !IsSpace(buf[m])
  {
    name, n := RequestParser.CopyToken(buf, 0, MAX_METHOD_LEN - 1);
  }

  /**
   * get_url_from_str (http_server.c:61-80) on buf + anchor: skip white
   * space, copy at most 254 bytes; for GET cut the URL at its first '?' and
   * return the query string after it ("" without one), otherwise NULL.
   */
  method GetUrlFromStr(buf: String, anchor: nat, mode: RequestParser.Mode) returns (url: String, query: Option<String>)
    requires anchor <= |buf| <= LINE_CAP
    requires TokenBounded(buf, SkipSpaces(buf, anchor), MAX_URL_LEN - 1)
    ensures var p := SkipSpaces(buf, anchor);
      var raw := CStr(buf[p..TokenEnd(buf, p, MAX_URL_LEN - 1)]);
      && (mode == RequestParser.Get ==> url == RequestParser.SplitAtQuery(raw).0 && query == Some(RequestParser.SplitAtQuery(raw).1))
      && (mode != RequestParser.Get ==> url == raw && query == None)
  {
    var p := RequestParser.SkipSpaceRun(buf, anchor);
    var token, _ := RequestParser.CopyToken(buf, p, MAX_URL_LEN - 1);
    if mode == RequestParser.Get {
      var path, q := RequestParser.SplitQuery(token);
      url, query := path, Some(q);
    } else {
      url, query := CStr(token), None;
    }
  }

  // ---------------------------------------------------------------------
  // accept_request_handler

  /** The file path for a URL: "htmldoc" and the URL, with "index.html" added after a final '/'. */
  function ServerPath(url: String): (p: String)
    ensures |DOC_ROOT| <= |p| <= |DOC_ROOT| + |url| + 10
    ensures p[..|DOC_ROOT|] == DOC_ROOT
  {
    var p := DOC_ROOT + url;
    if p[|p| - 1] == '/' then p + "index.html" else p
  }

  /** What stat reports for the path. */
  datatype Stat = StatFails | IsDirectory | IsOther

  /** How a request ended. */
  datatype Handled =
    | Refused                      // a method other than GET and POST
    | Missing(path: String)        // stat failed: 404
    | FileSent(path: String)       // headers sent, then the file's lines
    | UploadIgnored(path: String)  // POST: recv_file_from_client does nothing

  /**
   * accept_request_handler (http_server.c:176-237) on a connection whose
   * bytes are `input`; `stat` is what stat reports for the path and `opens`
   * whether fopen succeeds in send_file_to_client. `closed` is whether the
   * handler reaches close(client).
   */
  method AcceptRequestHandler(input: String, stat: Stat, opens: bool, sent: String)
    returns (sent': String, next: nat, handled: Handled, closed: bool)
    requires LineDefined(SocketLine(input).line)
    requires stat != StatFails && RequestParser.ModeOf(MethodOf(SocketLine(input).line)) == RequestParser.Get ==> opens
    ensures var f := SocketLine(input);
      var mode := RequestParser.ModeOf(MethodOf(f.line));
      && (mode == RequestParser.NotImplement ==>
            sent' == sent + JoinCrlf(UNIMPLEMENTED_LINES) && handled == Refused && !closed && next == f.consumed)
      && (mode != RequestParser.NotImplement ==>
            var p := ServerPath(UrlOf(f.line));
            var q := if stat == IsDirectory then p + "/index.html" else p;
            && closed && |q| < MAX_PATH_LEN
            && (stat == StatFails ==>
                  handled == Missing(p) && sent' == sent + JoinCrlf(NOT_FOUND_LINES)
                  && next == f.consumed + Discarded(input[f.consumed..]))
            && (stat != StatFails && mode == RequestParser.Get ==>
                  handled == FileSent(q) && sent' == sent + JoinCrlf(HEADER_LINES)
                  && next == f.consumed + Discarded(input[f.consumed..]))
            && (stat != StatFails && mode == RequestParser.Post ==>
                  handled == UploadIgnored(q) && sent' == sent && next == f.consumed))
  {
    var buf, strLen, cur, anchor, mode := ReadRequestLine(input);
    if mode == RequestParser.NotImplement {
      sent' := Unimplemented(sent);
      return sent', cur, Refused, false;
    }
    var path := TargetPath(buf, anchor, mode);
    closed := true;
    if stat == StatFails {
      next := DiscardHeaders(input, cur, strLen, buf);
      sent' := NotFound(sent);
      return sent', next, Missing(path), closed;
    }
    if stat == IsDirectory {
      path := path + "/index.html";
    }
    if mode == RequestParser.Get {
      // send_file_to_client: discard the headers, then fopen
      next := DiscardHeaders(input, cur, 1, "A");
      sent' := SendResponseHeaders(sent, path);
      handled := FileSent(path);
    } else {
      sent', next, handled := sent, cur, UploadIgnored(path);
    }
  }

  /**
   * The start of accept_request_handler (http_server.c:190-205): read the
   * request line, copy the method and compare it with GET and POST.
   */
  method ReadRequestLine(input: String) returns (buf: String, strLen: int, cur: nat, anchor: nat, mode: RequestParser.Mode)
    requires LineDefined(SocketLine(input).line)
    ensures buf == SocketLine(input).line && cur == SocketLine(input).consumed && strLen == |buf|
    ensures anchor == MethodEnd(buf) && mode == RequestParser.ModeOf(MethodOf(buf))
    ensures mode != RequestParser.NotImplement ==> strLen > 0 && buf != "\n"
  {
    ghost var f := SocketLine(input);
    assert SocketLine(input[0..]) == f by { assert input[0..] == input; }
    buf, strLen, cur := GetLineFromSocket(input, 0);
    var name;
    name, anchor := GetMethodFromStr(buf);
    if EqualsIgnoreCase(CStr(name), "GET") {
      mode := RequestParser.Get;
    } else if EqualsIgnoreCase(CStr(name), "POST") {
      mode := RequestParser.Post;
    } else {
      mode := RequestParser.NotImplement;
    }
    if mode != RequestParser.NotImplement {
      assert |CStr(name)| > 0;
      assert buf[0] == name[0];
    }
  }

  /**
   * The path accept_request_handler builds (http_server.c:207-215): the URL
   * after the method, "htmldoc" before it and "index.html" after a final '/'.
   */
  method TargetPath(buf: String, anchor: nat, mode: RequestParser.Mode) returns (path: String)
    requires LineDefined(buf) && anchor == MethodEnd(buf)
    requires mode == RequestParser.ModeOf(MethodOf(buf)) && mode != RequestParser.NotImplement
    ensures path == ServerPath(UrlOf(buf))
  {
    assert SkipSpaces(buf, anchor) == UrlStart(buf);
    var url, _ := GetUrlFromStr(buf, anchor, mode);
    assert url == UrlOf(buf);
    path := DOC_ROOT + url;
    if path[|path| - 1] == '/' {
      path := path + "index.html";
    }
  }

  /** Nothing stops ".." in a URL: the path leaves the document directory. */
  lemma TraversalUnchecked()
    ensures ServerPath("/../secret") == "htmldoc/../secret"
  {
  }
}

/**
 * Request parsing of the bufferevent server (src/http_functions.c).
 *
 * get_first_header reads the request line and splits it into method, URL
 * (cut at '?' into path and query string for GET) and version, the
 * Request-Line of section 5.1 of RFC 1945. get_other_headers then reads every
 * remaining line into one reused 1024-byte buffer and picks out Connection,
 * Content-Type (multipart boundary) and Content-Length.
 *
 * Reads of the line buffer beyond what the scans can reach in bounds are
 * undefined behaviour in C; they become preconditions here.
 */
module RequestParser {
  import opened CString
  import opened LineFraming
  import opened HttpResponse

  /** Sizes of the char arrays of the header record, terminator included. */
  const HTTP_HDR_METHOD_LEN: nat := 10
  const HTTP_HDR_URL_LEN: nat := 1024
  const HTTP_HDR_VERSION_LEN: nat := 10

  const MULTIPART: String := "multipart/form-data"

  /** enum http_method as far as this server tells methods apart: NOT_IMPLEMENT = -1, GET = 0, POST = 1. */
  datatype Mode = NotImplement | Get | Post

  /**
   * The parsed request. Every string field holds the C string stored in the
   * corresponding char array; `length` is the C int set from Content-Length.
   */
  datatype Headers = Headers(
    methodName: String, mode: Mode, url: String, query: String, version: String,
    boundary: String, alive: bool, length: int)

  /** The record after do_accept_cb zeroes it: empty strings, mode 0 (GET), not alive, length 0. */
  const ZeroHeaders: Headers := Headers("", Get, "", "", "", "", false, 0)

  /** The byte at index i of a NUL-terminated line; index |line| holds the terminator. */
  function CharAt(line: String, i: nat): char
    requires i <= |line|
  {
    if i < |line| then line[i] else '\0'
  }

  /** The case-insensitive method compare of get_method_from_str. */
  function ModeOf(name: String): Mode {
    if EqualsIgnoreCase(name, "GET") then Get
    else if EqualsIgnoreCase(name, "POST") then Post
    else NotImplement
  }

  // ---------------------------------------------------------------------
  // Scanning loops shared by the request-line parsers

  /** `while (isSpace(buf[i]) && i < MAX_LINE_LEN) i++;` on the line starting at `from`. */
  method SkipSpaceRun(line: String, from: nat) returns (p: nat)
    requires from <= |line| < MAX_LINE_LEN
    ensures p == SkipSpaces(line, from)
  {
    ghost var k := SkipSpaces(line, from);
    var i := 0;
    while IsSpace(CharAt(line, from + i)) && i < MAX_LINE_LEN
      invariant from + i <= k
      decreases k - (from + i)
    {
      i := i + 1;
    }
    p := from + i;
  }

  /**
   * The copy loop of the request-line parsers: non-space bytes from `p` on,
   * at most `cap` of them. The relative bound `i < MAX_LINE_LEN` never fires
   * on a line the reader produced.
   */
  method CopyToken(line: String, p: nat, cap: nat) returns (tok: String, e: nat)
    requires p <= |line| < MAX_LINE_LEN
    requires TokenBounded(line, p, cap)
    ensures e == TokenEnd(line, p, cap)
    ensures tok == line[p..e]
  {
    ghost var k := TokenEnd(line, p, cap);
    var j := 0;
    tok := [];
    while !IsSpace(CharAt(line, p + j)) && j < MAX_LINE_LEN && j < cap
      invariant p + j <= k
      invariant tok == line[p..p + j]
      decreases k - (p + j)
    {
      tok := tok + [line[p + j]];
      j := j + 1;
    }
    e := p + j;
  }

  // ---------------------------------------------------------------------
  // The request line

  /** The URL split at its first '?': the path before it and the query string after it. */
  function SplitAtQuery(url: String): (r: (String, String))
    ensures '?' !in r.0
    ensures '?' in url ==> r.0 + ['?'] + r.1 == url
    ensures '?' !in url ==> r == (url, [])
  {
    var q := IndexFrom(url, '?', 0);
    if q < |url| then
      assert url == url[..q] + ['?'] + url[q + 1..];
      (url[..q], url[q + 1..])
    else (url, [])
  }

  /** The query-string loop of get_url_from_str on the copied URL (src/http_functions.c:90-98). */
  method SplitQuery(url: String) returns (path: String, query: String)
    ensures (path, query) == SplitAtQuery(CStr(url))
  {
    ghost var raw := CStr(url);
    var q := 0;
    while CharAt(url, q) != '?' && CharAt(url, q) != '\0'
      invariant q <= |raw|
      invariant forall m :: 0 <= m < q ==> raw[m] != '?'
      decreases |raw| - q
    {
      q := q + 1;
    }
    assert q < |raw| ==> url[q] == raw[q];
    if CharAt(url, q) == '?' {
      // *query_string = '\0'; query_string++;
      assert q < |raw|;
      IndexFromAt(raw, '?', 0, q);
      path, query := url[..q], CStr(url[q + 1..]);
      ghost var rest := url[q + 1..];
      ghost var n := |raw| - q - 1;
      assert rest[..n] == raw[q + 1..];
      assert forall m :: 0 <= m < n ==> rest[m] == raw[q + 1 + m];
      if |raw| < |url| {
        assert rest[n] == '\0';
      }
      IndexFromAt(rest, '\0', 0, n);
      assert query == raw[q + 1..];
      assert path == raw[..q];
    } else {
      assert q == |raw|;
      IndexFromAt(raw, '?', 0, q);
      path, query := CStr(url), [];
      assert path == raw;
    }
  }

  function MethodEnd(line: String): nat
    requires TokenBounded(line, 0, HTTP_HDR_METHOD_LEN - 1)
  {
    TokenEnd(line, 0, HTTP_HDR_METHOD_LEN - 1)
  }

  function UrlStart(line: String): nat
    requires TokenBounded(line, 0, HTTP_HDR_METHOD_LEN - 1)
  {
    SkipSpaces(line, MethodEnd(line))
  }

  function UrlEnd(line: String): nat
    requires TokenBounded(line, 0, HTTP_HDR_METHOD_LEN - 1)
    requires TokenBounded(line, UrlStart(line), HTTP_HDR_URL_LEN - 1)
  {
    TokenEnd(line, UrlStart(line), HTTP_HDR_URL_LEN - 1)
  }

  function VersionStart(line: String): nat
    requires TokenBounded(line, 0, HTTP_HDR_METHOD_LEN - 1)
    requires TokenBounded(line, UrlStart(line), HTTP_HDR_URL_LEN - 1)
  {
    SkipSpaces(line, UrlEnd(line))
  }

  /**
   * The request line can be parsed without reading past its terminator: each
   * token the parsers copy ends at a white-space byte inside the line or
   * fills its array. The URL and version are read only for GET and POST.
   */
  predicate RequestLineDefined(line: String) {
    && TokenBounded(line, 0, HTTP_HDR_METHOD_LEN - 1)
    && (ModeOf(MethodToken(line)) != NotImplement ==>
          && TokenBounded(line, UrlStart(line), HTTP_HDR_URL_LEN - 1)
          && TokenBounded(line, VersionStart(line), HTTP_HDR_VERSION_LEN - 1))
  }

  /** The method name get_method_from_str stores. */
  function MethodToken(line: String): String
    requires TokenBounded(line, 0, HTTP_HDR_METHOD_LEN - 1)
  {
    CStr(line[..MethodEnd(line)])
  }

  /** The URL get_url_from_str copies, before any '?' split. */
  function UrlToken(line: String): String
    requires TokenBounded(line, 0, HTTP_HDR_METHOD_LEN - 1)
    requires TokenBounded(line, UrlStart(line), HTTP_HDR_URL_LEN - 1)
  {
    CStr(line[UrlStart(line)..UrlEnd(line)])
  }

  /** The version get_version_from_str copies. */
  function VersionToken(line: String): String
    requires TokenBounded(line, 0, HTTP_HDR_METHOD_LEN - 1)
    requires TokenBounded(line, UrlStart(line), HTTP_HDR_URL_LEN - 1)
    requires TokenBounded(line, VersionStart(line), HTTP_HDR_VERSION_LEN - 1)
  {
    var vs := VersionStart(line);
    CStr(line[vs..TokenEnd(line, vs, HTTP_HDR_VERSION_LEN - 1)])
  }

  /** The URL fields as get_url_from_str sets them: GET splits off the query string, POST keeps it all. */
  function WithUrl(hdr: Headers, raw: String): Headers {
    if hdr.mode == Get then hdr.(url := SplitAtQuery(raw).0, query := SplitAtQuery(raw).1)
    else hdr.(url := raw)
  }

  /** The header record after get_first_header has parsed `line`. */
  function RequestLine(line: String, hdr: Headers): Headers
    requires RequestLineDefined(line)
  {
    var name := MethodToken(line);
    var h := hdr.(methodName := name, mode := ModeOf(name));
    if h.mode == NotImplement then h
    else WithUrl(h, UrlToken(line)).(version := VersionToken(line))
  }

  /** get_method_from_str (src/http_functions.c:64-78); `anchor` is where the returned pointer points. */
  method GetMethodFromStr(line: String, hdr: Headers) returns (hdr': Headers, anchor: nat)
    requires |line| < MAX_LINE_LEN
    requires TokenBounded(line, 0, HTTP_HDR_METHOD_LEN - 1)
    ensures anchor == MethodEnd(line) <= HTTP_HDR_METHOD_LEN - 1
    ensures forall m :: 0 <= m < anchor ==> !IsSpace(line[m])
    ensures hdr'.methodName == CStr(line[..anchor])
    ensures hdr' == hdr.(methodName := hdr'.methodName, mode := ModeOf(hdr'.methodName))
    ensures hdr'.mode == Get <==> EqualsIgnoreCase(hdr'.methodName, "GET")
    ensures hdr'.mode == Post <==> EqualsIgnoreCase(hdr'.methodName, "POST")
  {
    var token;
    token, anchor := CopyToken(line, 0, HTTP_HDR_METHOD_LEN - 1);
    var m := CStr(token);
    var mode;
    if EqualsIgnoreCase(m, "GET") {
      mode := Get;
    } else if EqualsIgnoreCase(m, "POST") {
      mode := Post;
    } else {
      mode := NotImplement;
    }
    hdr' := hdr.(methodName := m, mode := mode);
  }

  /**
   * get_url_from_str (src/http_functions.c:80-100): skip white space, copy at
   * most 1023 non-space bytes; for GET only, split the URL at its first '?'.
   */
  method GetUrlFromStr(line: String, from: nat, hdr: Headers) returns (hdr': Headers, next: nat)
    requires from <= |line| < MAX_LINE_LEN
    requires TokenBounded(line, SkipSpaces(line, from), HTTP_HDR_URL_LEN - 1)
    ensures next == TokenEnd(line, SkipSpaces(line, from), HTTP_HDR_URL_LEN - 1)
    ensures hdr' == WithUrl(hdr, CStr(line[SkipSpaces(line, from)..next]))
  {
    var p := SkipSpaceRun(line, from);
    var url;
    url, next := CopyToken(line, p, HTTP_HDR_URL_LEN - 1);
    if hdr.mode == Get {
      var path, query := SplitQuery(url);
      hdr' := hdr.(url := path, query := query);
    } else {
      hdr' := hdr.(url := CStr(url));
    }
  }

  /**
   * get_version_from_str (src/http_functions.c:102-110): skip white space,
   * copy at most 9 bytes up to white space. Its extra test for '\n' is
   * subsumed, '\n' being white space.
   */
  method GetVersionFromStr(line: String, from: nat, hdr: Headers) returns (hdr': Headers)
    requires from <= |line| < MAX_LINE_LEN
    requires TokenBounded(line, SkipSpaces(line, from), HTTP_HDR_VERSION_LEN - 1)
    ensures var p := SkipSpaces(line, from);
      hdr' == hdr.(version := CStr(line[p..TokenEnd(line, p, HTTP_HDR_VERSION_LEN - 1)]))
  {
    var p := SkipSpaceRun(line, from);
    var version, _ := CopyToken(line, p, HTTP_HDR_VERSION_LEN - 1);
    hdr' := hdr.(version := CStr(version));
  }

  /**
   * get_first_header (src/http_functions.c:112-132): read the request line;
   * for a method other than GET and POST send 501 and return -1 without
   * parsing further.
   */
  method GetFirstHeader(input: String, pos: nat, hdr: Headers, sent: String)
    returns (hdr': Headers, ret: int, next: nat, sent': String)
    requires pos <= |input|
    requires RequestLineDefined(FramedLine(input[pos..]).line)
    ensures next == pos + FramedLine(input[pos..]).consumed
    ensures hdr' == RequestLine(FramedLine(input[pos..]).line, hdr)
    ensures ret == -1 <==> hdr'.mode == NotImplement
    ensures ret == 0 || ret == -1
    ensures sent' == sent + if ret == -1 then Response(NotImplemented501) else []
  {
    var line, _, nxt := GetLineFromBufferevent(input, pos);
    next := nxt;
    var anchor;
    hdr', anchor := GetMethodFromStr(line, hdr);
    if hdr'.mode == NotImplement {
      sent' := HttpNotImplemented(sent);
      return hdr', -1, next, sent';
    }
    hdr', anchor := GetUrlFromStr(line, anchor, hdr');
    hdr' := GetVersionFromStr(line, anchor, hdr');
    ret, sent' := 0, sent;
  }

  /** A token a client writes in a request line: non-empty, no white space, no NUL, at most `cap` bytes. */
  predicate Token(t: String, cap: nat) {
    1 <= |t| <= cap && NoNul(t) && forall m :: 0 <= m < |t| ==> !IsSpace(t[m])
  }

  /**
   * A Request-Line "Method SP Request-URI SP HTTP-Version" (section 5.1 of
   * RFC 1945) is parsed back into its three tokens: the method and, unless
   * the method is refused, the version and the URL, which GET splits into
   * path and query string.
   */
  lemma RequestLineRoundTrip(m: String, u: String, v: String, hdr: Headers)
    requires Token(m, HTTP_HDR_METHOD_LEN - 1) && Token(u, HTTP_HDR_URL_LEN - 1)
    requires Token(v, HTTP_HDR_VERSION_LEN - 1)
    ensures var line := m + " " + u + " " + v + "\n";
      && RequestLineDefined(line)
      && var r := RequestLine(line, hdr);
      && r.methodName == m && r.mode == ModeOf(m)
      && (r.mode == NotImplement ==> r == hdr.(methodName := m, mode := NotImplement))
      && (r.mode == Get ==> r == hdr.(methodName := m, mode := Get, url := SplitAtQuery(u).0,
                                      query := SplitAtQuery(u).1, version := v))
      && (r.mode == Post ==> r == hdr.(methodName := m, mode := Post, url := u, version := v))
  {
    var line := m + " " + u + " " + v + "\n";
    RequestLineTokens(line, m, u, v);
    RequestLineFields(line, m, u, v, hdr);
  }

  /** Where the three tokens of a client's request line are found. */
  lemma RequestLineTokens(line: String, m: String, u: String, v: String)
    requires Token(m, HTTP_HDR_METHOD_LEN - 1) && Token(u, HTTP_HDR_URL_LEN - 1)
    requires Token(v, HTTP_HDR_VERSION_LEN - 1)
    requires line == m + " " + u + " " + v + "\n"
    ensures TokenBounded(line, 0, HTTP_HDR_METHOD_LEN - 1) && MethodToken(line) == m
    ensures TokenBounded(line, UrlStart(line), HTTP_HDR_URL_LEN - 1)
    ensures TokenBounded(line, VersionStart(line), HTTP_HDR_VERSION_LEN - 1)
    ensures UrlToken(line) == u && VersionToken(line) == v
  {
    RequestLineLayout(m, u, v);
    MethodOfRequestLine(m, " " + u + " " + v + "\n");
    UrlOfRequestLine(line, |m|, u, v);
    UrlAndVersionTokens(line, |m|, u, v);
  }

  /** Where the separators and tokens of "m u v\n" lie. */
  lemma RequestLineLayout(m: String, u: String, v: String)
    ensures var line := m + " " + u + " " + v + "\n";
      var a := |m|;
      && line == m + (" " + u + " " + v + "\n")
      && a + 3 + |u| + |v| == |line|
      && line[a] == ' ' && line[a + 1 + |u|] == ' ' && line[|line| - 1] == '\n'
      && line[a + 1..a + 1 + |u|] == u && line[a + 2 + |u|..|line| - 1] == v
  {
    var line := m + " " + u + " " + v + "\n";
    var a := |m|;
    assert line[a + 1..a + 1 + |u|] == u;
    assert line[a + 2 + |u|..|line| - 1] == v;
  }

  /** The record RequestLine builds, from the three tokens of the line. */
  lemma RequestLineFields(line: String, m: String, u: String, v: String, hdr: Headers)
    requires TokenBounded(line, 0, HTTP_HDR_METHOD_LEN - 1) && MethodToken(line) == m
    requires ModeOf(m) != NotImplement ==>
      && TokenBounded(line, UrlStart(line), HTTP_HDR_URL_LEN - 1)
      && TokenBounded(line, VersionStart(line), HTTP_HDR_VERSION_LEN - 1)
      && UrlToken(line) == u && VersionToken(line) == v
    ensures RequestLineDefined(line)
    ensures var r := RequestLine(line, hdr);
      && r.methodName == m && r.mode == ModeOf(m)
      && (r.mode == NotImplement ==> r == hdr.(methodName := m, mode := NotImplement))
      && (r.mode == Get ==> r == hdr.(methodName := m, mode := Get, url := SplitAtQuery(u).0,
                                      query := SplitAtQuery(u).1, version := v))
      && (r.mode == Post ==> r == hdr.(methodName := m, mode := Post, url := u, version := v))
  {
  }

  /** The method token of a request line ends at the first space. */
  lemma MethodOfRequestLine(m: String, rest: String)
    requires Token(m, HTTP_HDR_METHOD_LEN - 1) && rest != [] && rest[0] == ' '
    ensures TokenBounded(m + rest, 0, HTTP_HDR_METHOD_LEN - 1)
    ensures MethodEnd(m + rest) == |m|
    ensures MethodToken(m + rest) == m
  {
    var line := m + rest;
    assert forall k :: 0 <= k < |m| ==> line[k] == m[k];
    assert line[|m|] == ' ';
    TokenEndAt(line, 0, HTTP_HDR_METHOD_LEN - 1, |m|);
    assert line[..|m|] == m;
    CStrNoNul(m);
  }

  /** URL and version of a request line whose method ends at `a`. */
  lemma UrlOfRequestLine(line: String, a: nat, u: String, v: String)
    requires Token(u, HTTP_HDR_URL_LEN - 1) && Token(v, HTTP_HDR_VERSION_LEN - 1)
    requires a + 3 + |u| + |v| == |line|
    requires line[a] == ' ' && line[a + 1 + |u|] == ' ' && line[|line| - 1] == '\n'
    requires line[a + 1..a + 1 + |u|] == u && line[a + 2 + |u|..|line| - 1] == v
    requires TokenBounded(line, 0, HTTP_HDR_METHOD_LEN - 1) && MethodEnd(line) == a
    ensures TokenBounded(line, UrlStart(line), HTTP_HDR_URL_LEN - 1)
    ensures UrlStart(line) == a + 1 && UrlEnd(line) == a + 1 + |u|
    ensures TokenBounded(line, VersionStart(line), HTTP_HDR_VERSION_LEN - 1)
    ensures VersionStart(line) == a + 2 + |u|
    ensures TokenEnd(line, a + 2 + |u|, HTTP_HDR_VERSION_LEN - 1) == |line| - 1
  {
    SpacedToken(line, a, u, HTTP_HDR_URL_LEN - 1);
    SpacedToken(line, a + 1 + |u|, v, HTTP_HDR_VERSION_LEN - 1);
  }

  /** A single space, then token `t`, then white space: the scans find `t`. */
  lemma SpacedToken(line: String, a: nat, t: String, cap: nat)
    requires Token(t, cap) && a + 1 + |t| < |line|
    requires line[a] == ' ' && line[a + 1..a + 1 + |t|] == t && IsSpace(line[a + 1 + |t|])
    ensures SkipSpaces(line, a) == a + 1
    ensures TokenBounded(line, a + 1, cap) && TokenEnd(line, a + 1, cap) == a + 1 + |t|
  {
    assert forall k :: a + 1 <= k < a + 1 + |t| ==> line[k] == t[k - a - 1];
    SkipSpacesAt(line, a, a + 1);
    TokenEndAt(line, a + 1, cap, a + 1 + |t|);
  }

  lemma UrlAndVersionTokens(line: String, a: nat, u: String, v: String)
    requires Token(u, HTTP_HDR_URL_LEN - 1) && Token(v, HTTP_HDR_VERSION_LEN - 1)
    requires a + 3 + |u| + |v| == |line|
    requires line[a + 1..a + 1 + |u|] == u && line[a + 2 + |u|..|line| - 1] == v
    requires TokenBounded(line, 0, HTTP_HDR_METHOD_LEN - 1)
    requires TokenBounded(line, UrlStart(line), HTTP_HDR_URL_LEN - 1)
    requires UrlStart(line) == a + 1 && UrlEnd(line) == a + 1 + |u|
    requires TokenBounded(line, VersionStart(line), HTTP_HDR_VERSION_LEN - 1)
    requires VersionStart(line) == a + 2 + |u|
    requires TokenEnd(line, a + 2 + |u|, HTTP_HDR_VERSION_LEN - 1) == |line| - 1
    ensures UrlToken(line) == u && VersionToken(line) == v
  {
    CStrNoNul(u);
    CStrNoNul(v);
  }

  // ---------------------------------------------------------------------
  // The other header lines

  /** The line buffer of get_other_headers after memset(buf, 0, MAX_LINE_LEN). */
  const ZeroBuffer: String := Zeros(MAX_LINE_LEN)

  /** `n` NUL bytes. */
  function Zeros(n: nat): (r: String)
    ensures |r| == n
  {
    if n == 0 then [] else Zeros(n - 1) + ['\0']
  }

  /**
   * The buffer after get_line_from_bufferevent has stored `line` into it:
   * the line, its terminator, and whatever earlier lines left behind.
   */
  function StoreLine(b: String, line: String): (r: String)
    requires |b| == MAX_LINE_LEN && |line| < MAX_LINE_LEN
    ensures |r| == MAX_LINE_LEN
    ensures r[..|line|] == line && r[|line|] == '\0' && r[|line| + 1..] == b[|line| + 1..]
  {
    line + ['\0'] + b[|line| + 1..]
  }

  /** Where the key scan stops: the first ':' among the first 1023 bytes, or 1023. */
  function KeyEnd(b: String): nat
    requires |b| == MAX_LINE_LEN
  {
    IndexFrom(b[..LINE_CAP], ':', 0)
  }

  /** The key as strcasecmp sees it. */
  function Key(b: String): String
    requires |b| == MAX_LINE_LEN
  {
    CStr(b[..KeyEnd(b)])
  }

  /** Where the value starts: past the ':' and any white space. */
  function ValueStart(b: String): nat
    requires |b| == MAX_LINE_LEN
  {
    SkipSpaces(b, KeyEnd(b) + 1)
  }

  /** The C string a value loop `while (buf[i] != stop && i < MAX_LINE_LEN - 1)` copies from `p`. */
  function ValueUntil(b: String, p: nat, stop: char): String
    requires |b| == MAX_LINE_LEN && p <= LINE_CAP
  {
    CStr(b[p..IndexFrom(b[..LINE_CAP], stop, p)])
  }

  predicate IsKnownKey(key: String) {
    EqualsIgnoreCase(key, "Connection") || EqualsIgnoreCase(key, "Content-Type")
    || EqualsIgnoreCase(key, "Content-Length")
  }

  /**
   * The scans of one header line stay inside the buffer: for a key that is
   * acted on, some non-space byte follows the ':' (the skip loop reads
   * buf[i] before testing i), and for a multipart Content-Type an '=' comes
   * early enough for the boundary loop to start inside the buffer.
   */
  predicate StepDefined(b: String)
    requires |b| == MAX_LINE_LEN
  {
    IsKnownKey(Key(b)) ==>
      && ValueStart(b) < MAX_LINE_LEN
      && (EqualsIgnoreCase(Key(b), "Content-Type") ==> BoundaryDefined(b, ValueStart(b)))
  }

  /** A multipart value starting at `p` has an '=' early enough for the boundary loop. */
  predicate BoundaryDefined(b: String, p: nat)
    requires |b| == MAX_LINE_LEN && p <= LINE_CAP
  {
    EqualsIgnoreCase(ValueUntil(b, p, ';'), MULTIPART)
    ==> IndexFrom(b, '=', IndexFrom(b[..LINE_CAP], ';', p)) < LINE_CAP
  }

  /** What one pass of the get_other_headers loop does to the record, given the buffer it parses. */
  function HeaderStep(hdr: Headers, b: String): Headers
    requires |b| == MAX_LINE_LEN && StepDefined(b)
  {
    var key := Key(b);
    if !IsKnownKey(key) then hdr
    else
      var p := ValueStart(b);
      if EqualsIgnoreCase(key, "Connection") then
        if EqualsIgnoreCase(ValueUntil(b, p, '\n'), "keep-alive") then hdr.(alive := true) else hdr
      else if EqualsIgnoreCase(key, "Content-Type") then ContentTypeUpdate(hdr, b, p)
      else hdr.(length := Atoi(ValueUntil(b, p, '\n')))
  }

  /** The Content-Type branch: a multipart value sets the boundary to what follows the '=' after the ';'. */
  function ContentTypeUpdate(hdr: Headers, b: String, p: nat): Headers
    requires |b| == MAX_LINE_LEN && p <= LINE_CAP && BoundaryDefined(b, p)
  {
    if EqualsIgnoreCase(ValueUntil(b, p, ';'), MULTIPART) then
      var eq := IndexFrom(b, '=', IndexFrom(b[..LINE_CAP], ';', p));
      hdr.(boundary := ValueUntil(b, eq + 1, '\n'))
    else hdr
  }

  /** The key loop: bytes up to the first ':' or the end of the buffer. */
  method ScanKey(b: String) returns (key: String, i: nat)
    requires |b| == MAX_LINE_LEN
    ensures key == Key(b) && i == KeyEnd(b) + 1
  {
    ghost var k := KeyEnd(b);
    var raw := [];
    i := 0;
    while b[i] != ':' && i < LINE_CAP
      invariant i <= k && raw == b[..i]
      decreases k - i
    {
      raw := raw + [b[i]];
      i := i + 1;
    }
    key := CStr(raw);
    i := i + 1;
  }

  /** `while (isSpace(buf[i]) && i < MAX_LINE_LEN) i++;` on the buffer. */
  method SkipBufferSpaces(b: String, i: nat) returns (j: nat)
    requires |b| == MAX_LINE_LEN && i <= MAX_LINE_LEN
    requires SkipSpaces(b, i) < MAX_LINE_LEN
    ensures j == SkipSpaces(b, i)
  {
    ghost var k := SkipSpaces(b, i);
    j := i;
    while IsSpace(b[j]) && j < MAX_LINE_LEN
      invariant i <= j <= k
      decreases k - j
    {
      j := j + 1;
    }
  }

  /** `while (buf[i] != stop && i < MAX_LINE_LEN - 1) value[j++] = buf[i++];` */
  method CopyUntil(b: String, p: nat, stop: char) returns (value: String, e: nat)
    requires |b| == MAX_LINE_LEN && p <= LINE_CAP
    ensures e == IndexFrom(b[..LINE_CAP], stop, p)
    ensures CStr(value) == ValueUntil(b, p, stop)
  {
    ghost var k := IndexFrom(b[..LINE_CAP], stop, p);
    value := [];
    e := p;
    while b[e] != stop && e < LINE_CAP
      invariant p <= e <= k && value == b[p..e]
      decreases k - e
    {
      value := value + [b[e]];
      e := e + 1;
    }
  }

  /** `while ((isSpace(buf[i]) || buf[i] != '=') && i < MAX_LINE_LEN) i++;` */
  method FindEquals(b: String, i: nat) returns (j: nat)
    requires |b| == MAX_LINE_LEN && i <= MAX_LINE_LEN
    requires IndexFrom(b, '=', i) < MAX_LINE_LEN
    ensures j == IndexFrom(b, '=', i)
  {
    ghost var k := IndexFrom(b, '=', i);
    j := i;
    while (IsSpace(b[j]) || b[j] != '=') && j < MAX_LINE_LEN
      invariant i <= j <= k
      decreases k - j
    {
      j := j + 1;
    }
  }

  /** The body of the get_other_headers loop after the read (src/http_functions.c:146-187). */
  method ParseHeaderLine(b: String, hdr: Headers) returns (hdr': Headers)
    requires |b| == MAX_LINE_LEN && StepDefined(b)
    ensures hdr' == HeaderStep(hdr, b)
    ensures hdr'.alive == (hdr.alive || (EqualsIgnoreCase(Key(b), "Connection")
                                         && EqualsIgnoreCase(ValueUntil(b, ValueStart(b), '\n'), "keep-alive")))
    ensures hdr' == hdr.(alive := hdr'.alive, boundary := hdr'.boundary, length := hdr'.length)
  {
    var key, i := ScanKey(b);
    hdr' := hdr;
    if EqualsIgnoreCase(key, "Connection") {
      i := SkipBufferSpaces(b, i);
      var value, _ := CopyUntil(b, i, '\n');
      if EqualsIgnoreCase(CStr(value), "keep-alive") {
        hdr' := hdr'.(alive := true);
      }
    } else if EqualsIgnoreCase(key, "Content-Type") {
      i := SkipBufferSpaces(b, i);
      hdr' := ParseContentType(b, i, hdr');
    } else if EqualsIgnoreCase(key, "Content-Length") {
      i := SkipBufferSpaces(b, i);
      var value, _ := CopyUntil(b, i, '\n');
      hdr' := hdr'.(length := Atoi(CStr(value)));
    }
  }

  /** The Content-Type branch after the white space (src/http_functions.c:164-177). */
  method ParseContentType(b: String, p: nat, hdr: Headers) returns (hdr': Headers)
    requires |b| == MAX_LINE_LEN && p <= LINE_CAP && BoundaryDefined(b, p)
    ensures hdr' == ContentTypeUpdate(hdr, b, p)
  {
    var value, e := CopyUntil(b, p, ';');
    hdr' := hdr;
    if EqualsIgnoreCase(CStr(value), MULTIPART) {
      var i := FindEquals(b, e);
      var boundary, _ := CopyUntil(b, i + 1, '\n');
      hdr' := hdr'.(boundary := CStr(boundary));
    }
  }

  /**
   * Every read of get_other_headers stays in bounds on stream `s` when the
   * buffer holds `b` before the first read.
   */
  predicate DrainDefined(s: String, b: String)
    requires |b| == MAX_LINE_LEN
    decreases |s|
  {
    var f := FramedLine(s);
    var b' := StoreLine(b, f.line);
    StepDefined(b') && (f.line == [] || DrainDefined(s[f.consumed..], b'))
  }

  /**
   * The record after get_other_headers has read all of `s`: each line read,
   * the last (empty) read included, is stored into the buffer and parsed.
   */
  function Drain(s: String, b: String, hdr: Headers): Headers
    requires |b| == MAX_LINE_LEN && DrainDefined(s, b)
    decreases |s|
  {
    var f := FramedLine(s);
    var b' := StoreLine(b, f.line);
    var h := HeaderStep(hdr, b');
    if f.line == [] then h else Drain(s[f.consumed..], b', h)
  }

  /**
   * get_other_headers (src/http_functions.c:134-190). The blank-line test is
   * commented out in the source, so the loop runs until a read returns 0
   * bytes: it consumes the whole stream, request body included.
   */
  method GetOtherHeaders(input: String, pos: nat, hdr: Headers) returns (hdr': Headers, next: nat)
    requires pos <= |input|
    requires DrainDefined(input[pos..], ZeroBuffer)
    ensures next == |input|
    ensures hdr' == Drain(input[pos..], ZeroBuffer, hdr)
  {
    var buf := ZeroBuffer;
    var recvBytes := 1;
    var cur := pos;
    hdr' := hdr;
    while recvBytes > 0
      invariant pos <= cur <= |input| && |buf| == MAX_LINE_LEN
      invariant recvBytes > 0 ==> DrainDefined(input[cur..], buf)
      invariant recvBytes > 0 ==> Drain(input[cur..], buf, hdr') == Drain(input[pos..], ZeroBuffer, hdr)
      invariant recvBytes <= 0 ==> cur == |input| && hdr' == Drain(input[pos..], ZeroBuffer, hdr)
      decreases |input| - cur, recvBytes
    {
      var line, ret, nxt := GetLineFromBufferevent(input, cur);
      DrainLoopStep(input, cur, buf, hdr', line, nxt);
      buf := StoreLine(buf, line);
      hdr' := ParseHeaderLine(buf, hdr');
      recvBytes := ret;
      cur := nxt;
    }
    next := cur;
  }

  /** What one pass of the loop above does to the remaining stream, the buffer and the record. */
  lemma DrainLoopStep(input: String, cur: nat, b: String, h: Headers, line: String, next: nat)
    requires cur <= |input| && |b| == MAX_LINE_LEN && DrainDefined(input[cur..], b)
    requires line == FramedLine(input[cur..]).line && next == cur + FramedLine(input[cur..]).consumed
    ensures |line| < MAX_LINE_LEN && next <= |input|
    ensures StepDefined(StoreLine(b, line))
    ensures line == [] ==> next == |input| && HeaderStep(h, StoreLine(b, line)) == Drain(input[cur..], b, h)
    ensures line != [] ==> next > cur && DrainDefined(input[next..], StoreLine(b, line))
    ensures line != [] ==> Drain(input[next..], StoreLine(b, line), HeaderStep(h, StoreLine(b, line)))
                           == Drain(input[cur..], b, h)
  {
    var s := input[cur..];
    var consumed := next - cur;
    assert FramedLine(s) == Frame(line, consumed);
    DrainUnfoldFrame(s, b, h, line, consumed);
    assert input[next..] == s[consumed..];
  }

  /** DrainUnfold for a read whose outcome is named. */
  lemma DrainUnfoldFrame(s: String, b: String, h: Headers, line: String, consumed: nat)
    requires |b| == MAX_LINE_LEN && DrainDefined(s, b) && FramedLine(s) == Frame(line, consumed)
    ensures |line| < MAX_LINE_LEN && consumed <= |s| && (line == [] <==> s == [])
    ensures StepDefined(StoreLine(b, line))
    ensures line == [] ==> HeaderStep(h, StoreLine(b, line)) == Drain(s, b, h)
    ensures line != [] ==> DrainDefined(s[consumed..], StoreLine(b, line))
    ensures line != [] ==> Drain(s[consumed..], StoreLine(b, line), HeaderStep(h, StoreLine(b, line))) == Drain(s, b, h)
  {
    DrainUnfold(s, b, h);
  }

  /** One unfolding of Drain, for the loop above. */
  lemma DrainUnfold(s: String, b: String, hdr: Headers)
    requires |b| == MAX_LINE_LEN && DrainDefined(s, b)
    ensures var f := FramedLine(s);
      var b' := StoreLine(b, f.line);
      && StepDefined(b')
      && (f.line != [] ==> DrainDefined(s[f.consumed..], b'))
      && Drain(s, b, hdr) == if f.line == [] then HeaderStep(hdr, b')
                             else Drain(s[f.consumed..], b', HeaderStep(hdr, b'))
  {
  }

  /**
   * parse_http_header (src/http_functions.c:192-198): the request line, then,
   * unless the method was refused, every remaining line of the stream.
   */
  method ParseHttpHeader(input: String, pos: nat, hdr: Headers, sent: String)
    returns (hdr': Headers, ret: int, next: nat, sent': String)
    requires pos <= |input|
    requires RequestLineDefined(FramedLine(input[pos..]).line)
    requires RequestLine(FramedLine(input[pos..]).line, hdr).mode != NotImplement ==>
      DrainDefined(input[pos + FramedLine(input[pos..]).consumed..], ZeroBuffer)
    ensures var h := RequestLine(FramedLine(input[pos..]).line, hdr);
      && (h.mode == NotImplement ==>
            ret == -1 && hdr' == h && sent' == sent + Response(NotImplemented501)
            && next == pos + FramedLine(input[pos..]).consumed)
      && (h.mode != NotImplement ==>
            ret == 0 && sent' == sent && next == |input|
            && hdr' == Drain(input[pos + FramedLine(input[pos..]).consumed..], ZeroBuffer, h))
  {
    hdr', ret, next, sent' := GetFirstHeader(input, pos, hdr, sent);
    if ret < 0 {
      return;
    }
    RestOfRequest(input, pos, hdr, hdr', next);
    hdr', next := GetOtherHeaders(input, next, hdr');
  }

  /** After an accepted request line, the rest of the stream is what the header loop reads. */
  lemma RestOfRequest(input: String, pos: nat, hdr: Headers, h: Headers, next: nat)
    requires pos <= |input|
    requires RequestLineDefined(FramedLine(input[pos..]).line)
    requires RequestLine(FramedLine(input[pos..]).line, hdr).mode != NotImplement ==>
      DrainDefined(input[pos + FramedLine(input[pos..]).consumed..], ZeroBuffer)
    requires h == RequestLine(FramedLine(input[pos..]).line, hdr) && h.mode != NotImplement
    requires next == pos + FramedLine(input[pos..]).consumed
    ensures next <= |input| && input[next..] == input[pos + FramedLine(input[pos..]).consumed..]
    ensures DrainDefined(input[next..], ZeroBuffer)
  {
  }

  // ---------------------------------------------------------------------
  // What the header loop makes of the lines a client sends

  /** The record fields the header loop never writes keep their values, and keep-alive is never withdrawn. */
  lemma {:induction false} DrainKeepsRequestLine(s: String, b: String, hdr: Headers)
    requires |b| == MAX_LINE_LEN && DrainDefined(s, b)
    ensures var r := Drain(s, b, hdr);
      && r == hdr.(alive := r.alive, boundary := r.boundary, length := r.length)
      && (hdr.alive ==> r.alive)
    decreases |s|
  {
    DrainUnfold(s, b, hdr);
    var f := FramedLine(s);
    if f.line != [] {
      var b' := StoreLine(b, f.line);
      DrainKeepsRequestLine(s[f.consumed..], b', HeaderStep(hdr, b'));
    }
  }

  /** A header field as a client writes it: "Name: value" on one line. */
  datatype Field = Field(name: String, value: String)

  /** The field on the wire, CRLF-terminated (section 4.2 of RFC 1945). */
  function FieldLine(f: Field): String {
    f.name + ": " + f.value + "\r\n"
  }

  /** A block of header fields followed by the empty line that ends it. */
  function HeaderBlock(fs: seq<Field>): String {
    if fs == [] then "\r\n" else FieldLine(fs[0]) + HeaderBlock(fs[1..])
  }

  /** Where a value's ';' is, if it has one. */
  function Semicolon(value: String): nat {
    IndexFrom(value, ';', 0)
  }

  /** The value names multipart/form-data in front of its first ';'. */
  predicate IsMultipart(value: String) {
    Semicolon(value) < |value| && EqualsIgnoreCase(value[..Semicolon(value)], MULTIPART)
  }

  /**
   * A field line a client sends: name without ':', value starting with a
   * non-space byte, no CR, LF or NUL inside, the line within the reader's
   * cap, and a multipart value carrying an '=' after its ';'.
   */
  predicate ClientField(f: Field) {
    && NoNul(f.name) && NoNul(f.value)
    && (forall m :: 0 <= m < |f.name| ==> f.name[m] != ':' && f.name[m] != '\n' && f.name[m] != '\r')
    && (forall m :: 0 <= m < |f.value| ==> f.value[m] != '\n' && f.value[m] != '\r')
    && |f.value| >= 1 && !IsSpace(f.value[0])
    && |f.name| + |f.value| + 4 <= LINE_CAP
    && (IsMultipart(f.value) ==> IndexFrom(f.value, '=', Semicolon(f.value)) < |f.value|)
  }

  /**
   * What a field means to the server: Connection: keep-alive sets the
   * keep-alive flag, a multipart Content-Type sets the boundary to the text
   * after the '=' that follows the ';', and Content-Length sets the length to
   * atoi of the value. Names compare case-insensitively; other fields are
   * ignored.
   */
  function ApplyField(hdr: Headers, f: Field): Headers {
    if EqualsIgnoreCase(f.name, "Connection") then
      if EqualsIgnoreCase(f.value, "keep-alive") then hdr.(alive := true) else hdr
    else if EqualsIgnoreCase(f.name, "Content-Type") then
      if IsMultipart(f.value) then
        var e := IndexFrom(f.value, '=', Semicolon(f.value));
        hdr.(boundary := if e < |f.value| then f.value[e + 1..] else [])
      else hdr
    else if EqualsIgnoreCase(f.name, "Content-Length") then hdr.(length := Atoi(f.value))
    else hdr
  }

  function ApplyFields(hdr: Headers, fs: seq<Field>): Headers
    decreases |fs|
  {
    if fs == [] then hdr else ApplyFields(ApplyField(hdr, fs[0]), fs[1..])
  }

  /**
   * The header loop reads a block of client fields, the empty line and the
   * end of the stream exactly as the fields mean, whatever the buffer held
   * before.
   */
  lemma {:induction false} HeaderBlockDrain(fs: seq<Field>, b: String, hdr: Headers)
    requires |b| == MAX_LINE_LEN
    requires forall i :: 0 <= i < |fs| ==> ClientField(fs[i])
    ensures DrainDefined(HeaderBlock(fs), b)
    ensures Drain(HeaderBlock(fs), b, hdr) == ApplyFields(hdr, fs)
    decreases |fs|
  {
    if fs == [] {
      BlankLineDrain(b, hdr);
    } else {
      var f := fs[0];
      var s := HeaderBlock(fs);
      var l := f.name + ": " + f.value;
      assert s == l + "\r\n" + HeaderBlock(fs[1..]);
      FramedCrlfLine(l, HeaderBlock(fs[1..]));
      var b' := StoreLine(b, l + "\n");
      FieldStep(f, b, hdr);
      HeaderBlockDrain(fs[1..], b', ApplyField(hdr, f));
      assert s[|l| + 2..] == HeaderBlock(fs[1..]);
      DrainUnfoldAt(s, b, hdr, l + "\n", |l| + 2);
    }
  }

  /** Drain unfolded at a read whose outcome is known. */
  lemma DrainUnfoldAt(s: String, b: String, hdr: Headers, line: String, consumed: nat)
    requires |b| == MAX_LINE_LEN && FramedLine(s) == Frame(line, consumed) && line != []
    requires StepDefined(StoreLine(b, line))
    requires DrainDefined(s[consumed..], StoreLine(b, line))
    ensures DrainDefined(s, b)
    ensures Drain(s, b, hdr) == Drain(s[consumed..], StoreLine(b, line), HeaderStep(hdr, StoreLine(b, line)))
  {
  }

  /** The empty line that ends the header block and the final 0-byte read change nothing. */
  lemma BlankLineDrain(b: String, hdr: Headers)
    requires |b| == MAX_LINE_LEN
    ensures DrainDefined("\r\n", b) && Drain("\r\n", b, hdr) == hdr
  {
    FramedCrlfLine([], []);
    assert [] + "\r\n" + [] == "\r\n";
    var b' := StoreLine(b, "\n");
    PlainLineKey(b, "\n");
    assert !IsKnownKey("\n");
    var b'' := StoreLine(b', []);
    PlainLineKey(b', []);
    assert !IsKnownKey([]);
    assert "\r\n"[2..] == [];
    assert FramedLine([]) == Frame([], 0);
    DrainUnfoldAt("\r\n", b, hdr, "\n", 2);
  }

  /** A stored line without ':' is its own key: the scan runs past it, but the C string ends at its NUL. */
  lemma PlainLineKey(b: String, line: String)
    requires |b| == MAX_LINE_LEN && |line| < MAX_LINE_LEN && NoNul(line)
    requires forall m :: 0 <= m < |line| ==> line[m] != ':'
    ensures Key(StoreLine(b, line)) == line
  {
    var r := StoreLine(b, line);
    var k := KeyEnd(r);
    assert forall m :: 0 <= m < |line| ==> r[m] == line[m];
    if k == |line| {
      assert r[..k] == line;
      CStrNoNul(line);
    } else {
      assert r[..k] == line + ['\0'] + r[|line| + 1..k];
      CStrTerminated(line, r[|line| + 1..k]);
    }
  }

  /** The value scan of a field line stops at `stop` right after the text `w`. */
  lemma ValueRegion(r: String, p: nat, w: String, stop: char)
    requires |r| == MAX_LINE_LEN && p + |w| < LINE_CAP && NoNul(w)
    requires r[p..p + |w|] == w && r[p + |w|] == stop
    requires forall m :: 0 <= m < |w| ==> w[m] != stop
    ensures IndexFrom(r[..LINE_CAP], stop, p) == p + |w|
    ensures ValueUntil(r, p, stop) == w
  {
    assert forall m :: p <= m < p + |w| ==> r[..LINE_CAP][m] == w[m - p];
    IndexFromAt(r[..LINE_CAP], stop, p, p + |w|);
    CStrNoNul(w);
  }

  /** Where the bytes of a stored field line lie in the buffer. */
  lemma StoredField(f: Field, b: String, r: String, p: nat)
    requires |b| == MAX_LINE_LEN && ClientField(f)
    requires r == StoreLine(b, f.name + ": " + f.value + "\n") && p == |f.name| + 2
    ensures p + |f.value| < LINE_CAP
    ensures forall m :: 0 <= m < |f.name| ==> r[m] == f.name[m]
    ensures r[|f.name|] == ':' && r[|f.name| + 1] == ' '
    ensures r[p..p + |f.value|] == f.value && r[p + |f.value|] == '\n'
    ensures r[p + |f.value| + 1] == '\0'
  {
    var name, value := f.name, f.value;
    var line := name + ": " + value + "\n";
    assert |line| == p + |value| + 1;
    assert forall m :: 0 <= m < |line| ==> r[m] == line[m] by {
      assert r[..|line|] == line;
    }
    assert r[p..p + |value|] == value by {
      assert forall m :: p <= m < p + |value| ==> r[m] == line[m] && line[m] == value[m - p];
    }
  }

  /** Where the parts of a stored field line lie in the buffer, as the scans find them. */
  lemma FieldLayout(f: Field, b: String, r: String, p: nat)
    requires |b| == MAX_LINE_LEN && ClientField(f)
    requires r == StoreLine(b, f.name + ": " + f.value + "\n") && p == |f.name| + 2
    ensures Key(r) == f.name && ValueStart(r) == p && p + |f.value| < LINE_CAP
    ensures r[p..p + |f.value|] == f.value && r[p + |f.value|] == '\n'
    ensures r[p + |f.value| + 1] == '\0'
    ensures ValueUntil(r, p, '\n') == f.value
  {
    StoredField(f, b, r, p);
    var name, value := f.name, f.value;
    var L := |name|;
    IndexFromAt(r[..LINE_CAP], ':', 0, L);
    assert r[..L] == name;
    CStrNoNul(name);
    SkipSpacesAt(r, L + 1, p);
    ValueRegion(r, p, value, '\n');
  }

  /** One field line, stored over any buffer, is parsed as ApplyField says. */
  lemma FieldStep(f: Field, b: String, hdr: Headers)
    requires |b| == MAX_LINE_LEN && ClientField(f)
    ensures StepDefined(StoreLine(b, f.name + ": " + f.value + "\n"))
    ensures HeaderStep(hdr, StoreLine(b, f.name + ": " + f.value + "\n")) == ApplyField(hdr, f)
  {
    var r := StoreLine(b, f.name + ": " + f.value + "\n");
    var p := |f.name| + 2;
    FieldLayout(f, b, r, p);
    if EqualsIgnoreCase(f.name, "Content-Type") {
      ContentTypeStep(f, r, p, hdr);
    } else {
      OtherFieldStep(f, r, p, hdr);
    }
  }

  /** FieldStep for every name but Content-Type. */
  lemma OtherFieldStep(f: Field, r: String, p: nat, hdr: Headers)
    requires |r| == MAX_LINE_LEN && ClientField(f) && !EqualsIgnoreCase(f.name, "Content-Type")
    requires Key(r) == f.name && ValueStart(r) == p && p < LINE_CAP
    requires ValueUntil(r, p, '\n') == f.value
    ensures StepDefined(r)
    ensures HeaderStep(hdr, r) == ApplyField(hdr, f)
  {
  }

  /** The Content-Type case of FieldStep. */
  lemma ContentTypeStep(f: Field, r: String, p: nat, hdr: Headers)
    requires |r| == MAX_LINE_LEN && ClientField(f) && EqualsIgnoreCase(f.name, "Content-Type")
    requires Key(r) == f.name && ValueStart(r) == p && p + |f.value| < LINE_CAP
    requires r[p..p + |f.value|] == f.value && r[p + |f.value|] == '\n'
    requires r[p + |f.value| + 1] == '\0'
    ensures StepDefined(r)
    ensures HeaderStep(hdr, r) == ApplyField(hdr, f)
  {
    ContentTypeKey(f.name);
    if Semicolon(f.value) < |f.value| {
      ContentTypeSemicolon(f, r, p, hdr);
    } else {
      ContentTypeNoSemicolon(f, r, p, hdr);
    }
  }

  lemma ContentTypeKey(k: String)
    requires EqualsIgnoreCase(k, "Content-Type")
    ensures IsKnownKey(k) && !EqualsIgnoreCase(k, "Connection")
  {
    assert |k| == 12;
  }

  /** A Content-Type value with a ';': the part before it decides, the boundary follows the '='. */
  lemma ContentTypeSemicolon(f: Field, r: String, p: nat, hdr: Headers)
    requires |r| == MAX_LINE_LEN && IsKnownKey(f.name) && NoNul(f.value)
    requires forall m :: 0 <= m < |f.value| ==> f.value[m] != '\n'
    requires IsMultipart(f.value) ==> IndexFrom(f.value, '=', Semicolon(f.value)) < |f.value|
    requires EqualsIgnoreCase(f.name, "Content-Type") && !EqualsIgnoreCase(f.name, "Connection")
    requires Key(r) == f.name && ValueStart(r) == p && p + |f.value| < LINE_CAP
    requires r[p..p + |f.value|] == f.value && r[p + |f.value|] == '\n'
    requires Semicolon(f.value) < |f.value|
    ensures StepDefined(r)
    ensures HeaderStep(hdr, r) == ApplyField(hdr, f)
  {
    var value := f.value;
    var c := Semicolon(value);
    MimeRegion(r, p, value, c);
    var multipart := EqualsIgnoreCase(value[..c], MULTIPART);
    assert IsMultipart(value) == multipart;
    var e := IndexFrom(value, '=', c);
    if multipart {
      BoundaryRegion(r, p, value, c, e);
    }
    var boundary := if e < |value| then value[e + 1..] else [];
    ContentTypeHeaderStep(hdr, r, p, c, e, value[..c], boundary);
    ContentTypeApplyField(hdr, f, multipart, e);
  }

  /** The scan for ';' in a stored value stops at the value's first ';'. */
  lemma MimeRegion(r: String, p: nat, value: String, c: nat)
    requires |r| == MAX_LINE_LEN && p + |value| < LINE_CAP && NoNul(value)
    requires r[p..p + |value|] == value
    requires c < |value| && c == IndexFrom(value, ';', 0)
    ensures IndexFrom(r[..LINE_CAP], ';', p) == p + c
    ensures ValueUntil(r, p, ';') == value[..c]
  {
    assert r[p + c] == r[p..p + |value|][c] == value[c] == ';';
    assert r[p..p + c] == r[p..p + |value|][..c];
    ValueRegion(r, p, value[..c], ';');
  }

  /** HeaderStep on a Content-Type line whose value regions are known. */
  lemma ContentTypeHeaderStep(hdr: Headers, r: String, p: nat, c: nat, e: nat, mime: String, boundary: String)
    requires |r| == MAX_LINE_LEN && IsKnownKey(Key(r))
    requires EqualsIgnoreCase(Key(r), "Content-Type") && !EqualsIgnoreCase(Key(r), "Connection")
    requires ValueStart(r) == p && p + c < LINE_CAP
    requires IndexFrom(r[..LINE_CAP], ';', p) == p + c && ValueUntil(r, p, ';') == mime
    requires EqualsIgnoreCase(mime, MULTIPART) ==>
      p + e + 1 < LINE_CAP && IndexFrom(r, '=', p + c) == p + e && ValueUntil(r, p + e + 1, '\n') == boundary
    ensures StepDefined(r)
    ensures HeaderStep(hdr, r) == if EqualsIgnoreCase(mime, MULTIPART) then hdr.(boundary := boundary) else hdr
  {
    ContentTypeUpdateAt(hdr, r, p, c, e, mime, boundary);
    assert HeaderStep(hdr, r) == ContentTypeUpdate(hdr, r, p);
  }

  /** ContentTypeUpdate on a value whose regions are known. */
  lemma ContentTypeUpdateAt(hdr: Headers, r: String, p: nat, c: nat, e: nat, mime: String, boundary: String)
    requires |r| == MAX_LINE_LEN && p + c < LINE_CAP
    requires IndexFrom(r[..LINE_CAP], ';', p) == p + c && ValueUntil(r, p, ';') == mime
    requires EqualsIgnoreCase(mime, MULTIPART) ==>
      p + e + 1 < LINE_CAP && IndexFrom(r, '=', p + c) == p + e && ValueUntil(r, p + e + 1, '\n') == boundary
    ensures BoundaryDefined(r, p)
    ensures ContentTypeUpdate(hdr, r, p) == if EqualsIgnoreCase(mime, MULTIPART) then hdr.(boundary := boundary) else hdr
  {
  }

  /** ApplyField on a Content-Type field. */
  lemma ContentTypeApplyField(hdr: Headers, f: Field, multipart: bool, e: nat)
    requires EqualsIgnoreCase(f.name, "Content-Type") && !EqualsIgnoreCase(f.name, "Connection")
    requires multipart == IsMultipart(f.value) && e == IndexFrom(f.value, '=', Semicolon(f.value))
    requires multipart ==> e < |f.value|
    ensures ApplyField(hdr, f) == if multipart then hdr.(boundary := f.value[e + 1..]) else hdr
  {
  }

  /** In a stored multipart value the '=' scan and the boundary copy find what the value holds. */
  lemma BoundaryRegion(r: String, p: nat, value: String, c: nat, e: nat)
    requires |r| == MAX_LINE_LEN && p + |value| < LINE_CAP && NoNul(value)
    requires r[p..p + |value|] == value && r[p + |value|] == '\n'
    requires forall m :: 0 <= m < |value| ==> value[m] != '\n'
    requires c <= e < |value| && e == IndexFrom(value, '=', c)
    ensures IndexFrom(r, '=', p + c) == p + e
    ensures ValueUntil(r, p + e + 1, '\n') == value[e + 1..]
  {
    assert forall m :: p + c <= m < p + e ==> r[m] == value[m - p];
    IndexFromAt(r, '=', p + c, p + e);
    assert r[p + e + 1..p + |value|] == value[e + 1..];
    ValueRegion(r, p + e + 1, value[e + 1..], '\n');
  }

  /** A Content-Type value without ';': the scan runs into the line's '\n', so it is never multipart. */
  lemma ContentTypeNoSemicolon(f: Field, r: String, p: nat, hdr: Headers)
    requires |r| == MAX_LINE_LEN && ClientField(f) && IsKnownKey(f.name)
    requires EqualsIgnoreCase(f.name, "Content-Type") && !EqualsIgnoreCase(f.name, "Connection")
    requires Key(r) == f.name && ValueStart(r) == p && p + |f.value| < LINE_CAP
    requires r[p..p + |f.value|] == f.value && r[p + |f.value|] == '\n'
    requires r[p + |f.value| + 1] == '\0'
    requires Semicolon(f.value) == |f.value|
    ensures StepDefined(r)
    ensures HeaderStep(hdr, r) == ApplyField(hdr, f)
  {
    var value := f.value;
    var s := IndexFrom(r[..LINE_CAP], ';', p);
    assert forall m :: p <= m < p + |value| ==> r[..LINE_CAP][m] == value[m - p];
    assert s >= p + |value| + 1;
    var x := r[p..s];
    assert forall m :: 0 <= m < |value| ==> x[m] == value[m];
    assert x[|value|] == '\n';
    CStrPastPrefix(x, |value|);
    NotMultipart(ValueUntil(r, p, ';'), |value|);
    assert !IsMultipart(value);
  }

  /** A string with a '\n' in it is not multipart/form-data. */
  lemma NotMultipart(v: String, i: nat)
    requires i < |v| && v[i] == '\n'
    ensures !EqualsIgnoreCase(v, MULTIPART)
  {
    if EqualsIgnoreCase(v, MULTIPART) {
      assert false;
    }
  }

  // ---------------------------------------------------------------------
  // What a block of fields leaves in the record, field by field

  /** A Connection field asking to keep the connection open. */
  predicate KeepAliveField(f: Field) {
    EqualsIgnoreCase(f.name, "Connection") && EqualsIgnoreCase(f.value, "keep-alive")
  }

  /** The value of the last field named `name` (names compare case-insensitively), if there is one. */
  function LastValue(fs: seq<Field>, name: String): (r: Option<String>)
    ensures r.Some? <==> exists i :: 0 <= i < |fs| && EqualsIgnoreCase(fs[i].name, name)
    decreases |fs|
  {
    if fs == [] then None
    else
      var later := LastValue(fs[1..], name);
      if later.Some? then
        assert forall i :: 0 <= i < |fs[1..]| ==> fs[1..][i] == fs[i + 1];
        later
      else if EqualsIgnoreCase(fs[0].name, name) then Some(fs[0].value)
      else
        assert forall i :: 1 <= i < |fs| ==> fs[i] == fs[1..][i - 1];
        None
  }

  /** The value of the last multipart Content-Type field, if there is one. */
  function LastMultipart(fs: seq<Field>): (r: Option<String>)
    ensures r.Some? ==> IsMultipart(r.value)
    decreases |fs|
  {
    if fs == [] then None
    else
      var later := LastMultipart(fs[1..]);
      if later.Some? then later
      else if EqualsIgnoreCase(fs[0].name, "Content-Type") && IsMultipart(fs[0].value) then Some(fs[0].value)
      else None
  }

  /** The boundary a multipart value carries: the text after the '=' that follows its ';'. */
  function BoundaryOf(value: String): String
    requires IsMultipart(value)
  {
    var e := IndexFrom(value, '=', Semicolon(value));
    if e < |value| then value[e + 1..] else []
  }

  /** The three names the header loop looks for are told apart by their lengths. */
  lemma KnownNamesDistinct(n: String)
    ensures EqualsIgnoreCase(n, "Connection") ==> |n| == 10
    ensures EqualsIgnoreCase(n, "Content-Type") ==> |n| == 12
    ensures EqualsIgnoreCase(n, "Content-Length") ==> |n| == 14
  {
  }

  /**
   * Keep-alive is set exactly when the record already had it or some field
   * is "Connection: keep-alive"; a later "Connection: close" does not clear it.
   */
  lemma {:induction false} ApplyFieldsAlive(hdr: Headers, fs: seq<Field>)
    ensures ApplyFields(hdr, fs).alive <==> hdr.alive || exists i :: 0 <= i < |fs| && KeepAliveField(fs[i])
    decreases |fs|
  {
    if fs != [] {
      var h := ApplyField(hdr, fs[0]);
      KnownNamesDistinct(fs[0].name);
      assert h.alive <==> hdr.alive || KeepAliveField(fs[0]);
      ApplyFieldsAlive(h, fs[1..]);
      assert forall i :: 0 <= i < |fs[1..]| ==> fs[1..][i] == fs[i + 1];
      assert forall i :: 1 <= i < |fs| ==> fs[i] == fs[1..][i - 1];
    }
  }

  /** The length is atoi of the last Content-Length value, or what the record held when there is none. */
  lemma {:induction false} ApplyFieldsLength(hdr: Headers, fs: seq<Field>)
    ensures ApplyFields(hdr, fs).length ==
      match LastValue(fs, "Content-Length")
      case None => hdr.length
      case Some(v) => Atoi(v)
    decreases |fs|
  {
    if fs != [] {
      var h := ApplyField(hdr, fs[0]);
      KnownNamesDistinct(fs[0].name);
      assert h.length == if EqualsIgnoreCase(fs[0].name, "Content-Length") then Atoi(fs[0].value) else hdr.length;
      ApplyFieldsLength(h, fs[1..]);
    }
  }

  /** The boundary is the one of the last multipart Content-Type, or what the record held when there is none. */
  lemma {:induction false} ApplyFieldsBoundary(hdr: Headers, fs: seq<Field>)
    ensures ApplyFields(hdr, fs).boundary ==
      match LastMultipart(fs)
      case None => hdr.boundary
      case Some(v) => BoundaryOf(v)
    decreases |fs|
  {
    if fs != [] {
      var h := ApplyField(hdr, fs[0]);
      KnownNamesDistinct(fs[0].name);
      assert h.boundary ==
        if EqualsIgnoreCase(fs[0].name, "Content-Type") && IsMultipart(fs[0].value) then BoundaryOf(fs[0].value)
        else hdr.boundary;
      ApplyFieldsBoundary(h, fs[1..]);
    }
  }

  /** A request head: the request line, then the header block, each line ending in CRLF. */
  function RequestHead(m: String, u: String, v: String, fs: seq<Field>): String {
    m + " " + u + " " + v + "\r\n" + HeaderBlock(fs)
  }

  /**
   * parse_http_header on a whole request head: the first read returns the
   * request line, and the header loop leaves the record the request line
   * sets up, updated by the fields in order.
   */
  lemma RequestHeadParse(m: String, u: String, v: String, fs: seq<Field>, hdr: Headers)
    requires Token(m, HTTP_HDR_METHOD_LEN - 1) && Token(u, HTTP_HDR_URL_LEN - 1)
    requires Token(v, HTTP_HDR_VERSION_LEN - 1) && |m| + |u| + |v| + 4 <= LINE_CAP
    requires forall i :: 0 <= i < |fs| ==> ClientField(fs[i])
    ensures var input := RequestHead(m, u, v, fs);
      var line := m + " " + u + " " + v + "\n";
      && FramedLine(input) == Frame(line, |line| + 1)
      && RequestLineDefined(line)
      && input[|line| + 1..] == HeaderBlock(fs)
      && DrainDefined(HeaderBlock(fs), ZeroBuffer)
      && Drain(HeaderBlock(fs), ZeroBuffer, RequestLine(line, hdr)) == ApplyFields(RequestLine(line, hdr), fs)
  {
    var line := m + " " + u + " " + v + "\n";
    RequestLineFramed(m, u, v, HeaderBlock(fs));
    RequestLineRoundTrip(m, u, v, hdr);
    HeaderBlockDrain(fs, ZeroBuffer, RequestLine(line, hdr));
  }

  /** The request line sent with "\r\n" is read whole, and the header block follows it. */
  lemma RequestLineFramed(m: String, u: String, v: String, rest: String)
    requires Token(m, HTTP_HDR_METHOD_LEN - 1) && Token(u, HTTP_HDR_URL_LEN - 1)
    requires Token(v, HTTP_HDR_VERSION_LEN - 1) && |m| + |u| + |v| + 4 <= LINE_CAP
    ensures var l := m + " " + u + " " + v;
      && FramedLine(l + "\r\n" + rest) == Frame(l + "\n", |l| + 2)
      && (l + "\r\n" + rest)[|l| + 2..] == rest
  {
    var l := m + " " + u + " " + v;
    assert forall k :: 0 <= k < |l| ==> l[k] != '\n' && l[k] != '\r' by {
      RequestLineLayout(m, u, v);
    }
    FramedCrlfLine(l, rest);
  }
}

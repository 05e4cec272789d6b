/**
 * Response serialisation (src/http_response.c).
 *
 * Every responder writes a fixed sequence of messages through
 * format_and_send_response, which appends "\r\n" to each one: the status
 * line, "Server: WUW", "Content-Type: text/html", an empty line and, for an
 * error, one line of HTML. The socket is the sequence of characters sent so
 * far; a send appends to it.
 */
module HttpResponse {
  import opened CString

  const MAX_BUFF_SIZE: nat := 1024
  const CRLF: String := "\r\n"
  const SERVER_BASE_STR: String := "Server: WUW"
  const CONTENT_TYPE_HTML: String := "Content-Type: text/html"

  /** The six replies the server knows. */
  datatype Status = Ok200 | BadRequest400 | Forbidden403 | NotFound404 | InternalError500 | NotImplemented501

  /** The numeric status code each reply carries. */
  function Code(st: Status): (c: nat)
    ensures 200 <= c < 600
    ensures (c == 200) == (st == Ok200)
  {
    match st
    case Ok200 => 200
    case BadRequest400 => 400
    case Forbidden403 => 403
    case NotFound404 => 404
    case InternalError500 => 500
    case NotImplemented501 => 501
  }

  /**
   * The status line each responder sends first: "HTTP/1.0 200 OK",
   * "HTTP/1.0 400 Bad Request", "HTTP/1.0 403 Forbidden",
   * "HTTP/1.0 404 NOT FOUND", "HTTP/1.0 500 Internal Server Error" and
   * "HTTP/1.0 501 Method Not Implemented".
   */
  function StatusLine(st: Status): String {
    "HTTP/1.0 " + CodeText(st) + " " + Reason(st)
  }

  /** The three digits of the code as the status line spells them. */
  function CodeText(st: Status): String {
    match st
    case Ok200 => "200"
    case BadRequest400 => "400"
    case Forbidden403 => "403"
    case NotFound404 => "404"
    case InternalError500 => "500"
    case NotImplemented501 => "501"
  }

  /** The reason phrase after the code on the status line. */
  function Reason(st: Status): String {
    match st
    case Ok200 => "OK"
    case BadRequest400 => "Bad Request"
    case Forbidden403 => "Forbidden"
    case NotFound404 => "NOT FOUND"
    case InternalError500 => "Internal Server Error"
    case NotImplemented501 => "Method Not Implemented"
  }

  /**
   * HTML_TITLE_* of src/http_response.h: the code and the reason phrase,
   * except that 404's title spells "Not Found" where its status line has
   * "NOT FOUND".
   */
  function Title(st: Status): String
    requires st != Ok200
  {
    CodeText(st) + " " + (if st == NotFound404 then "Not Found" else Reason(st))
  }

  /** HTML_BODY_* of src/http_response.h. */
  function Body(st: Status): String
    requires st != Ok200
  {
    match st
    case BadRequest400 => "Your browser sent a bad request"
    case Forbidden403 => "You don't have access to this content"
    case NotFound404 => "The file you specified is unavailable"
    case InternalError500 => "Internal Server Error"
    case NotImplemented501 => "HTTP request method not supported"
  }

  /** sprintf(buf, HTML_RESPONSE_FMT, title, body). */
  function HtmlResponse(title: String, body: String): String {
    "<html><title>" + title + "</title><body><p>" + body + "</p></body></html>"
  }

  /** The HTML line an error responder sends after the header block; none for 200. */
  function Page(st: Status): Option<String> {
    if st == Ok200 then None else Some(HtmlResponse(Title(st), Body(st)))
  }

  /** The messages a responder hands to format_and_send_response, in order. */
  function ReplyMessages(statusLine: String, page: Option<String>): seq<String> {
    [statusLine, SERVER_BASE_STR, CONTENT_TYPE_HTML, ""] + if page.None? then [] else [page.value]
  }

  function Messages(st: Status): seq<String> {
    ReplyMessages(StatusLine(st), Page(st))
  }

  // ---------------------------------------------------------------------
  // CRLF-terminated lines on the wire

  /** Each message followed by "\r\n", as a run of format_and_send_response calls sends them. */
  function JoinCrlf(ms: seq<String>): String {
    if ms == [] then [] else ms[0] + CRLF + JoinCrlf(ms[1..])
  }

  /** How a client cuts the bytes at each "\r\n"; bytes after the last "\r\n" form a final piece. */
  function SplitCrlf(s: String): seq<String>
    decreases |s|
  {
    if s == [] then []
    else
      var i := IndexFrom(s, '\r', 0);
      if i + 1 < |s| && s[i + 1] == '\n' then [s[..i]] + SplitCrlf(s[i + 2..])
      else [s]
  }

  /** Printable ASCII only, as every constant message is: no CR, no LF, no NUL. */
  predicate Printable(m: String) {
    forall k :: 0 <= k < |m| ==> ' ' <= m[k] <= '~'
  }

  lemma PrintableConcat(a: String, b: String)
    requires Printable(a) && Printable(b)
    ensures Printable(a + b)
  {
  }

  lemma {:induction false} JoinCrlfSplit(a: seq<String>, b: seq<String>)
    ensures JoinCrlf(a + b) == JoinCrlf(a) + JoinCrlf(b)
    decreases |a|
  {
    if a != [] {
      assert (a + b)[1..] == a[1..] + b;
      JoinCrlfSplit(a[1..], b);
    } else {
      assert a + b == b;
    }
  }

  /** Cutting at "\r\n" recovers the messages sent, when none of them holds a CR. */
  lemma {:induction false} SplitJoinCrlf(ms: seq<String>)
    requires forall k :: 0 <= k < |ms| ==> Printable(ms[k])
    ensures SplitCrlf(JoinCrlf(ms)) == ms
    decreases |ms|
  {
    if ms != [] {
      var m, tail := ms[0], JoinCrlf(ms[1..]);
      var s := m + CRLF + tail;
      assert Printable(m);
      assert forall k :: 0 <= k < |m| ==> s[k] == m[k];
      assert s[|m|] == '\r' && s[|m| + 1] == '\n';
      assert IndexFrom(s, '\r', 0) == |m|;
      assert s[..|m|] == m && s[|m| + 2..] == tail;
      SplitJoinCrlf(ms[1..]);
    }
  }

  lemma JoinCrlfFour(a: String, b: String, c: String, d: String)
    ensures JoinCrlf([a, b, c, d]) == a + CRLF + b + CRLF + c + CRLF + d + CRLF
  {
    assert [d][1..] == [];
    assert JoinCrlf([d]) == d + CRLF;
    assert [c, d][1..] == [d];
    assert JoinCrlf([c, d]) == c + CRLF + JoinCrlf([d]);
    assert [b, c, d][1..] == [c, d];
    assert JoinCrlf([b, c, d]) == b + CRLF + JoinCrlf([c, d]);
    assert [a, b, c, d][1..] == [b, c, d];
  }

  /**
   * The bytes of a reply: the header block, which ends in "\r\n\r\n" (the
   * Content-Type line's terminator, then the empty line's), followed by the
   * page and its "\r\n", or by nothing.
   */
  lemma ReplyBytes(statusLine: String, page: Option<String>)
    ensures var r := JoinCrlf(ReplyMessages(statusLine, page));
      var n := |statusLine| + |SERVER_BASE_STR| + |CONTENT_TYPE_HTML| + 8;
      && n <= |r|
      && r[..n] == statusLine + CRLF + SERVER_BASE_STR + CRLF + CONTENT_TYPE_HTML + CRLF + CRLF
      && r[n - 4..n] == "\r\n\r\n"
      && r[n..] == (if page.None? then [] else page.value + CRLF)
  {
    var head := [statusLine, SERVER_BASE_STR, CONTENT_TYPE_HTML, ""];
    var tail: seq<String> := if page.None? then [] else [page.value];
    JoinCrlfSplit(head, tail);
    JoinCrlfFour(statusLine, SERVER_BASE_STR, CONTENT_TYPE_HTML, "");
    if page.Some? {
      assert [page.value][1..] == [];
    }
  }

  // ---------------------------------------------------------------------
  // The responders

  /** The bytes a responder puts on the socket. */
  function Response(st: Status): String {
    JoinCrlf(Messages(st))
  }

  /**
   * format_and_send_response (src/http_response.c:10-16): copies the message
   * into a 1024-byte buffer, appends "\r\n" and sends the result.
   */
  method FormatAndSendResponse(sent: String, msg: String) returns (sent': String)
    requires NoNul(msg)
    requires |msg| + |CRLF| < MAX_BUFF_SIZE
    ensures sent' == sent + msg + CRLF
  {
    var buf := msg + CRLF;
    sent' := sent + buf;
  }

  /** The four messages every responder starts with. */
  method SendHeaderBlock(sent: String, statusLine: String) returns (sent': String)
    requires Printable(statusLine) && |statusLine| <= 40
    ensures sent' == sent + JoinCrlf(ReplyMessages(statusLine, None))
  {
    HeaderConstants();
    PrintableNoNul(statusLine);
    sent' := FormatAndSendResponse(sent, statusLine);
    sent' := FormatAndSendResponse(sent', SERVER_BASE_STR);
    sent' := FormatAndSendResponse(sent', CONTENT_TYPE_HTML);
    sent' := FormatAndSendResponse(sent', "");
    HeaderBlockBytes(sent, statusLine);
  }

  lemma HeaderConstants()
    ensures Printable(SERVER_BASE_STR) && NoNul(SERVER_BASE_STR) && |SERVER_BASE_STR| == 11
    ensures Printable(CONTENT_TYPE_HTML) && NoNul(CONTENT_TYPE_HTML) && |CONTENT_TYPE_HTML| == 23
    ensures NoNul("")
  {
  }

  lemma PrintableNoNul(m: String)
    requires Printable(m)
    ensures NoNul(m)
  {
  }

  lemma HeaderBlockBytes(sent: String, statusLine: String)
    ensures sent + statusLine + CRLF + SERVER_BASE_STR + CRLF + CONTENT_TYPE_HTML + CRLF + "" + CRLF
            == sent + JoinCrlf(ReplyMessages(statusLine, None))
  {
    JoinCrlfFour(statusLine, SERVER_BASE_STR, CONTENT_TYPE_HTML, "");
    assert ReplyMessages(statusLine, None) == [statusLine, SERVER_BASE_STR, CONTENT_TYPE_HTML, ""];
  }

  /** An error responder: the header block, then HTML_RESPONSE_FMT filled with the title and body. */
  method SendError(sent: String, statusLine: String, title: String, body: String) returns (sent': String)
    requires Printable(statusLine) && |statusLine| <= 40
    requires Printable(title) && |title| <= 40 && Printable(body) && |body| <= 40
    ensures sent' == sent + JoinCrlf(ReplyMessages(statusLine, Some(HtmlResponse(title, body))))
  {
    sent' := SendHeaderBlock(sent, statusLine);
    var buf := HtmlResponse(title, body);
    HtmlResponsePrintable(title, body);
    sent' := FormatAndSendResponse(sent', buf);
    var head := ReplyMessages(statusLine, None);
    assert ReplyMessages(statusLine, Some(buf)) == head + [buf];
    JoinCrlfSplit(head, [buf]);
    assert [buf][1..] == [];
  }

  /** http_ok (src/http_response.c:18-25): headers only. */
  method HttpOk(sent: String) returns (sent': String)
    ensures sent' == sent + Response(Ok200)
  {
    StatusLinePrintable(Ok200);
    sent' := SendHeaderBlock(sent, StatusLine(Ok200));
  }

  /** http_ok_length (src/http_response.c:27-36): the file name is ignored, so it sends what http_ok sends. */
  method HttpOkLength(sent: String, filename: String) returns (sent': String)
    ensures sent' == sent + Response(Ok200)
  {
    sent' := HttpOk(sent);
  }

  /** The error responders differ only in their three strings. */
  method HttpError(sent: String, st: Status) returns (sent': String)
    requires st != Ok200
    ensures sent' == sent + Response(st)
  {
    TextsPrintable(st);
    sent' := SendError(sent, StatusLine(st), Title(st), Body(st));
  }

  /** http_not_implemented (src/http_response.c:38-49). */
  method HttpNotImplemented(sent: String) returns (sent': String)
    ensures sent' == sent + Response(NotImplemented501)
  {
    sent' := HttpError(sent, NotImplemented501);
  }

  /** http_internal_server_error (src/http_response.c:51-62). */
  method HttpInternalServerError(sent: String) returns (sent': String)
    ensures sent' == sent + Response(InternalError500)
  {
    sent' := HttpError(sent, InternalError500);
  }

  /** http_not_found (src/http_response.c:64-75). */
  method HttpNotFound(sent: String) returns (sent': String)
    ensures sent' == sent + Response(NotFound404)
  {
    sent' := HttpError(sent, NotFound404);
  }

  /** http_forbidden (src/http_response.c:77-88). */
  method HttpForbidden(sent: String) returns (sent': String)
    ensures sent' == sent + Response(Forbidden403)
  {
    sent' := HttpError(sent, Forbidden403);
  }

  /** http_bad_request (src/http_response.c:90-101). */
  method HttpBadRequest(sent: String) returns (sent': String)
    ensures sent' == sent + Response(BadRequest400)
  {
    sent' := HttpError(sent, BadRequest400);
  }

  // ---------------------------------------------------------------------
  // What a client reads back

  /**
   * A client that cuts a response at "\r\n" gets back exactly the messages:
   * the status line, the Server and Content-Type headers, the empty line that
   * ends the header block and, for an error, one line holding the HTML page.
   */
  lemma ResponseLines(st: Status)
    ensures SplitCrlf(Response(st)) == Messages(st)
    ensures |Messages(st)| == if st == Ok200 then 4 else 5
    ensures Messages(st)[3] == ""
  {
    PagePrintable(st);
    ReplyLines(StatusLine(st), Page(st));
  }

  lemma PagePrintable(st: Status)
    ensures Printable(StatusLine(st))
    ensures Page(st).None? <==> st == Ok200
    ensures Page(st).Some? ==> Printable(Page(st).value)
  {
    TextsPrintable(st);
    if st != Ok200 {
      HtmlResponsePrintable(Title(st), Body(st));
    }
  }

  /** Cutting a reply at "\r\n" gives back its messages when the status line and page are printable. */
  lemma ReplyLines(statusLine: String, page: Option<String>)
    requires Printable(statusLine)
    requires page.Some? ==> Printable(page.value)
    ensures SplitCrlf(JoinCrlf(ReplyMessages(statusLine, page))) == ReplyMessages(statusLine, page)
    ensures |ReplyMessages(statusLine, page)| == if page.None? then 4 else 5
    ensures ReplyMessages(statusLine, page)[3] == ""
  {
    var ms := ReplyMessages(statusLine, page);
    assert Printable(SERVER_BASE_STR) && Printable(CONTENT_TYPE_HTML) && Printable("");
    assert ms[0] == statusLine && ms[1] == SERVER_BASE_STR && ms[2] == CONTENT_TYPE_HTML && ms[3] == "";
    assert |ms| == 5 ==> page.Some? && ms[4] == page.value;
    SplitJoinCrlf(ms);
  }

  /** The header block of every response ends in "\r\n\r\n", and an error's page follows it directly. */
  lemma ResponseHeaderBlock(st: Status)
    ensures var r := Response(st);
      var n := |StatusLine(st)| + 42;
      && n <= |r| && r[n - 4..n] == "\r\n\r\n"
      && r[n..] == (if st == Ok200 then [] else HtmlResponse(Title(st), Body(st)) + CRLF)
  {
    ReplyBytes(StatusLine(st), Page(st));
  }

  /**
   * Every status line is an RFC 1945 Status-Line: the version, the code in
   * three digits and the reason phrase, separated by single spaces; and an
   * error page's title starts with that same code.
   */
  lemma StatusLineFields(st: Status)
    ensures StatusLine(st) == "HTTP/1.0 " + Decimal(Code(st)) + " " + Reason(st)
    ensures |Decimal(Code(st))| == 3
    ensures st != Ok200 ==> Title(st)[..3] == Decimal(Code(st))
  {
    CodeTextDecimal(st);
    if st != Ok200 {
      TitleCode(st);
    }
  }

  /** The code spelled on the status line is the decimal spelling of the numeric code. */
  lemma CodeTextDecimal(st: Status)
    ensures CodeText(st) == Decimal(Code(st)) && |CodeText(st)| == 3
  {
    DecimalThreeDigits(Code(st));
  }

  lemma TitleCode(st: Status)
    requires st != Ok200
    ensures |Title(st)| >= 3 && Title(st)[..3] == CodeText(st)
  {
    CodeTextPrintable(st);
  }

  lemma DecimalThreeDigits(c: nat)
    requires 100 <= c < 1000
    ensures Decimal(c) == [Digit(c / 100), Digit(c / 10 % 10), Digit(c % 10)]
  {
    assert Decimal(c / 10) == Decimal(c / 100) + [Digit(c / 10 % 10)];
  }

  // ---------------------------------------------------------------------
  // The constant texts are printable and short

  lemma HtmlResponsePrintable(title: String, body: String)
    requires Printable(title) && Printable(body)
    ensures Printable(HtmlResponse(title, body))
    ensures |HtmlResponse(title, body)| == |title| + |body| + 48
  {
    var p0, p1, p2 := "<html><title>", "</title><body><p>", "</p></body></html>";
    assert Printable(p0) && Printable(p1) && Printable(p2);
    PrintableConcat(p0, title);
    PrintableConcat(p0 + title, p1);
    PrintableConcat(p0 + title + p1, body);
    PrintableConcat(p0 + title + p1 + body, p2);
  }

  lemma TextsPrintable(st: Status)
    ensures Printable(StatusLine(st)) && |StatusLine(st)| <= 40
    ensures st != Ok200 ==> Printable(Title(st)) && Printable(Body(st)) && |Title(st)| <= 40 && |Body(st)| <= 40
  {
    StatusLinePrintable(st);
    if st != Ok200 {
      TitlePrintable(st);
      BodyPrintable(st);
    }
  }

  lemma StatusLinePrintable(st: Status)
    ensures Printable(StatusLine(st)) && |StatusLine(st)| <= 40
  {
    var c, r := CodeText(st), Reason(st);
    CodeTextPrintable(st);
    ReasonPrintable(st);
    assert Printable("HTTP/1.0 ") && Printable(" ");
    PrintableConcat("HTTP/1.0 ", c);
    PrintableConcat("HTTP/1.0 " + c, " ");
    PrintableConcat("HTTP/1.0 " + c + " ", r);
  }

  lemma CodeTextPrintable(st: Status)
    ensures Printable(CodeText(st)) && |CodeText(st)| == 3
  {
    match st
    case Ok200 =>
    case BadRequest400 =>
    case Forbidden403 =>
    case NotFound404 =>
    case InternalError500 =>
    case NotImplemented501 =>
  }

  lemma ReasonPrintable(st: Status)
    ensures Printable(Reason(st)) && |Reason(st)| <= 22
  {
    assert |Reason(st)| <= 22;
    match st
    case Ok200 => OkReasonPrintable();
    case BadRequest400 => BadRequestReasonPrintable();
    case Forbidden403 => ForbiddenReasonPrintable();
    case NotFound404 => NotFoundReasonPrintable();
    case InternalError500 => InternalErrorReasonPrintable();
    case NotImplemented501 => NotImplementedReasonPrintable();
  }

  lemma OkReasonPrintable() ensures Printable(Reason(Ok200)) { }
  lemma BadRequestReasonPrintable() ensures Printable(Reason(BadRequest400)) { }
  lemma ForbiddenReasonPrintable() ensures Printable(Reason(Forbidden403)) { }
  lemma NotFoundReasonPrintable() ensures Printable(Reason(NotFound404)) { }
  lemma InternalErrorReasonPrintable() ensures Printable(Reason(InternalError500)) { }
  lemma NotImplementedReasonPrintable() ensures Printable(Reason(NotImplemented501)) { }

  lemma TitlePrintable(st: Status)
    requires st != Ok200
    ensures Printable(Title(st)) && |Title(st)| <= 40
  {
    CodeTextPrintable(st);
    ReasonPrintable(st);
    var phrase := if st == NotFound404 then "Not Found" else Reason(st);
    assert Printable(" ") && Printable("Not Found");
    assert Printable(phrase) && |phrase| <= 22;
    PrintableConcat(CodeText(st), " ");
    PrintableConcat(CodeText(st) + " ", phrase);
  }

  lemma BodyPrintable(st: Status)
    requires st != Ok200
    ensures Printable(Body(st)) && |Body(st)| <= 40
  {
    assert |Body(st)| <= 40;
    match st
    case BadRequest400 => BadRequestBodyPrintable();
    case Forbidden403 => ForbiddenBodyPrintable();
    case NotFound404 => NotFoundBodyPrintable();
    case InternalError500 => InternalErrorBodyPrintable();
    case NotImplemented501 => NotImplementedBodyPrintable();
  }

  lemma BadRequestBodyPrintable() ensures Printable(Body(BadRequest400)) { }
  lemma ForbiddenBodyPrintable() ensures Printable(Body(Forbidden403)) { }
  lemma NotFoundBodyPrintable() ensures Printable(Body(NotFound404)) { }
  lemma InternalErrorBodyPrintable() ensures Printable(Body(InternalError500)) { }
  lemma NotImplementedBodyPrintable() ensures Printable(Body(NotImplemented501)) { }
}

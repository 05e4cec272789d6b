/**
 * The part of libevent's HTTP layer the evhttp servers (src/httpd.c,
 * src/httpd.h) talk to: request commands, status codes, and the replies a
 * request handler emits, recorded as a sequence of events in the order the
 * handler issues them.
 */
module Evhttp {
  import opened CString

  const HTTP_OK: nat := 200
  const HTTP_BADREQUEST: nat := 400
  const HTTP_NOTFOUND: nat := 404
  const HTTP_BADMETHOD: nat := 405
  const HTTP_INTERNAL: nat := 500
  const HTTP_NOTIMPLEMENTED: nat := 501

  /** evhttp_request_get_command: the request types libevent knows, and any other value. */
  datatype Command = Get | Post | Head | Put | Delete | Options | Trace | Connect | Patch | OtherCommand

  /**
   * get_req_method_str (src/httpd.c:200-237) and print_method
   * (src/httpd.h:219-256): the method's name, "unknown" for anything else.
   */
  function CommandName(cmd: Command): (name: String)
    ensures name == "unknown" <==> cmd == OtherCommand
    ensures 3 <= |name| <= 7
  {
    match cmd
    case Get => "GET"
    case Post => "POST"
    case Head => "HEAD"
    case Put => "PUT"
    case Delete => "DELETE"
    case Options => "OPTIONS"
    case Trace => "TRACE"
    case Connect => "CONNECT"
    case Patch => "PATCH"
    case OtherCommand => "unknown"
  }

  /** Different commands have different names: the name identifies the command. */
  lemma CommandNamesDistinct(a: Command, b: Command)
    ensures CommandName(a) == CommandName(b) <==> a == b
  {
  }

  /** What a chunk carries: text from memory, or `len` bytes of the open file from `offset`. */
  datatype Data = Text(s: String) | Segment(offset: nat, len: nat)

  /** One call a handler makes on its request. */
  datatype Reply =
    | SendError(code: nat)                      // evhttp_send_error(req, code, NULL)
    | AddHeader(name: String, value: String)    // evhttp_add_header on the output headers
    | SendReply(code: nat, body: seq<Data>)     // evhttp_send_reply(req, code, "OK", evb)
    | ReplyStart(code: nat)                     // evhttp_send_reply_start(req, code, "OK")
    | Chunk(data: Data)                         // evhttp_send_reply_chunk
    | ReplyEnd                                  // evhttp_send_reply_end
}

/**
 * The dispatcher of the bufferevent server (src/http_functions.c): a parsed
 * request is mapped to a path under the server root; GET lists a directory
 * or sends a file, POST receives an upload.
 *
 * The file system is given as the outcome of the calls the server makes on
 * the requested path: what stat reports, what opendir yields, whether fopen
 * succeeds. Sending the contents of a file (http_ok_send_file and the stdio
 * loop of send_file) is recorded as an effect with the size and extension
 * the server passes on.
 */
module FileServer {
  import opened CString
  import opened LineFraming
  import opened HttpResponse
  import opened RequestParser
  import opened MultipartUpload
  import opened Paths

  /** The page head and tail of the directory listing (src/http_functions.h:28-40). */
  const HTML_BEFORE_BODY: String :=
    "<html><title>WUW Web Server Main Page</title><body><p>Welcome to Wu Jiahao's web server!</p>"
  const HTML_AFTER_BODY: String :=
    "<form method=\"POST\" enctype=\"multipart/form-data\"><input type=\"file\">"
    + "<button type=\"submit\">upload</button></form></body></html>"

  /** What opendir yields: a failure with or without errno EACCES, or the names readdir returns in order. */
  datatype DirOpen = DirOpenFailed(eacces: bool) | DirEntries(names: seq<String>)

  /**
   * What stat reports for the requested path, with what the later calls on
   * it yield: opendir for a directory; for a regular file its size, whether
   * fopen succeeds and whether the second stat in send_file_to_client does.
   */
  datatype Node =
    | Missing
    | Directory(dir: DirOpen)
    | RegularFile(size: nat, opens: bool, restat: bool)
    | OtherNode

  /** What happens besides the bytes of the replies: a file sent, an upload handled. */
  datatype Effect = NoEffect | Streamed(size: nat, extension: String) | Uploaded(u: Upload)

  // ---------------------------------------------------------------------
  // The directory listing

  /** The names the listing leaves out. */
  predicate Hidden(name: String) {
    name == ".." || name == "." || name == ".DS_Store"
  }

  /** One listed entry, as the sprintf of send_directory_to_client formats it. */
  function EntryLine(cur: String, name: String): String {
    "<dd>- <a href=\"" + cur + "/" + name + "\">" + name + "</a></dd>"
  }

  /** Every entry is a C string, and every listed one fits the 1024-byte line buffer with its terminator. */
  predicate EntriesFit(cur: String, names: seq<String>) {
    forall i :: 0 <= i < |names| ==> NoNul(names[i]) && (!Hidden(names[i]) ==> |EntryLine(cur, names[i])| < MAX_LINE_LEN)
  }

  /** What one entry contributes: its line, or nothing for a hidden name. */
  function Piece(cur: String, name: String): String {
    if Hidden(name) then [] else EntryLine(cur, name)
  }

  /** The contribution of each entry, in readdir order. */
  function Pieces(cur: String, names: seq<String>): (r: seq<String>)
    ensures |r| == |names| && forall i :: 0 <= i < |names| ==> r[i] == Piece(cur, names[i])
  {
    seq(|names|, i requires 0 <= i < |names| => Piece(cur, names[i]))
  }

  /** The entry lines written for `names`, in readdir order. */
  function Listing(cur: String, names: seq<String>): String {
    Concat(Pieces(cur, names))
  }

  /** The names that are listed, in order. */
  function Shown(names: seq<String>): (r: seq<String>)
    ensures |r| <= |names|
    ensures forall n :: n in r <==> n in names && !Hidden(n)
  {
    if names == [] then []
    else
      var rest := Shown(names[..|names| - 1]);
      assert forall n :: n in names <==> n in names[..|names| - 1] || n == names[|names| - 1] by {
        assert names == names[..|names| - 1] + [names[|names| - 1]];
      }
      if Hidden(names[|names| - 1]) then rest else rest + [names[|names| - 1]]
  }

  /** The listing of two runs of entries is the two listings one after the other. */
  lemma ListingAppend(cur: String, a: seq<String>, b: seq<String>)
    ensures Listing(cur, a + b) == Listing(cur, a) + Listing(cur, b)
  {
    assert Pieces(cur, a + b) == Pieces(cur, a) + Pieces(cur, b);
    ConcatSplit(Pieces(cur, a), Pieces(cur, b));
  }

  /** A single entry is listed as its own line, or not at all. */
  lemma ListingOne(cur: String, name: String)
    ensures Listing(cur, [name]) == if Hidden(name) then [] else EntryLine(cur, name)
  {
    assert Pieces(cur, [name]) == [] + [Piece(cur, name)];
    ConcatAppend([], Piece(cur, name));
  }

  /** What one turn of the readdir loop adds to the listing. */
  lemma ListingStep(cur: String, names: seq<String>, i: nat)
    requires i < |names|
    ensures Listing(cur, names[..i + 1]) == Listing(cur, names[..i]) + Piece(cur, names[i])
  {
    assert Pieces(cur, names[..i + 1]) == Pieces(cur, names[..i]) + [Piece(cur, names[i])];
    ConcatAppend(Pieces(cur, names[..i]), Piece(cur, names[i]));
  }

  /**
   * Entry i of the directory contributes exactly its own line at its place in
   * the listing, or nothing when its name is hidden.
   */
  lemma ListingAt(cur: String, names: seq<String>, i: nat)
    requires i < |names|
    ensures Listing(cur, names) == Listing(cur, names[..i])
      + (if Hidden(names[i]) then [] else EntryLine(cur, names[i])) + Listing(cur, names[i + 1..])
  {
    assert names == names[..i] + [names[i]] + names[i + 1..];
    ListingAppend(cur, names[..i] + [names[i]], names[i + 1..]);
    ListingAppend(cur, names[..i], [names[i]]);
    ListingOne(cur, names[i]);
  }

  /** Leaving the hidden names out first changes nothing: the listing is that of the shown names. */
  lemma {:induction false} ListingShown(cur: String, names: seq<String>)
    ensures Listing(cur, names) == Listing(cur, Shown(names))
    decreases |names|
  {
    if names == [] {
      assert Pieces(cur, names) == [];
    } else {
      var init, last := names[..|names| - 1], names[|names| - 1];
      assert names == init + [last];
      ListingShown(cur, init);
      ListingAppend(cur, init, [last]);
      ListingOne(cur, last);
      if !Hidden(last) {
        ListingAppend(cur, Shown(init), [last]);
      }
    }
  }

  /** The bytes on the connection after send_directory_to_client has listed `names`. */
  function ListingPage(sent: String, directory: String, names: seq<String>): String
    requires |directory| >= 1
  {
    sent + Response(Ok200) + HTML_BEFORE_BODY + Listing(SuffixAfterLast(directory, '/'), names) + HTML_AFTER_BODY
  }

  /**
   * send_directory_to_client (src/http_functions.c:209-246): 403 when opendir
   * fails with EACCES, 500 when it fails otherwise; else 200, the page head,
   * one line per entry except "..", "." and ".DS_Store", and the page tail.
   * Links are the last component of the path, '/', and the name.
   */
  method SendDirectoryToClient(directory: String, dir: DirOpen, sent: String) returns (sent': String)
    requires 1 <= |directory| < MAX_PATH_LEN
    requires dir.DirEntries? ==> EntriesFit(SuffixAfterLast(directory, '/'), dir.names)
    ensures dir == DirOpenFailed(true) ==> sent' == sent + Response(Forbidden403)
    ensures dir == DirOpenFailed(false) ==> sent' == sent + Response(InternalError500)
    ensures dir.DirEntries? ==> sent' == ListingPage(sent, directory, dir.names)
  {
    var curDir := GetCurrentDirectory(directory);
    if dir.DirOpenFailed? {
      if dir.eacces {
        sent' := HttpForbidden(sent);
      } else {
        sent' := HttpInternalServerError(sent);
      }
      return;
    }
    var names := dir.names;
    sent' := HttpOk(sent);
    sent' := sent' + HTML_BEFORE_BODY;
    sent' := WriteEntries(sent', curDir, names);
    sent' := sent' + HTML_AFTER_BODY;
  }

  /** The readdir loop of send_directory_to_client (src/http_functions.c:232-241). */
  method WriteEntries(sent: String, cur: String, names: seq<String>) returns (sent': String)
    ensures sent' == sent + Listing(cur, names)
  {
    sent' := sent;
    assert Pieces(cur, names[..0]) == [];
    var i := 0;
    while i < |names|
      invariant i <= |names|
      invariant sent' == sent + Listing(cur, names[..i])
    {
      WriteStep(sent, cur, names, i, sent');
      var name := names[i];
      if !Hidden(name) {
        sent' := sent' + EntryLine(cur, name);
      }
      i := i + 1;
    }
    assert names[..i] == names;
  }

  /** One turn of the loop above, on the bytes written so far. */
  lemma WriteStep(sent: String, cur: String, names: seq<String>, i: nat, out: String)
    requires i < |names| && out == sent + Listing(cur, names[..i])
    ensures Hidden(names[i]) ==> out == sent + Listing(cur, names[..i + 1])
    ensures !Hidden(names[i]) ==> out + EntryLine(cur, names[i]) == sent + Listing(cur, names[..i + 1])
  {
    var before, after := Listing(cur, names[..i]), Listing(cur, names[..i + 1]);
    if Hidden(names[i]) {
      assert out == sent + after by {
        ListingStep(cur, names, i);
        assert Piece(cur, names[i]) == [];
        assert before + [] == before;
      }
    } else {
      var line := EntryLine(cur, names[i]);
      assert out + line == sent + after by {
        ListingStep(cur, names, i);
        assert Piece(cur, names[i]) == line;
        assert sent + before + line == sent + (before + line);
      }
    }
  }

  // ---------------------------------------------------------------------
  // Sending a file

  /**
   * send_file_to_client (src/http_functions.c:267-286). When fopen fails the
   * code replies 404 and then calls fclose(NULL), which is undefined, so the
   * file must open. A failing second stat gives 500; otherwise the file is
   * sent with its size and the extension after its last '.'.
   */
  method SendFileToClient(fileName: String, size: nat, opens: bool, restat: bool, sent: String)
    returns (sent': String, effect: Effect)
    requires opens && 1 <= |fileName| < MAX_PATH_LEN
    ensures !restat ==> sent' == sent + Response(InternalError500) && effect == NoEffect
    ensures restat ==> sent' == sent && effect == Streamed(size, SuffixAfterLast(fileName, '.'))
  {
    if !restat {
      sent' := HttpInternalServerError(sent);
      return sent', NoEffect;
    }
    var extension := GetFileExtension(fileName);
    sent', effect := sent, Streamed(size, extension);
  }

  // ---------------------------------------------------------------------
  // Dispatch

  /** The request head parses without undefined behaviour. */
  predicate HeadDefined(input: String) {
    var f := FramedLine(input);
    && RequestLineDefined(f.line)
    && (RequestLine(f.line, ZeroHeaders).mode != NotImplement ==> DrainDefined(input[f.consumed..], ZeroBuffer))
  }

  /** The record after parse_http_header on the whole stream, starting from the zeroed record. */
  function Parsed(input: String): (h: Headers)
    requires HeadDefined(input)
    ensures h.mode == RequestLine(FramedLine(input).line, ZeroHeaders).mode
  {
    var f := FramedLine(input);
    var h := RequestLine(f.line, ZeroHeaders);
    if h.mode == NotImplement then h
    else
      DrainKeepsRequestLine(input[f.consumed..], ZeroBuffer, h);
      Drain(input[f.consumed..], ZeroBuffer, h)
  }

  /** The URL the parser stores is a C string. */
  lemma ParsedUrlNoNul(input: String)
    requires HeadDefined(input) && Parsed(input).mode != NotImplement
    ensures NoNul(Parsed(input).url)
  {
    var f := FramedLine(input);
    var h := RequestLine(f.line, ZeroHeaders);
    DrainKeepsRequestLine(input[f.consumed..], ZeroBuffer, h);
    var raw := UrlToken(f.line);
    if h.mode == Get && '?' in raw {
      var p := SplitAtQuery(raw).0;
      assert forall m :: 0 <= m < |p| ==> p[m] == raw[m] by {
        assert p + ['?'] + SplitAtQuery(raw).1 == raw;
      }
    }
  }

  /** What do_accept_cb may assume about its environment for the request in `input`. */
  predicate AcceptDefined(input: String, root: String, node: Node) {
    && HeadDefined(input)
    && 1 <= |root| && NoNul(root)
    && var h := Parsed(input);
    h.mode != NotImplement ==>
      && PathFits(root, h.url)
      && (h.mode == Get && node.RegularFile? ==> node.opens)
      && (h.mode == Get && node.Directory? && node.dir.DirEntries? ==>
            EntriesFit(SuffixAfterLast(FilePathOnServer(root, h.url), '/'), node.dir.names))
      && (h.mode == Post ==> NoNul(h.boundary) && |h.boundary| + 6 <= LINE_CAP)
  }

  /**
   * The bytes on the connection and the effect after a GET for `path` (the
   * GET branch of src/http_functions.c:379-390), `sent` being the bytes
   * before it.
   */
  function GetReply(sent: String, path: String, node: Node): (r: (String, Effect))
    requires 1 <= |path|
    ensures r.1.Streamed? <==> node.RegularFile? && node.restat
    ensures r.1.Streamed? ==> r.0 == sent && r.1.extension == SuffixAfterLast(path, '.')
    ensures r.1 == NoEffect || r.1.Streamed?
  {
    match node
    case Missing => (sent + Response(NotFound404), NoEffect)
    case Directory(DirOpenFailed(eacces)) =>
      (sent + Response(if eacces then Forbidden403 else InternalError500), NoEffect)
    case Directory(DirEntries(names)) => (ListingPage(sent, path, names), NoEffect)
    case RegularFile(size, _, restat) =>
      if restat then (sent, Streamed(size, SuffixAfterLast(path, '.'))) else (sent + Response(InternalError500), NoEffect)
    case OtherNode => (sent + Response(NotFound404), NoEffect)
  }

  /** The GET branch of do_accept_cb: 404 unless stat finds a directory or a regular file. */
  method ServeGet(path: String, node: Node, sent: String) returns (sent': String, effect: Effect)
    requires 1 <= |path| < MAX_PATH_LEN
    requires node.RegularFile? ==> node.opens
    requires node.Directory? && node.dir.DirEntries? ==> EntriesFit(SuffixAfterLast(path, '/'), node.dir.names)
    ensures (sent', effect) == GetReply(sent, path, node)
  {
    match node {
      case Missing =>
        sent' := HttpNotFound(sent);
        effect := NoEffect;
      case Directory(dir) =>
        sent' := SendDirectoryToClient(path, dir, sent);
        effect := NoEffect;
      case RegularFile(size, opens, restat) =>
        sent', effect := SendFileToClient(path, size, opens, restat, sent);
      case OtherNode =>
        sent' := HttpNotFound(sent);
        effect := NoEffect;
    }
  }

  /** HeadDefined, stated for a parse that starts at the first byte of the stream. */
  lemma HeadAtStart(input: String)
    requires HeadDefined(input)
    ensures var f := FramedLine(input[0..]);
      && f == FramedLine(input)
      && input[0 + f.consumed..] == input[f.consumed..]
      && RequestLineDefined(f.line)
      && (RequestLine(f.line, ZeroHeaders).mode != NotImplement ==> DrainDefined(input[0 + f.consumed..], ZeroBuffer))
  {
    assert input[0..] == input;
  }

  /** The first step of do_accept_cb: parse_http_header on the whole stream. */
  method ReadRequest(input: String, sent: String) returns (hdr: Headers, accepted: bool, next: nat, sent': String)
    requires HeadDefined(input)
    ensures hdr == Parsed(input)
    ensures accepted <==> hdr.mode != NotImplement
    ensures accepted ==> sent' == sent && next == |input|
    ensures !accepted ==> sent' == sent + Response(NotImplemented501)
  {
    HeadAtStart(input);
    var ret;
    hdr, ret, next, sent' := ParseHttpHeader(input, 0, ZeroHeaders, sent);
    accepted := ret >= 0;
  }

  /**
   * do_accept_cb (src/http_functions.c:358-400) on a connection whose bytes
   * are `input`. A refused method has been answered 501 by the parser. GET
   * serves the path under the root; POST runs the upload, which finds the
   * stream already drained by the header loop. `uploadOpens` is whether
   * fopen for writing succeeds.
   */
  method DoAcceptCb(input: String, root: String, node: Node, uploadOpens: bool, sent: String)
    returns (sent': String, effect: Effect)
    requires AcceptDefined(input, root, node)
    ensures Parsed(input).mode == NotImplement ==> sent' == sent + Response(NotImplemented501) && effect == NoEffect
    ensures Parsed(input).mode == Get ==>
      (sent', effect) == GetReply(sent, FilePathOnServer(root, Parsed(input).url), node)
    ensures Parsed(input).mode == Post ==>
      var u := RecvOutcome([], Parsed(input), uploadOpens);
      sent' == sent + MultipartUpload.Reply(u) && effect == Uploaded(u)
  {
    var hdr, accepted, next, sent1 := ReadRequest(input, sent);
    if !accepted {
      return sent1, NoEffect;
    }
    ParsedUrlNoNul(input);
    var path := FilePathOnServer(root, hdr.url);
    match hdr.mode {
      case Get =>
        sent', effect := ServeGet(path, node, sent1);
      case Post =>
        assert input[next..] == [];
        var u, _, s := RecvFileFromClient(input, next, hdr, uploadOpens, sent1);
        sent', effect := s, Uploaded(u);
    }
  }

  /**
   * The header loop reads until the stream is exhausted, so an upload always
   * finds nothing left: a POST announcing a length stores an empty file and
   * is answered 200, one announcing no length is answered 500.
   */
  lemma PostFindsStreamDrained(input: String, root: String, node: Node, uploadOpens: bool)
    requires AcceptDefined(input, root, node) && Parsed(input).mode == Post
    ensures var h := Parsed(input);
      && (h.length == 0 ==> RecvOutcome([], h, uploadOpens) == Refused)
      && (h.length != 0 && uploadOpens ==>
            RecvOutcome([], h, uploadOpens) == Stored([])
            && MultipartUpload.Reply(RecvOutcome([], h, uploadOpens)) == Response(Ok200))
      && (!uploadOpens ==> MultipartUpload.Reply(RecvOutcome([], h, uploadOpens)) == Response(InternalError500))
  {
    var h := Parsed(input);
    if h.length != 0 && uploadOpens {
      DrainedUpload(h);
    }
  }
}

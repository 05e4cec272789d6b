/**
 * The evhttp servers: handle_get_helper and handle_request_cb of src/httpd.c
 * and the older send_document_cb of src/httpd.h. libevent parses and decodes
 * the URI and the filesystem answers stat, opendir/readdir, open and fstat;
 * all of these arrive as inputs. What a handler asks libevent to send is the
 * sequence of Reply events it returns.
 */
module EventServer {
  import opened CString
  import opened LineFraming
  import opened Evhttp
  import opened ContentType
  import opened Paths
  import PostIngest
  import RequestParser

  /** What stat, opendir/readdir, open and fstat report for a whole path. */
  datatype Node =
    | Absent                                          // stat fails
    | Folder(entries: Option<seq<String>>)            // a directory: None when opendir fails, else readdir's names in order
    | Document(opens: bool, fstats: bool, size: nat)  // anything else: open and fstat succeed, fstat's st_size

  /**
   * What libevent makes of the request URI: evhttp_uri_parse fails, or it
   * yields a path (None when the URI has none) and evhttp_uridecode of the
   * path actually used yields the decoded C string (None when it fails).
   */
  datatype Uri = BadUri | Parsed(path: Option<String>, decoded: Option<String>)

  /** The path the handlers work with: "/" when the URI has none. */
  function UriPath(u: Uri): (p: String)
    requires u.Parsed?
    ensures u.path.None? ==> p == "/"
  {
    if u.path.Some? then u.path.value else "/"
  }

  /** The URI yields a decoded path that passes the ".." test. */
  predicate Admitted(u: Uri) {
    u.Parsed? && u.decoded.Some? && !HasDotDot(u.decoded.value)
  }

  // ---------------------------------------------------------------------
  // Directory listings

  /** httpd.c's four-argument HTML_BEFORE_BODY: the text around its four %s conversions. */
  datatype Template = Template(p0: String, p1: String, p2: String, p3: String, p4: String)

  /** sprintf(tmp, HTML_BEFORE_BODY, decoded_path, path, trailing_slash, decoded_path). */
  function Fill(t: Template, decoded: String, path: String, slash: String): String {
    t.p0 + decoded + t.p1 + path + t.p2 + slash + t.p3 + decoded + t.p4
  }

  /** The trailing_slash both listings put after the base path: "/" unless the path already ends in one. */
  function TrailingSlash(path: String): (r: String)
    ensures r == "" || r == "/"
    ensures r == "" <==> |path| > 0 && path[|path| - 1] == '/'
    ensures |path + r| > 0 && (path + r)[|path + r| - 1] == '/'
  {
    if |path| == 0 || path[|path| - 1] != '/' then "/" else ""
  }

  /** The list item written for one directory entry. */
  function Item(name: String): String {
    "    <li><a href=\"" + name + "\">" + name + "</a>\n"
  }

  const LIST_CLOSE: String := "</ul></body></html>\n"

  /** The entries handle_get_helper skips: evutil_ascii_strcasecmp with "." or ".." gives 0. */
  predicate IsDot(name: String) {
    EqualsIgnoreCase(name, ".") || EqualsIgnoreCase(name, "..")
  }

  /** '.' has no case, so the case-insensitive test skips exactly "." and "..". */
  lemma DotsExactly(name: String)
    ensures IsDot(name) <==> name == "." || name == ".."
  {
    if EqualsIgnoreCase(name, ".") || EqualsIgnoreCase(name, "..") {
      forall i | 0 <= i < |name|
        ensures name[i] == '.'
      {
        assert ToLower(name[i]) == '.';
      }
    }
  }

  /** The entries handle_get_helper lists, in readdir's order. */
  function Listed(names: seq<String>): (r: seq<String>)
    ensures |r| <= |names|
    ensures forall n :: n in r ==> n in names && !IsDot(n)
    ensures forall n :: n in names && !IsDot(n) ==> n in r
  {
    if names == [] then []
    else
      var last := names[|names| - 1];
      assert forall n :: n in names ==> n in names[..|names| - 1] || n == last;
      Listed(names[..|names| - 1]) + (if IsDot(last) then [] else [last])
  }

  /** The list items for `names`, one per name, in order. */
  function Items(names: seq<String>): (r: seq<Data>)
    ensures |r| == |names|
  {
    seq(|names|, i requires 0 <= i < |names| => Text(Item(names[i])))
  }

  /** Data sent as chunks, one evhttp_send_reply_chunk each. */
  function Chunks(ds: seq<Data>): (r: seq<Reply>)
    ensures |r| == |ds|
  {
    seq(|ds|, i requires 0 <= i < |ds| => Chunk(ds[i]))
  }

  /** A listing with no "." or ".." entry is listed whole. */
  lemma {:induction false} ListedWithoutDots(names: seq<String>)
    requires forall n :: n in names ==> !IsDot(n)
    ensures Listed(names) == names
  {
    if names != [] {
      ListedWithoutDots(names[..|names| - 1]);
      assert names[..|names| - 1] + [names[|names| - 1]] == names;
    }
  }

  /** Listed over a prefix grows by the next name unless that name is a dot entry. */
  lemma ListedStep(names: seq<String>, i: nat)
    requires i < |names|
    ensures Listed(names[..i + 1]) == Listed(names[..i]) + (if IsDot(names[i]) then [] else [names[i]])
  {
    assert names[..i + 1][..i] == names[..i];
  }

  // ---------------------------------------------------------------------
  // Chunked file transfer

  /**
   * The chunks the GET loop sends from `offset` on: min(chunk, size - offset)
   * bytes at a time until the offset reaches the size.
   */
  function Plan(offset: nat, size: nat, chunk: nat): seq<Data>
    requires chunk > 0
    decreases size - offset
  {
    if offset >= size then []
    else
      var n := if size - offset > chunk then chunk else size - offset;
      [Segment(offset, n)] + Plan(offset + n, size, chunk)
  }

  /** The bytes a sequence of file segments covers. */
  function SegmentBytes(ds: seq<Data>): nat {
    if ds == [] then 0
    else (if ds[0].Segment? then ds[0].len else 0) + SegmentBytes(ds[1..])
  }

  /** The chunks are file segments, none empty and none over the chunk size; an empty file gets none. */
  lemma {:induction false} PlanSegments(offset: nat, size: nat, chunk: nat)
    requires chunk > 0 && offset <= size
    ensures var p := Plan(offset, size, chunk);
      && (p == [] <==> offset == size)
      && (forall i :: 0 <= i < |p| ==> p[i].Segment? && 0 < p[i].len <= chunk)
      && (p != [] ==> p[0].offset == offset)
    decreases size - offset
  {
    if offset < size {
      var n := if size - offset > chunk then chunk else size - offset;
      PlanSegments(offset + n, size, chunk);
      var rest := Plan(offset + n, size, chunk);
      assert forall i :: 1 <= i < |rest| + 1 ==> ([Segment(offset, n)] + rest)[i] == rest[i - 1];
    }
  }

  /** Chunk i starts at offset + i * chunk: the chunks follow each other with no gap. */
  lemma {:induction false} PlanOffsets(offset: nat, size: nat, chunk: nat)
    requires chunk > 0 && offset <= size
    ensures forall i :: 0 <= i < |Plan(offset, size, chunk)| ==>
      Plan(offset, size, chunk)[i].Segment? && Plan(offset, size, chunk)[i].offset == offset + i * chunk
    decreases size - offset
  {
    if offset < size {
      var n := if size - offset > chunk then chunk else size - offset;
      PlanOffsets(offset + n, size, chunk);
      var rest := Plan(offset + n, size, chunk);
      var p := [Segment(offset, n)] + rest;
      if rest != [] {
        assert n == chunk;
        forall i | 1 <= i < |p|
          ensures p[i].Segment? && p[i].offset == offset + i * chunk
        {
          assert p[i] == rest[i - 1];
          assert rest[i - 1].Segment? && rest[i - 1].offset == offset + n + (i - 1) * chunk;
          assert (i - 1) * chunk + chunk == i * chunk;
        }
      }
    }
  }

  /**
   * All chunks but the last are full, the last ends at the file size, and
   * together they cover size - offset bytes.
   */
  lemma {:induction false} PlanContiguous(offset: nat, size: nat, chunk: nat)
    requires chunk > 0 && offset <= size
    ensures var p := Plan(offset, size, chunk);
      && (forall i :: 0 <= i < |p| - 1 ==> p[i].Segment? && p[i].len == chunk)
      && (p != [] ==> p[|p| - 1].Segment? && p[|p| - 1].offset + p[|p| - 1].len == size)
      && SegmentBytes(p) == size - offset
    decreases size - offset
  {
    if offset < size {
      var n := if size - offset > chunk then chunk else size - offset;
      PlanContiguous(offset + n, size, chunk);
      var rest := Plan(offset + n, size, chunk);
      var p := [Segment(offset, n)] + rest;
      assert p[1..] == rest;
      if rest != [] {
        assert n == chunk;
        assert forall i :: 1 <= i < |p| - 1 ==> p[i] == rest[i - 1];
        assert p[|p| - 1] == rest[|rest| - 1];
      }
    }
  }

  /** The file loop of handle_get_helper (src/httpd.c:329-336). */
  method SendFileByChunks(size: nat, chunk: nat) returns (replies: seq<Reply>)
    requires chunk > 0
    ensures replies == Chunks(Plan(0, size, chunk))
  {
    var offset: nat := 0;
    replies := [];
    ghost var done: seq<Data> := [];
    while offset < size
      invariant offset <= size
      invariant replies == Chunks(done)
      invariant done + Plan(offset, size, chunk) == Plan(0, size, chunk)
      decreases size - offset
    {
      var bytesLeft := size - offset;
      var bytesToRead := if bytesLeft > chunk then chunk else bytesLeft;
      PlanStep(done, offset, size, chunk, bytesToRead);
      replies := replies + [Chunk(Segment(offset, bytesToRead))];
      done := done + [Segment(offset, bytesToRead)];
      offset := offset + bytesToRead;
    }
  }

  /** One pass of the file loop: the next segment moves from the plan to what was sent. */
  lemma PlanStep(done: seq<Data>, offset: nat, size: nat, chunk: nat, n: nat)
    requires chunk > 0 && offset < size
    requires n == if size - offset > chunk then chunk else size - offset
    ensures Plan(offset, size, chunk) == [Segment(offset, n)] + Plan(offset + n, size, chunk)
    ensures Chunks(done + [Segment(offset, n)]) == Chunks(done) + [Chunk(Segment(offset, n))]
    ensures done + Plan(offset, size, chunk) == (done + [Segment(offset, n)]) + Plan(offset + n, size, chunk)
  {
  }

  // ---------------------------------------------------------------------
  // handle_get_helper

  /** What sprintf into the MAX_LINE_LEN-byte tmp buffer needs: every formatted line fits. */
  predicate ListingFits(t: Template, path: String, decoded: String, names: seq<String>) {
    && |Fill(t, decoded, path, TrailingSlash(path))| < MAX_LINE_LEN
    && forall n :: n in names ==> |Item(n)| < MAX_LINE_LEN
  }

  /** The replies for a listable directory: header, reply start, the page in chunks, reply end. */
  function DirectoryReplies(t: Template, path: String, decoded: String, names: seq<String>): seq<Reply> {
    [AddHeader("Content-Type", "text/html"), ReplyStart(HTTP_OK), Chunk(Text(Fill(t, decoded, path, TrailingSlash(path))))]
    + Chunks(Items(Listed(names))) + [Chunk(Text(LIST_CLOSE)), ReplyEnd]
  }

  /** The replies for a regular file: its guessed type, reply start, the file in chunks, reply end. */
  function FileReplies(decoded: String, size: nat, chunk: nat): seq<Reply>
    requires chunk > 0
  {
    [AddHeader("Content-Type", ContentTypeOf(decoded)), ReplyStart(HTTP_OK)] + Chunks(Plan(0, size, chunk)) + [ReplyEnd]
  }

  /** handle_get_helper's return value and replies. */
  function GetReplies(t: Template, path: String, decoded: String, node: Node, chunk: nat): (r: (int, seq<Reply>))
    requires chunk > 0
  {
    match node
    case Absent => (1, [SendError(HTTP_NOTFOUND)])
    case Folder(None) => (1, [SendError(HTTP_NOTFOUND)])
    case Folder(Some(names)) => (0, DirectoryReplies(t, path, decoded, names))
    case Document(opens, fstats, size) =>
      if opens && fstats then (0, FileReplies(decoded, size, chunk)) else (1, [SendError(HTTP_NOTFOUND)])
  }

  /** A chunked reply: the Content-Type header, a 200 reply start, chunks only, the reply end. */
  predicate Chunked(rs: seq<Reply>) {
    && |rs| >= 3 && rs[0].AddHeader? && rs[0].name == "Content-Type"
    && rs[1] == ReplyStart(HTTP_OK) && rs[|rs| - 1] == ReplyEnd
    && forall i :: 2 <= i < |rs| - 1 ==> rs[i].Chunk?
  }

  /**
   * A GET is answered 404 (and returns 1) exactly when stat, opendir, open
   * or fstat fails. Otherwise the reply is chunked.
   */
  lemma GetRepliesFramed(t: Template, path: String, decoded: String, node: Node, chunk: nat)
    requires chunk > 0
    ensures var (ret, rs) := GetReplies(t, path, decoded, node, chunk);
      && (ret == 1 <==> node.Absent? || node == Folder(None) || (node.Document? && !(node.opens && node.fstats)))
      && (ret == 1 ==> rs == [SendError(HTTP_NOTFOUND)])
      && (ret != 1 ==> ret == 0 && Chunked(rs))
  {
    match node
    case Document(opens, fstats, size) =>
      if opens && fstats {
        FileRepliesChunked(decoded, size, chunk);
      }
    case Folder(Some(names)) =>
      DirectoryRepliesChunked(t, path, decoded, names);
    case _ =>
  }

  /** A file goes out as a chunked reply. */
  lemma FileRepliesChunked(decoded: String, size: nat, chunk: nat)
    requires chunk > 0
    ensures Chunked(FileReplies(decoded, size, chunk))
  {
    var rs := FileReplies(decoded, size, chunk);
    assert forall i :: 2 <= i < |rs| - 1 ==> rs[i] == Chunks(Plan(0, size, chunk))[i - 2];
  }

  /** A listing goes out as a chunked reply. */
  lemma DirectoryRepliesChunked(t: Template, path: String, decoded: String, names: seq<String>)
    ensures Chunked(DirectoryReplies(t, path, decoded, names))
  {
    var rs := DirectoryReplies(t, path, decoded, names);
    var cs := Chunks(Items(Listed(names)));
    assert forall i :: 3 <= i < |rs| - 2 ==> rs[i] == cs[i - 3];
  }

  /**
   * A file is sent with the type guessed from the decoded path, and its
   * chunks carry it whole: size bytes in contiguous segments from offset 0.
   */
  lemma FileChunksCover(decoded: String, size: nat, chunk: nat)
    requires chunk > 0
    ensures var rs := FileReplies(decoded, size, chunk);
      var p := Plan(0, size, chunk);
      && rs[0] == AddHeader("Content-Type", ContentTypeOf(decoded))
      && rs[2..|rs| - 1] == Chunks(p)
      && SegmentBytes(p) == size
      && (forall i :: 0 <= i < |p| ==> p[i].Segment? && 0 < p[i].len <= chunk)
      && (forall i :: 0 <= i < |p| ==> p[i].offset == i * chunk)
      && (forall i :: 0 <= i < |p| - 1 ==> p[i].len == chunk)
      && (p != [] ==> p[|p| - 1].offset + p[|p| - 1].len == size)
  {
    PlanSegments(0, size, chunk);
    PlanContiguous(0, size, chunk);
    PlanOffsets(0, size, chunk);
    var rs := FileReplies(decoded, size, chunk);
    assert rs[2..|rs| - 1] == Chunks(Plan(0, size, chunk));
  }

  /** A listing carries one item for every entry other than "." and "..", and no other. */
  lemma ListingItemsShown(t: Template, path: String, decoded: String, names: seq<String>)
    ensures var rs := DirectoryReplies(t, path, decoded, names);
      && |rs| == |Listed(names)| + 5
      && forall n :: n in names && !IsDot(n) <==> Chunk(Text(Item(n))) in rs[3..|rs| - 2]
  {
    var rs := DirectoryReplies(t, path, decoded, names);
    var ls := Listed(names);
    assert rs[3..|rs| - 2] == Chunks(Items(ls));
    forall n
      ensures n in names && !IsDot(n) <==> Chunk(Text(Item(n))) in Chunks(Items(ls))
    {
      if n in names && !IsDot(n) {
        var k :| 0 <= k < |ls| && ls[k] == n;
        assert Chunks(Items(ls))[k] == Chunk(Text(Item(n)));
      }
      if Chunk(Text(Item(n))) in Chunks(Items(ls)) {
        var k :| 0 <= k < |ls| && Chunks(Items(ls))[k] == Chunk(Text(Item(n)));
        ItemInjective(ls[k], n);
        assert ls[k] in ls;
      }
    }
  }

  /** Different names give different list items. */
  lemma ItemInjective(a: String, b: String)
    requires Item(a) == Item(b)
    ensures a == b
  {
    var pre: String := "    <li><a href=\"";
    var mid: String := "\">";
    var post: String := "</a>\n";
    assert Item(a) == pre + a + mid + a + post;
    assert |a| == |b|;
    assert a == Item(a)[|pre|..|pre| + |a|];
    assert b == Item(b)[|pre|..|pre| + |b|];
  }

  /** Items and chunks distribute over concatenation. */
  lemma ItemChunksAppend(a: seq<String>, b: seq<String>)
    ensures Chunks(Items(a + b)) == Chunks(Items(a)) + Chunks(Items(b))
  {
  }

  /** One readdir step: a dot entry leaves the chunks as they are, any other adds its item. */
  lemma ListingStep(names: seq<String>, i: nat, before: seq<Reply>, after: seq<Reply>)
    requires i < |names|
    requires before == Chunks(Items(Listed(names[..i])))
    requires after == if IsDot(names[i]) then before else before + [Chunk(Text(Item(names[i])))]
    ensures after == Chunks(Items(Listed(names[..i + 1])))
  {
    ListedStep(names, i);
    if !IsDot(names[i]) {
      ItemChunksAppend(Listed(names[..i]), [names[i]]);
    }
  }

  /** The readdir loop of handle_get_helper (src/httpd.c:293-300): one chunk per entry but "." and "..". */
  method SendListing(names: seq<String>) returns (replies: seq<Reply>)
    ensures replies == Chunks(Items(Listed(names)))
  {
    replies := [];
    var i := 0;
    while i < |names|
      invariant i <= |names|
      invariant replies == Chunks(Items(Listed(names[..i])))
    {
      var name := names[i];
      ghost var before := replies;
      if !EqualsIgnoreCase(name, ".") && !EqualsIgnoreCase(name, "..") {
        replies := replies + [Chunk(Text(Item(name)))];
      }
      ListingStep(names, i, before, replies);
      i := i + 1;
    }
    assert names[..i] == names;
  }

  /**
   * handle_get_helper (src/httpd.c:259-348) for the request path `path`, its
   * decoded form `decoded`, and what the filesystem reports for the whole
   * path; `chunk` is CHUNK_SIZE and `t` the HTML_BEFORE_BODY format.
   */
  method HandleGetHelper(t: Template, path: String, decoded: String, node: Node, chunk: nat)
    returns (ret: int, replies: seq<Reply>)
    requires chunk > 0
    requires node.Folder? && node.entries.Some? ==> ListingFits(t, path, decoded, node.entries.value)
    ensures (ret, replies) == GetReplies(t, path, decoded, node, chunk)
  {
    match node {
      case Absent =>
        return 1, [SendError(HTTP_NOTFOUND)];
      case Folder(entries) =>
        var slash := TrailingSlash(path);
        if entries.None? {
          return 1, [SendError(HTTP_NOTFOUND)];
        }
        var tmp := Fill(t, decoded, path, slash);
        var items := SendListing(entries.value);
        replies := [AddHeader("Content-Type", "text/html"), ReplyStart(HTTP_OK), Chunk(Text(tmp))] + items + [Chunk(Text(LIST_CLOSE)), ReplyEnd];
        ret := 0;
      case Document(opens, fstats, size) =>
        var contentType := GuessContentType(decoded);
        if !opens || !fstats {
          return 1, [SendError(HTTP_NOTFOUND)];
        }
        var chunks := SendFileByChunks(size, chunk);
        replies := [AddHeader("Content-Type", contentType), ReplyStart(HTTP_OK)] + chunks + [ReplyEnd];
        ret := 0;
    }
  }

  // ---------------------------------------------------------------------
  // handle_request_cb

  /** What handle_request_cb's callees may assume for a request the handler dispatches. */
  predicate RequestDefined(cmd: Command, u: Uri, t: Template, node: Node, chunk: nat,
                           fs: seq<RequestParser.Field>, body: String, fileOpened: bool) {
    && chunk > 0
    && (Admitted(u) && cmd == Get && node.Folder? && node.entries.Some? ==>
          ListingFits(t, UriPath(u), u.decoded.value, node.entries.value))
    && (Admitted(u) && cmd == Post ==>
          PostIngest.WalkHeaders(PostIngest.InitialHeaders(), fs).Some?
          && PostIngest.PostOutcome(fs, body, fileOpened) != PostIngest.Undefined)
  }

  /** The path under the document root the handler opens: the root, '/', the decoded path without its leading '/'. */
  function Relative(decoded: String): String {
    if |decoded| > 0 && decoded[0] == '/' then decoded[1..] else decoded
  }

  /**
   * handle_request_cb (src/httpd.c:350-429). `node` is what stat and the
   * rest report for the whole path, `allocates` whether its malloc succeeds,
   * `fs` and `body` the request's headers and input buffer, `fileOpened`
   * whether handle_post_helper's fopen succeeds. `wholePath` is the path
   * handed to a helper, `upload` what handle_post_helper stored.
   */
  method HandleRequestCb(cmd: Command, u: Uri, docroot: String, allocates: bool,
                         t: Template, node: Node, chunk: nat,
                         fs: seq<RequestParser.Field>, body: String, fileOpened: bool)
    returns (replies: seq<Reply>, wholePath: Option<String>, upload: Option<PostIngest.Body>)
    requires RequestDefined(cmd, u, t, node, chunk, fs, body, fileOpened)
    ensures cmd == OtherCommand ==> replies == [SendError(HTTP_BADMETHOD)] && wholePath == None
    ensures cmd != OtherCommand && u.BadUri? ==> replies == [SendError(HTTP_BADREQUEST)] && wholePath == None
    ensures cmd != OtherCommand && u.Parsed? && !(Admitted(u) && allocates) ==>
      replies == [SendError(HTTP_NOTFOUND)] && wholePath == None
    ensures wholePath.Some? <==> cmd != OtherCommand && Admitted(u) && allocates
    ensures wholePath.Some? ==>
      && wholePath.value == docroot + "/" + Relative(u.decoded.value)
      && !HasDotDot(Relative(u.decoded.value))
    ensures upload.Some? <==> wholePath.Some? && cmd == Post
    ensures upload.Some? ==>
      && upload.value == PostIngest.PostOutcome(fs, body, fileOpened)
      && replies == PostIngest.PostReplies(upload.value)
    ensures wholePath.Some? && cmd == Get ==>
      replies == GetReplies(t, UriPath(u), u.decoded.value, node, chunk).1
    ensures wholePath.Some? && cmd != Get && cmd != Post ==> replies == [SendError(HTTP_NOTIMPLEMENTED)]
  {
    wholePath, upload := None, None;
    var kind := CommandName(cmd);
    UnknownIsOther(cmd);
    if EqualsIgnoreCase(kind, "unknown") {
      return [SendError(HTTP_BADMETHOD)], wholePath, upload;
    }
    if u.BadUri? {
      return [SendError(HTTP_BADREQUEST)], wholePath, upload;
    }
    var path := UriPath(u);
    if u.decoded.None? || HasDotDot(u.decoded.value) || !allocates {
      return [SendError(HTTP_NOTFOUND)], wholePath, upload;
    }
    var decoded := u.decoded.value;
    var whole := RequestWholePath(docroot, decoded);
    RequestWholePathJoin(docroot, decoded);
    wholePath := Some(whole);
    if cmd == Post {
      var ret, stored, rs := PostIngest.HandlePostHelper(fs, body, 0, fileOpened);
      assert body[0..] == body;
      replies, upload := rs, Some(stored);
    } else if cmd == Get {
      var ret;
      ret, replies := HandleGetHelper(t, path, decoded, node, chunk);
    } else {
      replies := [SendError(HTTP_NOTIMPLEMENTED)];
    }
  }

  /** Only a command libevent does not name is refused as "unknown"; the others are all-capital names. */
  lemma UnknownIsOther(cmd: Command)
    ensures EqualsIgnoreCase(CommandName(cmd), "unknown") <==> cmd == OtherCommand
  {
    match cmd
    case Options => assert ToLower("OPTIONS"[0]) != ToLower("unknown"[0]);
    case Connect => assert ToLower("CONNECT"[0]) != ToLower("unknown"[0]);
    case _ =>
  }

  // ---------------------------------------------------------------------
  // send_document_cb

  /** The opening of send_document_cb's index page, with the path as base href. */
  function PageOpen(decoded: String, path: String): String {
    "<!DOCTYPE html>\n<html>\n <head>\n  <meta charset='utf-8'>\n  <title>" + decoded
    + "</title>\n  <base href='" + path + TrailingSlash(path)
    + "'>\n </head>\n <body>\n  <h1>" + decoded + "</h1>\n  <ul>\n"
  }

  /** The replies send_document_cb issues for an admitted GET, by what the filesystem reports. */
  function DocumentReplies(path: String, decoded: String, node: Node): seq<Reply> {
    match node
    case Absent => [SendError(HTTP_NOTFOUND)]
    case Folder(None) => [SendError(HTTP_NOTFOUND)]
    case Folder(Some(names)) =>
      [AddHeader("Content-Type", "text/html"),
       SendReply(HTTP_OK, [Text(PageOpen(decoded, path))] + Items(names) + [Text(LIST_CLOSE)])]
    case Document(opens, fstats, size) =>
      if opens && fstats then [AddHeader("Content-Type", ContentTypeOf(decoded)), SendReply(HTTP_OK, [Segment(0, size)])]
      else [SendError(HTTP_NOTFOUND)]
  }

  /** The readdir loop of send_document_cb (src/httpd.h:365-369): every entry, "." and ".." included. */
  method AddEntries(names: seq<String>) returns (items: seq<Data>)
    ensures |items| == |names|
    ensures forall i :: 0 <= i < |names| ==> items[i] == Text(Item(names[i]))
  {
    items := [];
    var i := 0;
    while i < |names|
      invariant i <= |names| && |items| == i
      invariant forall k :: 0 <= k < i ==> items[k] == Text(Item(names[k]))
    {
      items := items + [Text(Item(names[i]))];
      i := i + 1;
    }
  }

  /**
   * send_document_cb (src/httpd.h:280-410): anything but GET goes to
   * dump_request_cb, which answers 200 with no body; a GET is answered from
   * docroot + '/' + the decoded path, leading '/' kept.
   */
  method SendDocumentCb(cmd: Command, u: Uri, docroot: String, allocates: bool, node: Node)
    returns (replies: seq<Reply>, wholePath: Option<String>)
    ensures cmd != Get ==> replies == [SendReply(HTTP_OK, [])] && wholePath == None
    ensures cmd == Get && u.BadUri? ==> replies == [SendError(HTTP_BADREQUEST)] && wholePath == None
    ensures cmd == Get && u.Parsed? && !(Admitted(u) && allocates) ==>
      replies == [SendError(HTTP_NOTFOUND)] && wholePath == None
    ensures wholePath.Some? <==> cmd == Get && Admitted(u) && allocates
    ensures wholePath.Some? ==>
      && wholePath.value == docroot + "/" + u.decoded.value
      && replies == DocumentReplies(UriPath(u), u.decoded.value, node)
  {
    wholePath := None;
    if cmd != Get {
      return [SendReply(HTTP_OK, [])], wholePath;
    }
    if u.BadUri? {
      return [SendError(HTTP_BADREQUEST)], wholePath;
    }
    var path := UriPath(u);
    if u.decoded.None? || HasDotDot(u.decoded.value) || !allocates {
      return [SendError(HTTP_NOTFOUND)], wholePath;
    }
    var decoded := u.decoded.value;
    wholePath := Some(DocumentWholePath(docroot, decoded));
    match node {
      case Absent =>
        replies := [SendError(HTTP_NOTFOUND)];
      case Folder(entries) =>
        if entries.None? {
          return [SendError(HTTP_NOTFOUND)], wholePath;
        }
        var items := AddEntries(entries.value);
        assert items == Items(entries.value);
        var page := [Text(PageOpen(decoded, path))] + items + [Text(LIST_CLOSE)];
        replies := [AddHeader("Content-Type", "text/html"), SendReply(HTTP_OK, page)];
      case Document(opens, fstats, size) =>
        var contentType := GuessContentType(decoded);
        if !opens || !fstats {
          return [SendError(HTTP_NOTFOUND)], wholePath;
        }
        replies := [AddHeader("Content-Type", contentType), SendReply(HTTP_OK, [Segment(0, size)])];
    }
  }

  /**
   * The two generations list a directory alike except for the dot entries:
   * the newer one's items are the older one's with "." and ".." removed, and
   * a directory without them is listed the same by both.
   */
  lemma ListingsCompared(names: seq<String>)
    ensures forall d :: d in Items(Listed(names)) ==> d in Items(names)
    ensures (forall n :: n in names ==> !IsDot(n)) ==> Items(Listed(names)) == Items(names)
  {
    forall d | d in Items(Listed(names))
      ensures d in Items(names)
    {
      var k :| 0 <= k < |Listed(names)| && Items(Listed(names))[k] == d;
      var n := Listed(names)[k];
      assert n in Listed(names);
      var j :| 0 <= j < |names| && names[j] == n;
      assert Items(names)[j] == d;
    }
    if forall n :: n in names ==> !IsDot(n) {
      ListedWithoutDots(names);
    }
  }
}

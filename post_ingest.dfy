/**
 * POST uploads in the evhttp server: handle_post_helper (src/httpd.c:131-198).
 *
 * The handler first walks the request's header list. A Content-Type field
 * yields the multipart boundary, from which the opening and closing markers
 * are built in two 128-byte buffers with strncpy and strncat; a
 * Content-Length field yields the body length. It then reads the body line by
 * line, counting the bytes taken: a line holding "Content-Type:" makes it read
 * one more line (the blank line before the part's data) and estimate how many
 * data bytes follow; while that estimate is positive, each line goes to the
 * file and the count of its characters is subtracted, the last line losing its
 * final character. The loop runs until the bytes taken equal the body length.
 */
module PostIngest {
  import opened CString
  import opened LineFraming
  import opened Evhttp
  import RequestParser
  import MultipartUpload

  /** Size of bound_begin and bound_end. */
  const BOUND_SIZE: nat := 128

  // ---------------------------------------------------------------------
  // Fixed-size character buffers

  /** A buffer of `n` characters set to '\0', as `= {}` leaves it. */
  function Zeroed(n: nat): (r: String)
    ensures |r| == n && CStr(r) == []
  {
    var z := seq(n, i => '\0');
    assert n > 0 ==> z[0] == '\0';
    z
  }

  /**
   * strncpy(dst, src, n) when src holds at least n characters before its
   * terminator: the first n characters of dst are replaced and no terminator
   * is written.
   */
  function Strncpy(dst: String, src: String, n: nat): (r: String)
    requires n <= |CStr(src)| && n <= |dst|
    ensures |r| == |dst| && r[..n] == CStr(src)[..n] && r[n..] == dst[n..]
    ensures CStr(r) == CStr(src)[..n] + CStr(dst[n..])
  {
    var r := src[..n] + dst[n..];
    CStrAfterPrefix(src[..n], dst[n..]);
    r
  }

  /**
   * strncat(dst, src, n): at most n characters of src are appended to the
   * string in dst and a terminator follows them, all of which must fit in dst.
   */
  function Strncat(dst: String, src: String, n: nat): (r: String)
    requires |CStr(dst)| + Min(n, |CStr(src)|) < |dst|
    ensures |r| == |dst|
    ensures CStr(r) == CStr(dst) + CStr(src)[..Min(n, |CStr(src)|)]
  {
    var k := |CStr(dst)|;
    var m := Min(n, |CStr(src)|);
    var x := CStr(src)[..m];
    var z := ['\0'] + dst[k + m + 1..];
    assert NoNul(x) by {
      assert forall i :: 0 <= i < m ==> x[i] == CStr(src)[i];
    }
    assert CStr(z) == [] by {
      IndexFromAt(z, '\0', 0, 0);
    }
    var r := dst[..k] + x + z;
    CStrAfterPrefix(dst[..k] + x, z);
    r
  }

  function Min(a: nat, b: nat): nat {
    if a < b then a else b
  }

  /** The C string of a NUL-free prefix followed by more characters. */
  lemma CStrAfterPrefix(p: String, q: String)
    requires NoNul(p)
    ensures CStr(p + q) == p + CStr(q)
  {
    var s := p + q;
    var j := IndexFrom(q, '\0', 0);
    assert forall m :: 0 <= m < |p| ==> s[m] == p[m];
    assert forall m :: |p| <= m < |s| ==> s[m] == q[m - |p|];
    IndexFromAt(s, '\0', 0, |p| + j);
    assert s[..|p| + j] == p + q[..j];
  }

  // ---------------------------------------------------------------------
  // The header walk

  /** What the header walk keeps: the two marker buffers and the body length. */
  datatype PostHeaders = PostHeaders(boundBegin: String, boundEnd: String, contentLength: int)

  predicate Sized(st: PostHeaders) {
    |st.boundBegin| == BOUND_SIZE && |st.boundEnd| == BOUND_SIZE
  }

  /** Zeroed buffers and content_length 0. */
  function InitialHeaders(): (st: PostHeaders)
    ensures Sized(st)
  {
    PostHeaders(Zeroed(BOUND_SIZE), Zeroed(BOUND_SIZE), 0)
  }

  /**
   * The strncpy/strncat sequence for the boundary text `ptr`, or None when
   * one of the strncat calls would write past its buffer.
   */
  function SetBoundary(st: PostHeaders, ptr: String): (r: Option<PostHeaders>)
    requires Sized(st)
    ensures r.Some? ==> Sized(r.value) && r.value.contentLength == st.contentLength
  {
    var begin1 := Strncpy(st.boundBegin, "--", 2);
    if |CStr(begin1)| + |CStr(ptr)| >= BOUND_SIZE then None
    else
      var begin2 := Strncat(begin1, ptr, |CStr(ptr)|);
      var end1 := Strncpy(st.boundEnd, begin2, |CStr(begin2)|);
      if |CStr(begin2)| + 1 >= BOUND_SIZE || |CStr(end1)| + 3 >= BOUND_SIZE then None
      else Some(PostHeaders(Strncat(begin2, "\n", 1), Strncat(end1, "--\n", 3), st.contentLength))
  }

  /**
   * One header of the walk: Content-Type sets the markers from the text
   * after "boundary=" (None when there is no such text, where the source
   * would add 9 to a null pointer), Content-Length sets the length.
   */
  function ApplyPostField(st: PostHeaders, f: RequestParser.Field): (r: Option<PostHeaders>)
    requires Sized(st)
    ensures r.Some? ==> Sized(r.value)
  {
    if EqualsIgnoreCase(f.name, "Content-Type") then
      match Find(CStr(f.value), "boundary=", 0)
      case None => None
      case Some(k) => SetBoundary(st, CStr(f.value)[k + 9..])
    else if EqualsIgnoreCase(f.name, "Content-Length") then Some(st.(contentLength := Atoi(f.value)))
    else Some(st)
  }

  /** The whole walk, front to back; None when any step is undefined. */
  function WalkHeaders(st: PostHeaders, fs: seq<RequestParser.Field>): (r: Option<PostHeaders>)
    requires Sized(st)
    ensures r.Some? ==> Sized(r.value)
    decreases |fs|
  {
    if fs == [] then Some(st)
    else
      match ApplyPostField(st, fs[0])
      case None => None
      case Some(st1) => WalkHeaders(st1, fs[1..])
  }

  /** The header loop of handle_post_helper. */
  method ParsePostHeaders(fs: seq<RequestParser.Field>) returns (st: PostHeaders)
    requires WalkHeaders(InitialHeaders(), fs).Some?
    ensures WalkHeaders(InitialHeaders(), fs) == Some(st)
  {
    var boundBegin, boundEnd := Zeroed(BOUND_SIZE), Zeroed(BOUND_SIZE);
    var contentLength := 0;
    var i := 0;
    while i < |fs|
      invariant 0 <= i <= |fs| && |boundBegin| == BOUND_SIZE == |boundEnd|
      invariant WalkHeaders(InitialHeaders(), fs) == WalkHeaders(PostHeaders(boundBegin, boundEnd, contentLength), fs[i..])
    {
      var header := fs[i];
      WalkStep(PostHeaders(boundBegin, boundEnd, contentLength), fs, i);
      if EqualsIgnoreCase(header.name, "Content-Type") {
        var ptr := CStr(header.value)[Find(CStr(header.value), "boundary=", 0).value + 9..];
        boundBegin := Strncpy(boundBegin, "--", 2);
        boundBegin := Strncat(boundBegin, ptr, |CStr(ptr)|);
        boundEnd := Strncpy(boundEnd, boundBegin, |CStr(boundBegin)|);
        boundBegin := Strncat(boundBegin, "\n", 1);
        boundEnd := Strncat(boundEnd, "--\n", 3);
      } else if EqualsIgnoreCase(header.name, "Content-Length") {
        contentLength := Atoi(header.value);
      }
      i := i + 1;
    }
    st := PostHeaders(boundBegin, boundEnd, contentLength);
  }

  /** The walk from header `i` is the walk from `i + 1` after applying header `i`. */
  lemma WalkStep(st: PostHeaders, fs: seq<RequestParser.Field>, i: nat)
    requires Sized(st) && i < |fs| && WalkHeaders(st, fs[i..]).Some?
    ensures ApplyPostField(st, fs[i]).Some?
    ensures WalkHeaders(st, fs[i..]) == WalkHeaders(ApplyPostField(st, fs[i]).value, fs[i + 1..])
  {
    assert fs[i..][0] == fs[i] && fs[i..][1..] == fs[i + 1..];
  }

  /** The C string of a zeroed buffer, or of any tail of one, is empty. */
  lemma ZeroedTail(n: nat, k: nat)
    requires k <= n
    ensures CStr(Zeroed(n)[k..]) == []
  {
    var z := Zeroed(n)[k..];
    if z != [] {
      assert z[0] == '\0';
    }
  }

  /**
   * With freshly zeroed buffers, one boundary text `b` of at most 122
   * characters yields exactly the markers "--b\n" and "--b--\n" the
   * bufferevent server builds for the same boundary.
   */
  lemma SingleBoundary(st: PostHeaders, b: String)
    requires Sized(st) && CStr(st.boundBegin) == [] && st.boundBegin == st.boundEnd == Zeroed(BOUND_SIZE)
    requires NoNul(b) && |b| <= BOUND_SIZE - 6
    ensures SetBoundary(st, b).Some?
    ensures CStr(SetBoundary(st, b).value.boundBegin) == MultipartUpload.StartBoundary(b)
    ensures CStr(SetBoundary(st, b).value.boundEnd) == MultipartUpload.EndBoundary(b)
  {
    CStrNoNul(b);
    ZeroedTail(BOUND_SIZE, 2);
    var begin1 := Strncpy(st.boundBegin, "--", 2);
    assert CStr("--") == "--" by {
      CStrNoNul("--");
    }
    assert CStr(begin1) == "--";
    var begin2 := Strncat(begin1, b, |b|);
    assert CStr(begin2) == "--" + b;
    ZeroedTail(BOUND_SIZE, |b| + 2);
    var end1 := Strncpy(st.boundEnd, begin2, |CStr(begin2)|);
    assert CStr(end1) == "--" + b;
    CStrNoNul("\n");
    CStrNoNul("--\n");
    assert CStr(Strncat(begin2, "\n", 1)) == "--" + b + "\n";
    assert CStr(Strncat(end1, "--\n", 3)) == "--" + b + "--\n";
  }

  /** The body length the walk ends with: the last Content-Length field's value, or `length` when there is none. */
  function LengthAfter(length: int, fs: seq<RequestParser.Field>): int {
    match RequestParser.LastValue(fs, "Content-Length")
    case None => length
    case Some(v) => Atoi(v)
  }

  /**
   * content_length is set by the last Content-Length field (names compared
   * ignoring case); Content-Type fields leave it alone.
   */
  lemma {:induction false} WalkLength(st: PostHeaders, fs: seq<RequestParser.Field>)
    requires Sized(st) && WalkHeaders(st, fs).Some?
    ensures WalkHeaders(st, fs).value.contentLength == LengthAfter(st.contentLength, fs)
    decreases |fs|
  {
    if fs != [] {
      var st1 := ApplyPostField(st, fs[0]).value;
      RequestParser.KnownNamesDistinct(fs[0].name);
      assert st1.contentLength == if EqualsIgnoreCase(fs[0].name, "Content-Length") then Atoi(fs[0].value) else st.contentLength;
      WalkLength(st1, fs[1..]);
    }
  }

  /**
   * Fields other than Content-Type leave the marker buffers alone: walking
   * them first is walking the rest with only the length updated.
   */
  lemma {:induction false} WalkPlain(st: PostHeaders, fs: seq<RequestParser.Field>, more: seq<RequestParser.Field>)
    requires Sized(st)
    requires forall i :: 0 <= i < |fs| ==> !EqualsIgnoreCase(fs[i].name, "Content-Type")
    ensures WalkHeaders(st, fs + more) == WalkHeaders(st.(contentLength := LengthAfter(st.contentLength, fs)), more)
    decreases |fs|
  {
    if fs == [] {
      assert fs + more == more;
    } else {
      var f := fs[0];
      assert (fs + more)[0] == f && (fs + more)[1..] == fs[1..] + more;
      RequestParser.KnownNamesDistinct(f.name);
      var st1 := if EqualsIgnoreCase(f.name, "Content-Length") then st.(contentLength := Atoi(f.value)) else st;
      assert ApplyPostField(st, f) == Some(st1);
      WalkPlain(st1, fs[1..], more);
      assert LengthAfter(st1.contentLength, fs[1..]) == LengthAfter(st.contentLength, fs) by {
        assert forall i :: 0 <= i < |fs[1..]| ==> fs[1..][i] == fs[i + 1];
      }
    }
  }

  lemma ThreeParts(pre: seq<RequestParser.Field>, ct: RequestParser.Field, post: seq<RequestParser.Field>)
    ensures pre + [ct] + post == pre + ([ct] + post)
    ensures ([ct] + post)[0] == ct && ([ct] + post)[1..] == post && post + [] == post
  {
  }

  /** A Content-Type field whose value holds "boundary=" at `k` sets the markers from the text after it. */
  lemma ApplyContentType(st: PostHeaders, f: RequestParser.Field, k: nat)
    requires Sized(st) && EqualsIgnoreCase(f.name, "Content-Type") && NoNul(f.value)
    requires Find(f.value, "boundary=", 0) == Some(k)
    ensures NoNul(f.value[k + 9..])
    ensures ApplyPostField(st, f) == SetBoundary(st, f.value[k + 9..])
  {
    CStrNoNul(f.value);
    TailNoNul(f.value, k + 9);
  }

  lemma TailNoNul(s: String, k: nat)
    requires NoNul(s) && k <= |s|
    ensures NoNul(s[k..])
  {
    assert forall i :: 0 <= i < |s| - k ==> s[k..][i] == s[k + i];
  }

  /**
   * Headers with exactly one Content-Type field, whose value holds
   * "boundary=" followed by `b`: the walk succeeds with the markers
   * "--b\n" and "--b--\n" and the last Content-Length.
   */
  lemma UploadHeaders(pre: seq<RequestParser.Field>, ct: RequestParser.Field, post: seq<RequestParser.Field>, k: nat)
    requires forall i :: 0 <= i < |pre| ==> !EqualsIgnoreCase(pre[i].name, "Content-Type")
    requires forall i :: 0 <= i < |post| ==> !EqualsIgnoreCase(post[i].name, "Content-Type")
    requires EqualsIgnoreCase(ct.name, "Content-Type") && NoNul(ct.value)
    requires Find(ct.value, "boundary=", 0) == Some(k) && |ct.value| - (k + 9) <= BOUND_SIZE - 6
    ensures var fs := pre + [ct] + post;
      && WalkHeaders(InitialHeaders(), fs).Some?
      && CStr(WalkHeaders(InitialHeaders(), fs).value.boundBegin) == MultipartUpload.StartBoundary(ct.value[k + 9..])
      && CStr(WalkHeaders(InitialHeaders(), fs).value.boundEnd) == MultipartUpload.EndBoundary(ct.value[k + 9..])
      && WalkHeaders(InitialHeaders(), fs).value.contentLength == LengthAfter(0, fs)
  {
    var fs := pre + [ct] + post;
    var b := ct.value[k + 9..];
    var st0 := InitialHeaders();
    ThreeParts(pre, ct, post);
    WalkPlain(st0, pre, [ct] + post);
    var st1 := st0.(contentLength := LengthAfter(0, pre));
    ZeroedTail(BOUND_SIZE, 0);
    ApplyContentType(st1, ct, k);
    SingleBoundary(st1, b);
    var st2 := SetBoundary(st1, b).value;
    WalkPlain(st2, post, []);
    WalkLength(st0, fs);
  }

  // ---------------------------------------------------------------------
  // The body loop

  /**
   * How the upload ends: the handler could not open the file, it stored
   * `file` and replied, it keeps waiting for bytes that never come with
   * `file` written so far, or it writes before the start of cbuf.
   */
  datatype Body = Refused | Saved(file: String) | Stalled(file: String) | Undefined

  /** The frames successive get_line_from_evbuffer calls return until the buffer is empty. */
  function Frames(s: String): (fs: seq<Frame>)
    ensures forall i :: 0 <= i < |fs| ==> 1 <= fs[i].consumed
    decreases |s|
  {
    if s == [] then []
    else
      var f := FramedLine(s);
      [f] + Frames(s[f.consumed..])
  }

  /** One read: at the end of the buffer it takes nothing, otherwise the next frame. */
  lemma ReadFrame(input: String, cur: nat, line: String, next: nat)
    requires cur <= |input|
    requires line == FramedLine(input[cur..]).line && next == cur + FramedLine(input[cur..]).consumed
    ensures next <= |input|
    ensures cur == |input| ==> next == cur && line == [] && Frames(input[cur..]) == []
    ensures cur < |input| ==> Frames(input[cur..]) != [] && Frames(input[cur..])[0] == Frame(line, next - cur)
    ensures cur < |input| ==> Frames(input[cur..])[1..] == Frames(input[next..])
  {
    if cur < |input| {
      var s := input[cur..];
      assert s[next - cur..] == input[next..];
      var fs := Frames(input[next..]);
      assert Frames(s) == [FramedLine(s)] + fs;
      assert ([FramedLine(s)] + fs)[1..] == fs;
    }
  }

  /**
   * The body loop from the state (frames still to be read `fs`, bytes taken
   * `total`, estimate `dataLeft`, file so far). The loop test is total !=
   * content_length; once the buffer is empty every read returns 0.
   */
  function Ingest(fs: seq<Frame>, length: int, total: int, dataLeft: int, endLen: nat, file: String): (r: Body)
    ensures r.Saved? || r.Stalled? || r.Undefined?
    decreases |fs|
  {
    if total == length then Saved(file)
    else if fs == [] then (if dataLeft > 0 then Undefined else Stalled(file))
    else
      var c := CStr(fs[0].line);
      var t := total + fs[0].consumed;
      if dataLeft > 0 then
        var d := dataLeft - |c|;
        var w := if d < 0 then c[..|c| - 1] else c;
        if w == [] then Undefined
        else Ingest(fs[1..], length, t, d, endLen, file + w)
      else if Contains(c, "Content-Type:") then
        if |fs| == 1 then Ingest([], length, t, length - t - endLen - 3, endLen, file)
        else
          var t2 := t + fs[1].consumed;
          Ingest(fs[2..], length, t2, length - t2 - endLen - 3, endLen, file)
      else Ingest(fs[1..], length, t, dataLeft, endLen, file)
  }

  /** The outcome of handle_post_helper for headers `fs` and body bytes `s`. */
  function PostOutcome(fs: seq<RequestParser.Field>, s: String, fileOpened: bool): (r: Body)
    requires WalkHeaders(InitialHeaders(), fs).Some?
  {
    var st := WalkHeaders(InitialHeaders(), fs).value;
    if !fileOpened then Refused
    else Ingest(Frames(s), st.contentLength, 0, -1, |CStr(st.boundEnd)|, [])
  }

  /** What the client receives: 500 when the file could not be opened, 200 once stored, nothing while stalled. */
  function PostReplies(b: Body): (rs: seq<Reply>)
    ensures b.Refused? <==> rs == [SendError(HTTP_INTERNAL)]
    ensures b.Saved? <==> rs == [SendReply(HTTP_OK, [])]
  {
    match b
    case Refused => [SendError(HTTP_INTERNAL)]
    case Saved(_) => [SendReply(HTTP_OK, [])]
    case _ => []
  }

  /**
   * handle_post_helper: the header walk, fopen (its success is
   * `fileOpened`), then the body loop over the request's input buffer
   * `input[pos..]`. `ret` is -1 when the file could not be opened and 0 once
   * the upload is stored.
   */
  method HandlePostHelper(fs: seq<RequestParser.Field>, input: String, pos: nat, fileOpened: bool)
    returns (ret: int, body: Body, replies: seq<Reply>)
    requires pos <= |input|
    requires WalkHeaders(InitialHeaders(), fs).Some?
    requires PostOutcome(fs, input[pos..], fileOpened) != Undefined
    ensures body == PostOutcome(fs, input[pos..], fileOpened)
    ensures replies == PostReplies(body)
    ensures ret == -1 <==> body.Refused?
    ensures body.Saved? ==> ret == 0
  {
    var st := ParsePostHeaders(fs);
    if !fileOpened {
      return -1, Refused, [SendError(HTTP_INTERNAL)];
    }
    var endLen := |CStr(st.boundEnd)|;
    body := ReadBody(input, pos, st.contentLength, endLen);
    if body.Saved? {
      replies := [SendReply(HTTP_OK, [])];
    } else {
      replies := [];
    }
    ret := 0;
  }

  /** The while loop of handle_post_helper, stopping where the source would wait forever. */
  method ReadBody(input: String, pos: nat, contentLength: int, endLen: nat) returns (body: Body)
    requires pos <= |input|
    requires Ingest(Frames(input[pos..]), contentLength, 0, -1, endLen, []) != Undefined
    ensures body == Ingest(Frames(input[pos..]), contentLength, 0, -1, endLen, [])
  {
    var cur, total, dataLeft, file := pos, 0, -1, [];
    ghost var goal := Ingest(Frames(input[pos..]), contentLength, 0, -1, endLen, []);
    ghost var rest := Frames(input[pos..]);
    while total != contentLength
      invariant pos <= cur <= |input| && rest == Frames(input[cur..])
      invariant Ingest(rest, contentLength, total, dataLeft, endLen, file) == goal
      decreases |input| - cur
    {
      if cur == |input| && dataLeft <= 0 {
        // every further read returns 0 and changes nothing
        return Stalled(file);
      }
      ghost var (fs, total0, dataLeft0, file0) := (rest, total, dataLeft, file);
      var cbuf, received, next := GetLineFromEvbuffer(input, cur);
      ReadFrame(input, cur, cbuf, next);
      var c := CStr(cbuf);
      cur := next;
      total := total + received;
      rest := rest[1..];
      if dataLeft > 0 {
        dataLeft := dataLeft - |c|;
        if dataLeft < 0 {
          c := c[..|c| - 1];
        }
        file := file + c;
        DataTurn(fs, contentLength, endLen, total0, dataLeft0, file0, CStr(cbuf), rest, total, dataLeft, file);
        continue;
      }
      if Contains(c, "Content-Type:") {
        var skipped, more, after := GetLineFromEvbuffer(input, cur);
        ReadFrame(input, cur, skipped, after);
        cur := after;
        total := total + more;
        dataLeft := contentLength - total - endLen - 3;
        rest := if rest == [] then [] else rest[1..];
        HeaderTurn(fs, contentLength, endLen, total0, dataLeft0, file, c, rest, total, dataLeft);
      } else {
        OtherTurn(fs, contentLength, endLen, total0, dataLeft0, file, c, rest, total);
      }
    }
    body := Saved(file);
  }

  /** A turn of the body loop in data mode: the line, cut by one character where the estimate runs out, is written. */
  lemma DataTurn(fs: seq<Frame>, length: int, endLen: nat, total: int, dataLeft: int, file: String, c: String,
                 fs': seq<Frame>, total': int, dataLeft': int, file': String)
    requires fs != [] && total != length && dataLeft > 0 && c == CStr(fs[0].line)
    requires Ingest(fs, length, total, dataLeft, endLen, file) != Undefined
    requires fs' == fs[1..] && total' == total + fs[0].consumed && dataLeft' == dataLeft - |c|
    requires file' == file + (if dataLeft' < 0 then c[..|c| - 1] else c)
    ensures Ingest(fs, length, total, dataLeft, endLen, file) == Ingest(fs', length, total', dataLeft', endLen, file')
  {
  }

  /** A data turn whose written text is known not to be empty. */
  lemma DataWrite(fs: seq<Frame>, length: int, endLen: nat, total: int, dataLeft: int, file: String, c: String,
                  fs': seq<Frame>, total': int, dataLeft': int, file': String)
    requires fs != [] && total != length && dataLeft > 0 && c == CStr(fs[0].line)
    requires fs' == fs[1..] && total' == total + fs[0].consumed && dataLeft' == dataLeft - |c|
    requires (if dataLeft' < 0 then c[..|c| - 1] else c) != []
    requires file' == file + (if dataLeft' < 0 then c[..|c| - 1] else c)
    ensures Ingest(fs, length, total, dataLeft, endLen, file) == Ingest(fs', length, total', dataLeft', endLen, file')
  {
  }

  /**
   * A turn on a line holding "Content-Type:": one more frame is taken (none
   * at the end of the buffer) and the estimate is set.
   */
  lemma HeaderTurn(fs: seq<Frame>, length: int, endLen: nat, total: int, dataLeft: int, file: String, c: String,
                   fs': seq<Frame>, total': int, dataLeft': int)
    requires fs != [] && total != length && dataLeft <= 0 && c == CStr(fs[0].line)
    requires Contains(c, "Content-Type:")
    requires fs' == (if |fs| == 1 then [] else fs[2..])
    requires total' == total + fs[0].consumed + (if |fs| == 1 then 0 else fs[1].consumed)
    requires dataLeft' == length - total' - endLen - 3
    ensures Ingest(fs, length, total, dataLeft, endLen, file) == Ingest(fs', length, total', dataLeft', endLen, file)
  {
  }

  /** A turn on any other line: only the count moves. */
  lemma OtherTurn(fs: seq<Frame>, length: int, endLen: nat, total: int, dataLeft: int, file: String, c: String,
                  fs': seq<Frame>, total': int)
    requires fs != [] && total != length && dataLeft <= 0 && c == CStr(fs[0].line)
    requires !Contains(c, "Content-Type:")
    requires fs' == fs[1..] && total' == total + fs[0].consumed
    ensures Ingest(fs, length, total, dataLeft, endLen, file) == Ingest(fs', length, total', dataLeft, endLen, file)
  {
  }

  // ---------------------------------------------------------------------
  // What the loop stores for a well-formed multipart body

  /** A line a client ends with "\r\n": no '\n', '\r' or NUL in it, and room for both bytes within the cap. */
  predicate CrlfText(l: String) {
    |l| + 2 <= LINE_CAP && NoNul(l) && forall m :: 0 <= m < |l| ==> l[m] != '\n' && l[m] != '\r'
  }

  /** Lines on the wire, each followed by "\r\n". */
  function Wire(ls: seq<String>): String {
    if ls == [] then [] else ls[0] + "\r\n" + Wire(ls[1..])
  }

  /** A CRLF line is one frame: the text with a single '\n', both bytes consumed. */
  lemma FramesCrlf(l: String, rest: String)
    requires CrlfText(l)
    ensures Frames(l + "\r\n" + rest) == [Frame(l + "\n", |l| + 2)] + Frames(rest)
    ensures CStr(l + "\n") == l + "\n"
  {
    FramedCrlfLine(l, rest);
    var s := l + "\r\n" + rest;
    assert s[|l| + 2..] == rest;
    assert NoNul(l + "\n") by {
      assert forall m :: 0 <= m < |l| ==> (l + "\n")[m] == l[m];
    }
    CStrNoNul(l + "\n");
  }

  /** A line ending in a bare '\n' is one frame, taken as it is. */
  lemma FramesSimple(l: String, rest: String)
    requires SimpleLine(l) && NoNul(l)
    ensures Frames(l + rest) == [Frame(l, |l|)] + Frames(rest)
    ensures CStr(l) == l
  {
    FramedSimpleLine(l, rest);
    assert (l + rest)[|l|..] == rest;
    CStrNoNul(l);
  }

  /** Lines without "Content-Type:" before the part header only move the count. */
  lemma {:induction false} PreamblePhase(ps: seq<String>, rest: String, length: int, total: int, dataLeft: int,
                                         endLen: nat, file: String, total': int)
    requires forall i :: 0 <= i < |ps| ==> CrlfText(ps[i]) && !Contains(ps[i] + "\n", "Content-Type:")
    requires dataLeft <= 0 && total' == total + |Wire(ps)| && total' <= length
    ensures Ingest(Frames(Wire(ps) + rest), length, total, dataLeft, endLen, file)
      == Ingest(Frames(rest), length, total', dataLeft, endLen, file)
    decreases |ps|
  {
    if ps == [] {
      assert Wire(ps) + rest == rest;
    } else {
      var p := ps[0];
      var tail := Wire(ps[1..]) + rest;
      assert Wire(ps) + rest == p + "\r\n" + tail;
      FramesCrlf(p, tail);
      var fs := Frames(Wire(ps) + rest);
      var t := total + |p| + 2;
      OtherTurn(fs, length, endLen, total, dataLeft, file, p + "\n", Frames(tail), t);
      PreamblePhase(ps[1..], rest, length, t, dataLeft, endLen, file, total');
    }
  }

  /**
   * The part header line holding "Content-Type:" and the blank line after
   * it: the data estimate becomes what is left of the body minus the closing
   * marker and the three bytes around it.
   */
  lemma HeaderPhase(l: String, rest: String, length: int, total: int, dataLeft: int, endLen: nat, file: String,
                    total': int, dataLeft': int)
    requires CrlfText(l) && Contains(l + "\n", "Content-Type:")
    requires dataLeft <= 0 && total < length
    requires total' == total + |l| + 4 && dataLeft' == length - total' - endLen - 3
    ensures Ingest(Frames(l + "\r\n" + ("\r\n" + rest)), length, total, dataLeft, endLen, file)
      == Ingest(Frames(rest), length, total', dataLeft', endLen, file)
  {
    HeaderFrames(l, rest);
    var fs := Frames(l + "\r\n" + ("\r\n" + rest));
    HeaderTurn(fs, length, endLen, total, dataLeft, file, l + "\n", Frames(rest), total', dataLeft');
  }

  /** A CRLF line followed by the blank line: two frames, the second a bare "\n". */
  lemma HeaderFrames(l: String, rest: String)
    requires CrlfText(l)
    ensures var fs := Frames(l + "\r\n" + ("\r\n" + rest));
      && |fs| > 1 && fs[0] == Frame(l + "\n", |l| + 2) && CStr(fs[0].line) == l + "\n"
      && fs[1] == Frame("\n", 2) && fs[2..] == Frames(rest)
  {
    var blank := "\r\n" + rest;
    FramesCrlf(l, blank);
    BlankFrames(rest);
    var fs := Frames(l + "\r\n" + blank);
    assert fs == [Frame(l + "\n", |l| + 2)] + ([Frame("\n", 2)] + Frames(rest));
  }

  /** The blank line "\r\n" is one frame holding "\n". */
  lemma BlankFrames(rest: String)
    ensures Frames("\r\n" + rest) == [Frame("\n", 2)] + Frames(rest)
  {
    var s := "\r\n" + rest;
    FramedCrlfLine([], rest);
    assert [] + "\r\n" + rest == s;
    assert FramedLine(s) == Frame("\n", 2);
    assert s[2..] == rest;
    assert Frames(s) == [FramedLine(s)] + Frames(s[2..]);
  }

  /** A data line ending in a bare '\n' that the estimate covers is written whole. */
  lemma DataLine(l: String, tail: String, s: String, length: int, total: int, dataLeft: int, endLen: nat,
                 file: String, total': int, dataLeft': int, file': String)
    requires SimpleLine(l) && NoNul(l) && s == l + tail && dataLeft > |l| && total != length
    requires total' == total + |l| && dataLeft' == dataLeft - |l| && file' == file + l
    ensures Ingest(Frames(s), length, total, dataLeft, endLen, file)
      == Ingest(Frames(tail), length, total', dataLeft', endLen, file')
  {
    FramesSimple(l, tail);
    DataWrite(Frames(s), length, endLen, total, dataLeft, file, l, Frames(tail), total', dataLeft', file');
  }

  /** The last data line, ended by "\r\n": the estimate runs out by one and the '\n' is cut off. */
  lemma DataLast(last: String, rest: String, length: int, total: int, endLen: nat, file: String,
                 total': int, file': String)
    requires CrlfText(last) && last != [] && total != length
    requires total' == total + |last| + 2 && file' == file + last
    ensures Ingest(Frames(last + "\r\n" + rest), length, total, |last|, endLen, file)
      == Ingest(Frames(rest), length, total', -1, endLen, file')
  {
    FramesCrlf(last, rest);
    assert (last + "\n")[..|last|] == last;
    DataWrite(Frames(last + "\r\n" + rest), length, endLen, total, |last|, file, last + "\n", Frames(rest), total', -1, file');
  }

  /** Joined lines, split after the first one. */
  lemma ConcatFront(ls: seq<String>, after: String)
    requires ls != []
    ensures Concat(ls) == ls[0] + Concat(ls[1..])
    ensures Concat(ls) + after == ls[0] + (Concat(ls[1..]) + after)
  {
    ConcatSplit([ls[0]], ls[1..]);
    assert [ls[0]] + ls[1..] == ls;
    assert Concat([ls[0]]) == ls[0] by {
      assert [ls[0]][..0] == [];
    }
  }

  /**
   * Data lines ending in a bare '\n', read while the estimate still covers
   * more than them: each is written whole and the estimate drops by its
   * length.
   */
  lemma {:induction false} DataLines(ls: seq<String>, tail: String, s: String, length: int, total: int,
                                     dataLeft: int, extra: int, endLen: nat, file: String, total': int, file': String)
    requires forall i :: 0 <= i < |ls| ==> SimpleLine(ls[i]) && NoNul(ls[i])
    requires s == Concat(ls) + tail && dataLeft == |Concat(ls)| + extra && extra > 0
    requires total' == total + |Concat(ls)| && total' <= length && file' == file + Concat(ls)
    ensures Ingest(Frames(s), length, total, dataLeft, endLen, file)
      == Ingest(Frames(tail), length, total', extra, endLen, file')
    decreases |ls|
  {
    if ls == [] {
      assert Concat(ls) == [];
      assert s == tail && file' == file && total' == total;
    } else {
      var l, more := ls[0], Concat(ls[1..]);
      ConcatFront(ls, tail);
      var t, d, f := total + |l|, |more| + extra, file + l;
      DataLine(l, more + tail, s, length, total, dataLeft, endLen, file, t, d, f);
      assert file' == f + more && total' == t + |more|;
      DataLines(ls[1..], tail, more + tail, length, t, d, extra, endLen, f, total', file');
    }
  }

  /** The closing marker line, read outside the data: the count reaches the body length and the file is stored. */
  lemma EndPhase(e: String, length: int, total: int, dataLeft: int, endLen: nat, file: String)
    requires CrlfText(e) && !Contains(e + "\n", "Content-Type:")
    requires total + |e| + 2 == length && dataLeft <= 0
    ensures Ingest(Frames(e + "\r\n"), length, total, dataLeft, endLen, file) == Saved(file)
  {
    assert e + "\r\n" == e + "\r\n" + [];
    FramesCrlf(e, []);
    var fs := Frames(e + "\r\n");
    OtherTurn(fs, length, endLen, total, dataLeft, file, e + "\n", [], length);
  }

  /**
   * A single-part body as a client sends it: preamble lines, the part
   * header holding "Content-Type:", a blank line, the data, "\r\n" and the
   * closing marker line `e`.
   */
  function UploadBody(ps: seq<String>, l: String, ls: seq<String>, last: String, e: String): String {
    Wire(ps) + (l + "\r\n" + ("\r\n" + (Concat(ls) + (last + "\r\n" + (e + "\r\n")))))
  }

  /**
   * The shape UploadBody expects: CRLF lines that fit the line buffer, no
   * "Content-Type:" outside the part header, data lines ending in a bare
   * '\n' and a non-empty last data line.
   */
  predicate UploadShape(ps: seq<String>, l: String, ls: seq<String>, last: String, e: String) {
    && (forall i :: 0 <= i < |ps| ==> CrlfText(ps[i]) && !Contains(ps[i] + "\n", "Content-Type:"))
    && CrlfText(l) && Contains(l + "\n", "Content-Type:")
    && (forall i :: 0 <= i < |ls| ==> SimpleLine(ls[i]) && NoNul(ls[i]))
    && CrlfText(last) && last != []
    && CrlfText(e) && !Contains(e + "\n", "Content-Type:")
  }

  /** The preamble, the part header and the blank line: the loop reaches the data with its estimate set. */
  lemma PartHead(ps: seq<String>, l: String, rest: String, s: String, n: int, endLen: nat, total': int, dataLeft': int)
    requires forall i :: 0 <= i < |ps| ==> CrlfText(ps[i]) && !Contains(ps[i] + "\n", "Content-Type:")
    requires CrlfText(l) && Contains(l + "\n", "Content-Type:")
    requires s == Wire(ps) + (l + "\r\n" + ("\r\n" + rest)) && n == |s|
    requires total' == |Wire(ps)| + |l| + 4 && dataLeft' == n - total' - endLen - 3
    ensures Ingest(Frames(s), n, 0, -1, endLen, []) == Ingest(Frames(rest), n, total', dataLeft', endLen, [])
  {
    var s1 := l + "\r\n" + ("\r\n" + rest);
    var t1 := |Wire(ps)|;
    PreamblePhase(ps, s1, n, 0, -1, endLen, [], t1);
    HeaderPhase(l, rest, n, t1, -1, endLen, [], total', dataLeft');
  }

  /**
   * The round trip of the upload loop: when the body length is the
   * Content-Length and the closing marker is one byte shorter than the end
   * marker's length ("--b--" against "--b--\n"), the stored file is exactly
   * the part's data, without the line end that belongs to the marker.
   */
  lemma UploadStored(ps: seq<String>, l: String, ls: seq<String>, last: String, e: String, endLen: nat)
    requires UploadShape(ps, l, ls, last, e) && endLen == |e| + 1
    ensures var s := UploadBody(ps, l, ls, last, e);
      Ingest(Frames(s), |s|, 0, -1, endLen, []) == Saved(Concat(ls) + last)
  {
    var s4 := e + "\r\n";
    var s3 := last + "\r\n" + s4;
    var s2 := Concat(ls) + s3;
    var s := UploadBody(ps, l, ls, last, e);
    var n := |s|;
    var t2 := |Wire(ps)| + |l| + 4;
    var d2 := n - t2 - endLen - 3;
    PartHead(ps, l, s2, s, n, endLen, t2, d2);
    var t3 := t2 + |Concat(ls)|;
    DataLines(ls, s3, s2, n, t2, d2, |last|, endLen, [], t3, Concat(ls));
    var t4 := t3 + |last| + 2;
    DataLast(last, s4, n, t3, endLen, Concat(ls), t4, Concat(ls) + last);
    EndPhase(e, n, t4, -1, endLen, Concat(ls) + last);
  }

  /**
   * handle_post_helper end to end: headers with one Content-Type naming the
   * boundary `b` and a Content-Length equal to the body's length, and a body
   * whose closing marker is "--b--": the file holds the part's data and the
   * client is answered 200.
   */
  lemma PostUpload(pre: seq<RequestParser.Field>, ct: RequestParser.Field, post: seq<RequestParser.Field>, k: nat,
                   ps: seq<String>, l: String, ls: seq<String>, last: String)
    requires forall i :: 0 <= i < |pre| ==> !EqualsIgnoreCase(pre[i].name, "Content-Type")
    requires forall i :: 0 <= i < |post| ==> !EqualsIgnoreCase(post[i].name, "Content-Type")
    requires EqualsIgnoreCase(ct.name, "Content-Type") && NoNul(ct.value)
    requires Find(ct.value, "boundary=", 0) == Some(k) && |ct.value| - (k + 9) <= BOUND_SIZE - 6
    requires UploadShape(ps, l, ls, last, "--" + ct.value[k + 9..] + "--")
    requires LengthAfter(0, pre + [ct] + post) == |UploadBody(ps, l, ls, last, "--" + ct.value[k + 9..] + "--")|
    ensures var fs, body := pre + [ct] + post, UploadBody(ps, l, ls, last, "--" + ct.value[k + 9..] + "--");
      && WalkHeaders(InitialHeaders(), fs).Some?
      && PostOutcome(fs, body, true) == Saved(Concat(ls) + last)
      && PostReplies(PostOutcome(fs, body, true)) == [SendReply(HTTP_OK, [])]
  {
    var b := ct.value[k + 9..];
    UploadHeaders(pre, ct, post, k);
    assert |MultipartUpload.EndBoundary(b)| == |b| + 5;
    UploadStored(ps, l, ls, last, "--" + b + "--", |b| + 5);
  }

  // ---------------------------------------------------------------------
  // Data lines ended by "\r\n"

  /**
   * A data line ended by "\r\n" that the estimate covers: the line is
   * written with a single '\n', while the estimate drops by one byte less
   * than the two consumed.
   */
  lemma CrlfDataLine(l: String, tail: String, s: String, length: int, total: int, dataLeft: int, endLen: nat,
                     file: String, total': int, dataLeft': int, file': String)
    requires CrlfText(l) && s == l + "\r\n" + tail && total != length
    requires total' == total + |l| + 2 && dataLeft' == dataLeft - |l| - 1 && dataLeft' >= 0
    requires file' == file + (l + "\n")
    ensures Ingest(Frames(s), length, total, dataLeft, endLen, file)
      == Ingest(Frames(tail), length, total', dataLeft', endLen, file')
  {
    FramesCrlf(l, tail);
    DataWrite(Frames(s), length, endLen, total, dataLeft, file, l + "\n", Frames(tail), total', dataLeft', file');
  }

  /** The body of a single part whose data lines `ds` end in "\r\n", the last one by the delimiter's. */
  function CrlfUploadBody(ps: seq<String>, l: String, ds: seq<String>, e: String): String {
    Wire(ps) + (l + "\r\n" + ("\r\n" + (Wire(ds) + (e + "\r\n"))))
  }

  /**
   * Data of two lines separated by "\r\n": the estimate is the data's length,
   * but each read counts one byte less than it consumes, so the second line
   * is written with a '\n' the client never sent as data and the CR bytes
   * are dropped. The file is l1 "\n" l2 "\n" rather than l1 "\r\n" l2.
   */
  lemma CrlfTwoLines(ps: seq<String>, l: String, l1: String, l2: String, e: String, endLen: nat)
    requires UploadShape(ps, l, [], l2, e) && CrlfText(l1) && endLen == |e| + 1
    ensures var s := CrlfUploadBody(ps, l, [l1, l2], e);
      Ingest(Frames(s), |s|, 0, -1, endLen, []) == Saved(l1 + "\n" + (l2 + "\n"))
  {
    var s4 := e + "\r\n";
    var s3 := l2 + "\r\n" + s4;
    var s2 := l1 + "\r\n" + s3;
    assert Wire([l1, l2]) + s4 == s2 by {
      assert Wire([l1, l2]) == l1 + "\r\n" + Wire([l2]) && [l1, l2][1..] == [l2];
      assert Wire([l2]) == l2 + "\r\n" + Wire([]) && [l2][1..] == [];
    }
    var s := CrlfUploadBody(ps, l, [l1, l2], e);
    var n := |s|;
    var t2 := |Wire(ps)| + |l| + 4;
    var d2 := n - t2 - endLen - 3;
    PartHead(ps, l, s2, s, n, endLen, t2, d2);
    var t3, d3, f3 := t2 + |l1| + 2, d2 - |l1| - 1, l1 + "\n";
    CrlfDataLine(l1, s3, s2, n, t2, d2, endLen, [], t3, d3, f3);
    var t4, f4 := t3 + |l2| + 2, f3 + (l2 + "\n");
    CrlfDataLine(l2, s4, s3, n, t3, d3, endLen, f3, t4, 0, f4);
    EndPhase(e, n, t4, 0, endLen, f4);
    assert Ingest(Frames(s), n, 0, -1, endLen, []) == Ingest(Frames(s2), n, t2, d2, endLen, []);
    assert Ingest(Frames(s2), n, t2, d2, endLen, []) == Saved(f4);
    assert f4 == l1 + "\n" + (l2 + "\n");
  }

  /**
   * Data of three or more lines separated by "\r\n": the estimate is still
   * positive when the closing marker line is read, so the marker is written
   * into the file after the data lines.
   */
  lemma CrlfThreeLines(ps: seq<String>, l: String, l1: String, l2: String, l3: String, e: String, endLen: nat)
    requires UploadShape(ps, l, [], l3, e) && CrlfText(l1) && CrlfText(l2) && e != [] && endLen == |e| + 1
    ensures var s := CrlfUploadBody(ps, l, [l1, l2, l3], e);
      Ingest(Frames(s), |s|, 0, -1, endLen, []) == Saved(l1 + "\n" + (l2 + "\n") + (l3 + "\n") + e)
  {
    var s5 := e + "\r\n";
    var s4 := l3 + "\r\n" + s5;
    var s3 := l2 + "\r\n" + s4;
    var s2 := l1 + "\r\n" + s3;
    assert Wire([l1, l2, l3]) + s5 == s2 by {
      assert Wire([l1, l2, l3]) == l1 + "\r\n" + Wire([l2, l3]) && [l1, l2, l3][1..] == [l2, l3];
      assert Wire([l2, l3]) == l2 + "\r\n" + Wire([l3]) && [l2, l3][1..] == [l3];
      assert Wire([l3]) == l3 + "\r\n" + Wire([]) && [l3][1..] == [];
    }
    var s := CrlfUploadBody(ps, l, [l1, l2, l3], e);
    var n := |s|;
    var t2 := |Wire(ps)| + |l| + 4;
    var d2 := n - t2 - endLen - 3;
    PartHead(ps, l, s2, s, n, endLen, t2, d2);
    var t3, d3, f3 := t2 + |l1| + 2, d2 - |l1| - 1, l1 + "\n";
    CrlfDataLine(l1, s3, s2, n, t2, d2, endLen, [], t3, d3, f3);
    var t4, d4, f4 := t3 + |l2| + 2, d3 - |l2| - 1, f3 + (l2 + "\n");
    CrlfDataLine(l2, s4, s3, n, t3, d3, endLen, f3, t4, d4, f4);
    var t5, d5, f5 := t4 + |l3| + 2, d4 - |l3| - 1, f4 + (l3 + "\n");
    CrlfDataLine(l3, s5, s4, n, t4, d4, endLen, f4, t5, d5, f5);
    assert d5 == 1;
    MarkerWritten(e, n, t5, endLen, f5);
    assert Ingest(Frames(s), n, 0, -1, endLen, []) == Ingest(Frames(s2), n, t2, d2, endLen, []);
    assert Ingest(Frames(s2), n, t2, d2, endLen, []) == Ingest(Frames(s4), n, t4, d4, endLen, f4);
    assert Ingest(Frames(s4), n, t4, d4, endLen, f4) == Saved(f5 + e);
    assert f5 + e == l1 + "\n" + (l2 + "\n") + (l3 + "\n") + e;
  }

  /** The closing marker line read while one byte of estimate is left: it is written without its '\n'. */
  lemma MarkerWritten(e: String, length: int, total: int, endLen: nat, file: String)
    requires CrlfText(e) && e != [] && total + |e| + 2 == length
    ensures Ingest(Frames(e + "\r\n"), length, total, 1, endLen, file) == Saved(file + e)
  {
    assert e + "\r\n" == e + "\r\n" + [];
    FramesCrlf(e, []);
    assert (e + "\n")[..|e|] == e;
    DataWrite(Frames(e + "\r\n"), length, endLen, total, 1, file, e + "\n", [], length, -|e|, file + e);
  }
}

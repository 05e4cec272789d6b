/**
 * Mapping request paths to files.
 *
 * The bufferevent server (src/http_functions.c) prefixes the server root and
 * maps "/" to its index page; it also cuts names at their last '/' or '.'.
 * The evhttp servers (src/httpd.c, src/httpd.h) refuse any decoded path that
 * contains ".." and join the rest to the document root with a '/'.
 */
module Paths {
  import opened CString

  /** Size of the path buffers (src/http_functions.h). */
  const MAX_PATH_LEN: nat := 512

  /** Pins down LastIndex from the position of a `c` and the absence of later ones. */
  lemma LastIndexAt(s: String, c: char, k: nat)
    requires k < |s| && s[k] == c
    requires forall m :: k < m < |s| ==> s[m] != c
    ensures LastIndex(s, c) == Some(k)
  {
  }

  /** A string without `c` has no last `c`. */
  lemma LastIndexNone(s: String, c: char)
    requires forall m :: 0 <= m < |s| ==> s[m] != c
    ensures LastIndex(s, c) == None
  {
  }

  /**
   * What the backward scans of get_current_directory and get_file_extension
   * leave: the text after the last `c` that stands before the final character,
   * or the whole string when there is none. The final character itself is
   * never looked at.
   */
  function SuffixAfterLast(s: String, c: char): (r: String)
    requires |s| >= 1
    ensures |r| <= |s| && s == s[..|s| - |r|] + r
    ensures forall m :: 0 <= m < |r| - 1 ==> r[m] != c
    ensures |r| < |s| ==> s[|s| - |r| - 1] == c
    ensures |r| == |s| ==> forall m :: 0 <= m < |s| - 1 ==> s[m] != c
  {
    match LastIndex(s[..|s| - 1], c)
    case None => s
    case Some(k) =>
      assert s[k + 1..][..|s[k + 1..]| - 1] == s[k + 1..|s| - 1];
      s[k + 1..]
  }

  /**
   * `int i = strlen(s) - 1; while (i--) if (s[i] == c) break;` followed by
   * strcpy(out, s + i + 1). On an empty string i would start at -1 and the
   * scan would read before the array, so the string must not be empty.
   */
  method ScanBack(s: String, c: char) returns (r: String)
    requires |s| >= 1
    ensures r == SuffixAfterLast(s, c)
  {
    var i: int := |s| - 1;
    while true
      invariant 0 <= i < |s|
      invariant forall m :: i <= m < |s| - 1 ==> s[m] != c
      decreases i
    {
      var probe := i;
      i := i - 1;
      if probe == 0 {
        break;
      }
      if s[i] == c {
        break;
      }
    }
    if i == -1 {
      LastIndexNone(s[..|s| - 1], c);
    } else {
      LastIndexAt(s[..|s| - 1], c, i);
    }
    r := s[i + 1..];
  }

  /** get_current_directory (src/http_functions.c:200-207): the last component of a directory path. */
  method GetCurrentDirectory(directory: String) returns (curDir: String)
    requires 1 <= |directory| < MAX_PATH_LEN
    ensures curDir == SuffixAfterLast(directory, '/')
  {
    curDir := ScanBack(directory, '/');
  }

  /** get_file_extension (src/http_functions.c:258-265): the text after the last '.'. */
  method GetFileExtension(fileName: String) returns (extension: String)
    requires 1 <= |fileName| < MAX_PATH_LEN
    ensures extension == SuffixAfterLast(fileName, '.')
  {
    extension := ScanBack(fileName, '.');
  }

  /** A name cut after its last '/' keeps no '/' but possibly a trailing one. */
  lemma CurrentDirectoryExamples()
    ensures SuffixAfterLast("htdocs/images", '/') == "images"
    ensures SuffixAfterLast("htdocs/images/", '/') == "images/"
    ensures SuffixAfterLast("index", '/') == "index"
  {
    var a, b := "htdocs/images", "htdocs/images/";
    assert a[..12] == "htdocs/image";
    LastIndexAt(a[..12], '/', 6);
    assert b[..13] == "htdocs/images";
    LastIndexAt(b[..13], '/', 6);
  }

  /** The extension is what follows the last '.', or the whole name without one. */
  lemma ExtensionExamples()
    ensures SuffixAfterLast("page.tar.gz", '.') == "gz"
    ensures SuffixAfterLast("Makefile", '.') == "Makefile"
  {
    var e := "page.tar.gz";
    assert e[..10] == "page.tar.g";
    LastIndexAt(e[..10], '.', 8);
  }

  // ---------------------------------------------------------------------
  // The bufferevent server

  /**
   * get_file_path_on_server (src/http_functions.c:351-356): the root, the URL,
   * and "index.html" when the URL is exactly "/". The path buffer holds 512
   * bytes, the terminator included; the ten bytes of "index.html" need room
   * only for "/".
   */
  function FilePathOnServer(root: String, url: String): (path: String)
    requires PathFits(root, url)
    ensures |root| <= |path| < MAX_PATH_LEN && path[..|root|] == root
  {
    var p := root + url;
    if url == "/" then p + "index.html" else p
  }

  /** strcpy and strcat stay within the 512-byte path buffer of do_accept_cb. */
  predicate PathFits(root: String, url: String) {
    |root| + |url| + (if url == "/" then |"index.html"| else 0) < MAX_PATH_LEN
  }

  /**
   * Two URLs reach the same file exactly when they are equal or are "/" and
   * "/index.html": the root is an alias of its index page and nothing else is.
   */
  lemma FilePathAliases(root: String, u: String, v: String)
    requires PathFits(root, u) && PathFits(root, v)
    ensures FilePathOnServer(root, u) == FilePathOnServer(root, v) <==>
      u == v || {u, v} == {"/", "/index.html"}
  {
    var pu, pv := FilePathOnServer(root, u), FilePathOnServer(root, v);
    var su := if u == "/" then "/index.html" else u;
    var sv := if v == "/" then "/index.html" else v;
    assert pu == root + su && pv == root + sv;
    if pu == pv {
      assert su == pu[|root|..] == pv[|root|..] == sv;
      if u != v {
        assert u == "/" || v == "/";
        assert {u, v} == {"/", "/index.html"};
      }
    }
    if {u, v} == {"/", "/index.html"} {
      assert u in {"/", "/index.html"} && v in {"/", "/index.html"};
    }
  }

  // ---------------------------------------------------------------------
  // The evhttp servers

  /** strstr(decoded_path, "..") != NULL: the whole test, which also refuses names like "a..b". */
  predicate HasDotDot(p: String) {
    Contains(p, "..")
  }

  /** evutil_snprintf into `size` bytes: at most size - 1 characters of the text, then the terminator. */
  function Snprintf(size: nat, text: String): (r: String)
    requires size >= 1
    ensures |r| == if |text| < size then |text| else size - 1
    ensures r == text[..|r|]
  {
    if |text| < size then text else text[..size - 1]
  }

  /**
   * The whole path handle_request_cb builds (src/httpd.c:395-403): the
   * document root, '/', and the decoded path with one leading '/' dropped,
   * formatted into a buffer of strlen(decoded) + strlen(docroot) + 2 - offset
   * bytes.
   */
  function RequestWholePath(docroot: String, decoded: String): String {
    var offset := if |decoded| > 0 && decoded[0] == '/' then 1 else 0;
    var len := |decoded| + |docroot| + 2;
    Snprintf(len - offset, docroot + "/" + decoded[offset..])
  }

  /**
   * The buffer is always large enough: the root, one '/' and the decoded
   * path without its leading '/' arrive untruncated, and a path free of ".."
   * yields a relative part free of "..".
   */
  lemma RequestWholePathJoin(docroot: String, decoded: String)
    ensures var rel := if |decoded| > 0 && decoded[0] == '/' then decoded[1..] else decoded;
      && RequestWholePath(docroot, decoded) == docroot + "/" + rel
      && (!HasDotDot(decoded) ==> !HasDotDot(rel))
      && decoded == (if |decoded| > 0 && decoded[0] == '/' then "/" else "") + rel
  {
    var rel := if |decoded| > 0 && decoded[0] == '/' then decoded[1..] else decoded;
    if |decoded| > 0 && decoded[0] == '/' {
      assert decoded == "/" + rel;
      if HasDotDot(rel) {
        var k := Find(rel, "..", 0).value;
        assert decoded[k + 1..k + 3] == rel[k..k + 2];
        assert OccursAt(decoded, "..", k + 1);
        assert Find(decoded, "..", 0).Some?;
      }
    }
  }

  /** The whole path send_document_cb builds (src/httpd.h:322-327): root, '/', decoded path, no stripping. */
  function DocumentWholePath(docroot: String, decoded: String): String {
    var len := |decoded| + |docroot| + 2;
    Snprintf(len, docroot + "/" + decoded)
  }

  /**
   * The older callback keeps the decoded path's leading '/', so its whole
   * path doubles the separator where the newer one has a single '/'.
   */
  lemma WholePathsCompared(docroot: String, decoded: String)
    requires |decoded| > 0 && decoded[0] == '/'
    ensures DocumentWholePath(docroot, decoded) == docroot + "/" + decoded
    ensures DocumentWholePath(docroot, decoded) == docroot + "/" + RequestWholePath(docroot, decoded)[|docroot|..]
  {
    RequestWholePathJoin(docroot, decoded);
    var rel := decoded[1..];
    assert RequestWholePath(docroot, decoded)[|docroot|..] == "/" + rel;
    assert decoded == "/" + rel;
  }

  /** A path with no two adjacent dots passes the ".." test. */
  lemma NoAdjacentDots(p: String)
    requires forall m :: 0 <= m < |p| - 1 ==> p[m] != '.' || p[m + 1] != '.'
    ensures !HasDotDot(p)
  {
    forall m | 0 <= m
      ensures !OccursAt(p, "..", m)
    {
      if m + 2 <= |p| {
        assert p[m..m + 2][0] == p[m] && p[m..m + 2][1] == p[m + 1];
      }
    }
  }

  /** The ".." test is a substring test: it refuses harmless names and lets no parent step through. */
  lemma DotDotExamples()
    ensures HasDotDot("/this/one..here")
    ensures HasDotDot("/../etc/passwd")
    ensures !HasDotDot("/docs/a.b/c")
  {
    assert OccursAt("/this/one..here", "..", 9);
    assert OccursAt("/../etc/passwd", "..", 1);
    NoAdjacentDots("/docs/a.b/c");
  }
}

/**
 * Content types of the evhttp servers (src/httpd.h): a table from file
 * extension to MIME type, searched case-insensitively for the text after the
 * path's last '.', with "application/misc" for everything else.
 */
module ContentType {
  import opened CString

  /** content_type_table (src/httpd.h:29-46), without its NULL sentinel. */
  const Table: seq<(String, String)> := [
    ("txt", "text/plain"),
    ("c", "text/plain"),
    ("h", "text/plain"),
    ("html", "text/html"),
    ("htm", "text/htm"),
    ("css", "text/css"),
    ("gif", "image/gif"),
    ("jpg", "image/jpeg"),
    ("jpeg", "image/jpeg"),
    ("png", "image/png"),
    ("pdf", "application/pdf"),
    ("ps", "application/postscript")
  ]

  const MISC: String := "application/misc"

  /** The type of the first entry of `table` from `i` on whose extension equals `ext` ignoring case. */
  function Lookup(table: seq<(String, String)>, ext: String, i: nat): (r: Option<String>)
    requires i <= |table|
    ensures r.Some? <==> exists j :: i <= j < |table| && EqualsIgnoreCase(table[j].0, ext)
    ensures r.Some? ==> exists j :: (i <= j < |table| && EqualsIgnoreCase(table[j].0, ext) && r.value == table[j].1 &&
      forall m :: i <= m < j ==> !EqualsIgnoreCase(table[m].0, ext))
    decreases |table| - i
  {
    if i == |table| then None
    else if EqualsIgnoreCase(table[i].0, ext) then Some(table[i].1)
    else Lookup(table, ext, i + 1)
  }

  /**
   * The extension guess_content_type looks up: the text after the last '.',
   * provided no '/' follows that '.'.
   */
  function Extension(path: String): (r: Option<String>)
    ensures r.Some? ==> exists k :: 0 <= k < |path| && path[k] == '.' && r.value == path[k + 1..]
    ensures r.Some? ==> forall m :: 0 <= m < |r.value| ==> r.value[m] != '.' && r.value[m] != '/'
    ensures r.None? ==> forall k :: 0 <= k < |path| && path[k] == '.' ==> exists m :: k < m < |path| && path[m] == '/'
  {
    match LastIndex(path, '.')
    case None => None
    case Some(k) =>
      if IndexFrom(path, '/', k) < |path| then None
      else
        Some(path[k + 1..])
  }

  /** The type announced for `path` when the table is `table`. */
  function ContentTypeIn(table: seq<(String, String)>, path: String): String {
    match Extension(path)
    case None => MISC
    case Some(ext) =>
      match Lookup(table, ext, 0)
      case None => MISC
      case Some(t) => t
  }

  /** The type the evhttp servers announce for `path`. */
  function ContentTypeOf(path: String): String {
    ContentTypeIn(Table, path)
  }

  /**
   * guess_content_type (src/httpd.h:59-73, src/httpd.c:4-18): strrchr for the
   * last '.', strchr for a '/' after it, then a walk over the table up to its
   * sentinel comparing with evutil_ascii_strcasecmp.
   */
  method GuessContentType(path: String) returns (contentType: String)
    ensures contentType == ContentTypeOf(path)
  {
    contentType := GuessIn(Table, path);
  }

  method GuessIn(table: seq<(String, String)>, path: String) returns (contentType: String)
    ensures contentType == ContentTypeIn(table, path)
  {
    var lastPeriod := LastIndex(path, '.');
    if lastPeriod.None? || IndexFrom(path, '/', lastPeriod.value) < |path| {
      assert Extension(path).None?;
      return MISC;
    }
    var extension := path[lastPeriod.value + 1..];
    assert Extension(path) == Some(extension);
    var found := SearchTable(table, extension);
    contentType := if found.Some? then found.value else MISC;
  }

  /** The loop of guess_content_type: entries in order until one matches or the sentinel is reached. */
  method SearchTable(table: seq<(String, String)>, extension: String) returns (r: Option<String>)
    ensures r == Lookup(table, extension, 0)
  {
    var i := 0;
    while i < |table|
      invariant 0 <= i <= |table|
      invariant Lookup(table, extension, 0) == Lookup(table, extension, i)
    {
      if EqualsIgnoreCase(table[i].0, extension) {
        return Some(table[i].1);
      }
      i := i + 1;
    }
    r := None;
  }

  /**
   * The guess is a type from the table exactly when the extension matches an
   * entry (ignoring case), and then it is the type of the first entry that
   * matches.
   */
  lemma ContentTypeMeaning(path: String)
    ensures ContentTypeOf(path) != MISC <==>
      Extension(path).Some? && exists j :: 0 <= j < |Table| && EqualsIgnoreCase(Table[j].0, Extension(path).value)
    ensures ContentTypeOf(path) != MISC ==> exists j :: (0 <= j < |Table| &&
      EqualsIgnoreCase(Table[j].0, Extension(path).value) && ContentTypeOf(path) == Table[j].1 &&
      forall m :: 0 <= m < j ==> !EqualsIgnoreCase(Table[m].0, Extension(path).value))
  {
    TypesNotMisc();
  }

  /** No entry of the table maps to the fallback type. */
  lemma TypesNotMisc()
    ensures forall j :: 0 <= j < |Table| ==> Table[j].1 != MISC
  {
    forall j | 0 <= j < |Table|
      ensures Table[j].1 != MISC
    {
      assert Table[j].1[|Table[j].1| - 1] != 'c' || Table[j].1[0] != 'a' || |Table[j].1| != |MISC|;
    }
  }

  lemma HtmlExample()
    ensures ContentTypeOf("docs/Index.HTML") == "text/html"
  {
    var p := "docs/Index.HTML";
    LastIndexFound(p, '.', 10);
    assert IndexFrom(p, '/', 10) == |p|;
    var ext := p[11..];
    assert ext == "HTML";
    assert !EqualsIgnoreCase(Table[0].0, ext) && !EqualsIgnoreCase(Table[1].0, ext) && !EqualsIgnoreCase(Table[2].0, ext);
    assert EqualsIgnoreCase(Table[3].0, ext);
  }

  lemma DirectoryDotExample()
    ensures ContentTypeOf("v1.2/README") == MISC
  {
    var p := "v1.2/README";
    LastIndexFound(p, '.', 2);
    assert p[4] == '/';
    assert IndexFrom(p, '/', 2) < |p|;
  }

  /** LastIndex on a literal, from the position of its last `c`. */
  lemma LastIndexFound(s: String, c: char, k: nat)
    requires k < |s| && s[k] == c && forall m :: k < m < |s| ==> s[m] != c
    ensures LastIndex(s, c) == Some(k)
  {
  }
}

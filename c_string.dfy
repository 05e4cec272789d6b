/**
 * Character and C-string helpers shared by the whole model.
 *
 * The server works on NUL-terminated char arrays and calls a handful of C
 * library routines on them (isspace, strcasecmp, strchr/strrchr, strstr, atoi).
 * Here a C string is the sequence of its characters before the terminating
 * NUL; reading at index |s| yields the terminator.
 */
module CString {

  type String = seq<char>

  datatype Option<T> = None | Some(value: T)

  /** isspace() in the C locale: ' ', '\t', '\n', '\v', '\f' and '\r'. */
  predicate IsSpace(c: char) {
    c == ' ' || '\t' <= c <= '\r'
  }

  /** A C string cannot hold its own terminator. */
  predicate NoNul(s: String) {
    forall i :: 0 <= i < |s| ==> s[i] != '\0'
  }

  function ToLower(c: char): char {
    if 'A' <= c <= 'Z' then (c as int + 32) as char else c
  }

  /** strcasecmp(a, b) == 0 (and evutil_ascii_strcasecmp) on NUL-free strings. */
  predicate EqualsIgnoreCase(a: String, b: String) {
    |a| == |b| && forall i :: 0 <= i < |a| ==> ToLower(a[i]) == ToLower(b[i])
  }

  lemma EqualsIgnoreCaseTrans(a: String, b: String, c: String)
    requires EqualsIgnoreCase(a, b) && EqualsIgnoreCase(b, c)
    ensures EqualsIgnoreCase(a, c)
  {
  }

  /** The first index at or after `from` holding `c`, or |s| when there is none. */
  function IndexFrom(s: String, c: char, from: nat): (k: nat)
    requires from <= |s|
    ensures from <= k <= |s|
    ensures forall m :: from <= m < k ==> s[m] != c
    ensures k < |s| ==> s[k] == c
    decreases |s| - from
  {
    if from == |s| || s[from] == c then from else IndexFrom(s, c, from + 1)
  }

  /** strrchr: the index of the last `c` in `s`, if there is one. */
  function LastIndex(s: String, c: char): (r: Option<nat>)
    ensures r.None? ==> forall m :: 0 <= m < |s| ==> s[m] != c
    ensures r.Some? ==> r.value < |s| && s[r.value] == c
    ensures r.Some? ==> forall m :: r.value < m < |s| ==> s[m] != c
  {
    if s == [] then None
    else if s[|s| - 1] == c then Some(|s| - 1)
    else LastIndex(s[..|s| - 1], c)
  }

  /** `t` occurs in `s` starting at index `m`. */
  predicate OccursAt(s: String, t: String, m: nat) {
    m + |t| <= |s| && s[m..m + |t|] == t
  }

  /** strstr: the index of the first occurrence of `t` at or after `from`. */
  function Find(s: String, t: String, from: nat): (r: Option<nat>)
    requires from <= |s|
    ensures r.Some? ==> from <= r.value && OccursAt(s, t, r.value)
    ensures r.Some? ==> forall m :: from <= m < r.value ==> !OccursAt(s, t, m)
    ensures r.None? ==> forall m :: from <= m ==> !OccursAt(s, t, m)
    decreases |s| - from
  {
    if OccursAt(s, t, from) then Some(from)
    else if from == |s| then None
    else Find(s, t, from + 1)
  }

  /** strstr(s, t) != NULL */
  predicate Contains(s: String, t: String) {
    Find(s, t, 0).Some?
  }

  /** The first index at or after `i` that is not white space (or |s|). */
  function SkipSpaces(s: String, i: nat): (k: nat)
    requires i <= |s|
    ensures i <= k <= |s|
    ensures forall m :: i <= m < k ==> IsSpace(s[m])
    ensures k < |s| ==> !IsSpace(s[k])
    decreases |s| - i
  {
    if i < |s| && IsSpace(s[i]) then SkipSpaces(s, i + 1) else i
  }

  /**
   * A scan `while (!isspace(s[i]) && i < from + cap) i++` that starts at `from`
   * stays inside the string: it meets white space or its cap before it would
   * step over the terminating NUL (which is not white space).
   */
  predicate TokenBounded(s: String, from: nat, cap: nat) {
    from + cap <= |s| || exists k :: from <= k < |s| && IsSpace(s[k])
  }

  /** Where that scan stops: at the first white space, or after `cap` characters. */
  function TokenEnd(s: String, from: nat, cap: nat): (k: nat)
    requires from <= |s| && TokenBounded(s, from, cap)
    ensures from <= k <= |s| && k <= from + cap
    ensures forall m :: from <= m < k ==> !IsSpace(s[m])
    ensures k < from + cap ==> k < |s| && IsSpace(s[k])
    decreases cap
  {
    if cap == 0 || (from < |s| && IsSpace(s[from])) then from
    else
      assert TokenBounded(s, from + 1, cap - 1) by {
        if from + cap > |s| {
          var k :| from <= k < |s| && IsSpace(s[k]);
          assert k != from;
        }
      }
      TokenEnd(s, from + 1, cap - 1)
  }

  /** The C string held in a char array: its characters up to the first NUL. */
  function CStr(s: String): (r: String)
    ensures |r| <= |s| && r == s[..|r|]
    ensures NoNul(r)
    ensures |r| < |s| ==> s[|r|] == '\0'
  {
    s[..IndexFrom(s, '\0', 0)]
  }

  lemma CStrNoNul(s: String)
    requires NoNul(s)
    ensures CStr(s) == s
  {
    assert IndexFrom(s, '\0', 0) == |s|;
  }

  /** A NUL-free string followed by a terminator reads back as itself, whatever follows. */
  lemma CStrTerminated(s: String, rest: String)
    requires NoNul(s)
    ensures CStr(s + ['\0'] + rest) == s
  {
    var t := s + ['\0'] + rest;
    assert forall m :: 0 <= m < |s| ==> t[m] == s[m];
    IndexFromAt(t, '\0', 0, |s|);
    assert t[..|s|] == s;
  }

  /** A C string runs at least past a prefix without NUL. */
  lemma CStrPastPrefix(s: String, n: nat)
    requires n < |s| && forall m :: 0 <= m <= n ==> s[m] != '\0'
    ensures |CStr(s)| > n && CStr(s)[n] == s[n]
  {
  }

  /** Pins down where SkipSpaces stops. */
  lemma SkipSpacesAt(s: String, i: nat, k: nat)
    requires i <= k <= |s|
    requires forall m :: i <= m < k ==> IsSpace(s[m])
    requires k < |s| ==> !IsSpace(s[k])
    ensures SkipSpaces(s, i) == k
  {
  }

  /** Pins down where TokenEnd stops. */
  lemma TokenEndAt(s: String, from: nat, cap: nat, k: nat)
    requires from <= k <= |s| && k <= from + cap
    requires forall m :: from <= m < k ==> !IsSpace(s[m])
    requires k < from + cap ==> k < |s| && IsSpace(s[k])
    ensures TokenBounded(s, from, cap)
    ensures TokenEnd(s, from, cap) == k
  {
    if k < from + cap {
      assert from <= k < |s| && IsSpace(s[k]);
    }
  }

  /** Pins down where IndexFrom stops. */
  lemma IndexFromAt(s: String, c: char, from: nat, k: nat)
    requires from <= k <= |s|
    requires forall m :: from <= m < k ==> s[m] != c
    requires k < |s| ==> s[k] == c
    ensures IndexFrom(s, c, from) == k
  {
  }

  function Concat(ls: seq<String>): String {
    if ls == [] then [] else Concat(ls[..|ls| - 1]) + ls[|ls| - 1]
  }

  lemma ConcatAppend(ls: seq<String>, l: String)
    ensures Concat(ls + [l]) == Concat(ls) + l
  {
    assert (ls + [l])[..|ls|] == ls;
  }

  lemma {:induction false} ConcatSplit(a: seq<String>, b: seq<String>)
    ensures Concat(a + b) == Concat(a) + Concat(b)
    decreases |b|
  {
    if b == [] {
      assert a + b == a;
    } else {
      var b' := b[..|b| - 1];
      assert a + b == (a + b') + [b[|b| - 1]];
      ConcatAppend(a + b', b[|b| - 1]);
      ConcatSplit(a, b');
      ConcatAppend(b', b[|b| - 1]);
      assert b == b' + [b[|b| - 1]];
    }
  }

  // ---------------------------------------------------------------------
  // atoi

  predicate IsDigit(c: char) {
    '0' <= c <= '9'
  }

  function DigitValue(c: char): nat
    requires IsDigit(c)
  {
    c as int - '0' as int
  }

  function Digit(d: nat): (c: char)
    requires d < 10
    ensures IsDigit(c) && DigitValue(c) == d
  {
    ('0' as int + d) as char
  }

  /** The end of the run of decimal digits that starts at `i`. */
  function DigitRun(s: String, i: nat): (k: nat)
    requires i <= |s|
    ensures i <= k <= |s|
    ensures forall m :: i <= m < k ==> IsDigit(s[m])
    ensures k < |s| ==> !IsDigit(s[k])
    decreases |s| - i
  {
    if i < |s| && IsDigit(s[i]) then DigitRun(s, i + 1) else i
  }

  /** The value of a string of decimal digits, most significant first. */
  function DecimalValue(d: String): nat
    requires forall m :: 0 <= m < |d| ==> IsDigit(d[m])
  {
    if d == [] then 0 else 10 * DecimalValue(d[..|d| - 1]) + DigitValue(d[|d| - 1])
  }

  /**
   * atoi: leading white space, an optional sign, then the longest run of
   * digits; anything else yields 0. C leaves overflow undefined; the model
   * keeps the mathematical value.
   */
  function Atoi(s: String): int {
    var i := SkipSpaces(s, 0);
    if i < |s| && (s[i] == '-' || s[i] == '+') then
      var v: int := DecimalValue(s[i + 1..DigitRun(s, i + 1)]);
      if s[i] == '-' then -v else v
    else
      DecimalValue(s[i..DigitRun(s, i)])
  }

  /** The decimal spelling of a natural number, as a client writes Content-Length. */
  function Decimal(n: nat): (r: String)
    ensures |r| >= 1
    ensures forall m :: 0 <= m < |r| ==> IsDigit(r[m])
  {
    if n < 10 then [Digit(n)] else Decimal(n / 10) + [Digit(n % 10)]
  }

  lemma {:induction false} DecimalValueOfDecimal(n: nat)
    ensures DecimalValue(Decimal(n)) == n
  {
    if n >= 10 {
      var r := Decimal(n);
      assert r[..|r| - 1] == Decimal(n / 10);
      DecimalValueOfDecimal(n / 10);
    }
  }

  /** atoi reads back every number written in decimal. */
  lemma AtoiDecimal(n: nat)
    ensures Atoi(Decimal(n)) == n
  {
    var s := Decimal(n);
    assert SkipSpaces(s, 0) == 0;
    assert DigitRun(s, 0) == |s|;
    assert s[0..|s|] == s;
    DecimalValueOfDecimal(n);
  }
}

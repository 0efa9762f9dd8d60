/** Characters, words and substring search, as Go's unicode, bufio and strings packages define them. */
module Text {

  datatype Option<+T> = None | Some(value: T)

  /** White space as unicode.IsSpace and bufio.ScanWords see it. */
  predicate IsSpace(c: char) {
    || '\t' <= c <= '\r'
    || c == ' '
    || c as int in {0x85, 0xA0, 0x1680, 0x2028, 0x2029, 0x202F, 0x205F, 0x3000}
    || 0x2000 <= c as int <= 0x200A
  }

  predicate IsDigit(c: char) { '0' <= c <= '9' }

  predicate IsLetter(c: char) { 'A' <= c <= 'Z' || 'a' <= c <= 'z' }

  /** The class [A-Z0-9]. */
  predicate IsIDChar(c: char) { 'A' <= c <= 'Z' || IsDigit(c) }

  /** The class [A-Za-z0-9._-]. */
  predicate IsNameChar(c: char) { IsLetter(c) || IsDigit(c) || c in "._-" }

  /** s is non-empty and every character of it is of the kind. */
  predicate AllIn(s: string, kind: char -> bool) {
    |s| > 0 && forall i :: 0 <= i < |s| ==> kind(s[i])
  }

  /** The length of the longest prefix of s whose characters are all of the kind. */
  function Span(s: string, kind: char -> bool): (n: nat)
    ensures n <= |s|
    ensures forall i :: 0 <= i < n ==> kind(s[i])
    ensures n < |s| ==> !kind(s[n])
  {
    if s == "" || !kind(s[0]) then 0 else 1 + Span(s[1..], kind)
  }

  /** A run of the kind that ends where the kind ends is the whole span. */
  lemma SpanOfRun(s: string, n: nat, kind: char -> bool)
    requires n <= |s|
    requires forall i :: 0 <= i < n ==> kind(s[i])
    requires n < |s| ==> !kind(s[n])
    ensures Span(s, kind) == n
  {
  }

  /** The length of a name, if s starts with one and then goes on with `close`. */
  function MatchName(s: string, close: string): (m: Option<nat>)
    ensures m.Some? ==> 0 < m.value && m.value + |close| <= |s|
  {
    var m := Span(s, IsNameChar);
    if m == 0 || !(close <= s[m..]) then None else Some(m)
  }

  /** The lengths of an id and of a name, if s starts with id|name and then goes on with `close`. */
  function MatchIdName(s: string, close: string): (r: Option<(nat, nat)>)
    ensures r.Some? ==> r.value.0 > 0 && r.value.1 > 0 && r.value.0 + r.value.1 + 1 + |close| <= |s|
  {
    var n := Span(s, IsIDChar);
    if n == 0 || |s| <= n || s[n] != '|' then None
    else
      match MatchName(s[n + 1..], close)
      case Some(m) => Some((n, m))
      case None => None
  }

  lemma NoIdThenName(t: string, m: nat, close: string)
    requires m == Span(t, IsIDChar) && (m == 0 || m == |t| || t[m] != '|')
    ensures MatchIdName(t, close) == None
  {
  }

  lemma IdThenName(t: string, m: nat, u: string, close: string, k: Option<nat>)
    requires 0 < m == Span(t, IsIDChar) < |t| && t[m] == '|' && t[m + 1..] == u && k == MatchName(u, close)
    ensures MatchIdName(t, close) == match k case Some(j) => Some((m, j)) case None => None
  {
  }

  /** strings.TrimSpace */
  function TrimSpace(s: string): string {
    TrimRight(TrimLeft(s))
  }

  function TrimLeft(s: string): string {
    if s != "" && IsSpace(s[0]) then TrimLeft(s[1..]) else s
  }

  function TrimRight(s: string): string {
    if s != "" && IsSpace(s[|s| - 1]) then TrimRight(s[..|s| - 1]) else s
  }

  predicate IsWordChar(c: char) { !IsSpace(c) }

  /** The words of s: the maximal runs of characters that are not white space. */
  function Words(s: string): seq<string>
    decreases |s|
  {
    if s == "" then []
    else if IsSpace(s[0]) then Words(s[1..])
    else
      var n := Span(s, IsWordChar);
      [s[..n]] + Words(s[n..])
  }

  /** pat occurs in s at index i */
  predicate OccursAt(s: string, i: int, pat: string) {
    0 <= i && i + |pat| <= |s| && s[i..i + |pat|] == pat
  }

  predicate Contains(s: string, pat: string) {
    exists i :: 0 <= i <= |s| && OccursAt(s, i, pat)
  }

  /** strings.Replace(s, old, new, -1): leftmost matches first, none overlapping the one before. */
  function ReplaceAll(s: string, old_: string, new_: string): string
    requires old_ != ""
    decreases |s|
  {
    if s == "" then ""
    else if old_ <= s then new_ + ReplaceAll(s[|old_|..], old_, new_)
    else [s[0]] + ReplaceAll(s[1..], old_, new_)
  }
}

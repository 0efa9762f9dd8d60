/** deploy/references.go: the references to users and pull requests in a deploy subject. */
module References {
  import opened Text

  datatype UserReference = UserReference(id: string, name: string)

  datatype PullRequestReference = PullRequestReference(id: string, repository: string)

  // ---- the four patterns, each anchored at the start of a word ----

  /** ^@(name) */
  function MatchPlainUser(w: string): Option<UserReference> {
    if w == "" || w[0] != '@' then None
    else
      var n := Span(w[1..], IsNameChar);
      if n == 0 then None else Some(UserReference("", w[1..][..n]))
  }

  /** ^(id)\|(name)> */
  function MatchUserBody(t: string): Option<UserReference> {
    match MatchIdName(t, ">")
    case Some((n, m)) => Some(UserReference(t[..n], t[n + 1..][..m]))
    case None => None
  }

  /** ^<@(id)\|(name)> */
  function MatchEscapedUser(w: string): Option<UserReference> {
    if "<@" <= w then MatchUserBody(w[2..]) else None
  }

  /** ^name/name, as far as it goes */
  function MatchRepository(w: string): (b: Option<nat>)
    ensures b.Some? ==> b.value <= |w|
  {
    var a := Span(w, IsNameChar);
    if a == 0 || |w| <= a || w[a] != '/' then None
    else
      var n := Span(w[a + 1..], IsNameChar);
      if n == 0 then None else Some(a + 1 + n)
  }

  /** ^#(digits)[^A-Za-z]?$ */
  function MatchNumber(t: string): (n: Option<nat>)
    ensures n.Some? ==> n.value < |t|
  {
    if t == "" || t[0] != '#' then None
    else
      var n := Span(t[1..], IsDigit);
      if n > 0 && (1 + n == |t| || (2 + n == |t| && !IsLetter(t[1 + n]))) then Some(n) else None
  }

  /** ^(name/name)#(digits)[^A-Za-z]?$ */
  function MatchShortPullRequest(w: string): Option<PullRequestReference> {
    match MatchRepository(w)
    case None => None
    case Some(b) =>
      match MatchNumber(w[b..])
      case None => None
      case Some(n) => Some(PullRequestReference(w[b..][1..][..n], w[..b]))
  }

  /** r starts with /pull/(digits) followed by one of ?, #, > or by nothing */
  predicate PullSuffix(r: string) {
    "/pull/" <= r &&
    var n := Span(r[6..], IsDigit);
    n > 0 && (|r| == 6 + n || r[6 + n] in "?#>")
  }

  /** The last index at which r goes on with a pull suffix. */
  function LastPull(r: string): (j: Option<nat>)
    ensures j.Some? ==> j.value + 6 <= |r|
  {
    if r == "" then None
    else
      match LastPull(r[1..])
      case Some(k) => Some(1 + k)
      case None => if PullSuffix(r) then Some(0) else None
  }

  lemma {:induction false} LastPullIsThere(r: string)
    requires LastPull(r).Some?
    ensures PullSuffix(r[LastPull(r).value..])
  {
    if LastPull(r[1..]).Some? {
      LastPullIsThere(r[1..]);
      assert r[1..][LastPull(r[1..]).value..] == r[LastPull(r).value..];
    } else {
      assert r[0..] == r;
    }
  }

  lemma {:induction false} LastPullIsLast(r: string, k: nat)
    requires k < |r| && PullSuffix(r[k..])
    ensures LastPull(r).Some? && k <= LastPull(r).value
  {
    if k == 0 {
      assert r[0..] == r;
    } else {
      assert r[1..][k - 1..] == r[k..];
      LastPullIsLast(r[1..], k - 1);
    }
  }

  /** What follows p, if w starts with p. */
  function After(p: string, w: string): Option<string> {
    if p <= w then Some(w[|p|..]) else None
  }

  /** What follows p, or all of w if it does not start with p. */
  function AfterOptional(p: string, w: string): string {
    if p <= w then w[|p|..] else w
  }

  /** ^.com/ */
  function AfterDomain(w: string): Option<string> {
    if w == "" then None else After("com/", w[1..])
  }

  /** ^https?://github.com/ with the unescaped dot of the original */
  function AfterHost(w: string): Option<string> {
    match After("http", w)
    case None => None
    case Some(u) =>
      match After("://github", AfterOptional("s", u))
      case None => None
      case Some(v) => AfterDomain(v)
  }

  /** ^<?https?://github.com/: the rest of the word behind it */
  function AfterGitHub(w: string): Option<string> {
    AfterHost(AfterOptional("<", w))
  }

  /** A slash with at least one character on either side of it */
  predicate HasInnerSlash(s: string) {
    exists i :: 1 <= i < |s| - 1 && s[i] == '/'
  }

  /**
   * ^<?https?://github.com/(\S+/\S+)/pull/(\d+)(?:[\?#>]|$) on a word without white space.
   * Both \S+ are greedy, so the group ends at the last pull suffix.
   */
  function MatchLinkPullRequest(w: string): Option<PullRequestReference> {
    match AfterGitHub(w)
    case None => None
    case Some(r) =>
      match LastPull(r)
      case None => None
      case Some(j) =>
        if HasInnerSlash(r[..j]) then
          Some(PullRequestReference(r[j..][6..][..Span(r[j..][6..], IsDigit)], r[..j]))
        else None
  }

  function UserPattern(k: nat, w: string): Option<UserReference> {
    if k == 0 then MatchPlainUser(w) else MatchEscapedUser(w)
  }

  function PullRequestPattern(k: nat, w: string): Option<PullRequestReference> {
    if k == 0 then MatchShortPullRequest(w) else MatchLinkPullRequest(w)
  }

  /** What the first k patterns find in a word, in their order. */
  function RefsUpTo<T>(pattern: (nat, string) -> Option<T>, w: string, k: nat): seq<T> {
    if k == 0 then []
    else RefsUpTo(pattern, w, k - 1) + (if pattern(k - 1, w).Some? then [pattern(k - 1, w).value] else [])
  }

  function RefsInWords<T>(pattern: (nat, string) -> Option<T>, words: seq<string>): seq<T> {
    if words == [] then [] else RefsUpTo(pattern, words[0], 2) + RefsInWords(pattern, words[1..])
  }

  function UserRefs(s: string): seq<UserReference> { RefsInWords(UserPattern, Words(s)) }

  function PullRequestRefs(s: string): seq<PullRequestReference> { RefsInWords(PullRequestPattern, Words(s)) }

  lemma {:induction false} RefsInWordsAppend<T>(pattern: (nat, string) -> Option<T>, u: seq<string>, v: seq<string>)
    ensures RefsInWords(pattern, u + v) == RefsInWords(pattern, u) + RefsInWords(pattern, v)
    ensures |v| == 1 ==> RefsInWords(pattern, v) == RefsUpTo(pattern, v[0], 2)
  {
    if u == [] {
      assert u + v == v;
    } else {
      assert (u + v)[1..] == u[1..] + v;
      RefsInWordsAppend(pattern, u[1..], v);
    }
  }

  /** findReferences: every word of s is tried against both patterns, and each match is appended. */
  method FindReferences<T>(s: string, pattern: (nat, string) -> Option<T>) returns (refs: seq<T>)
    ensures refs == RefsInWords(pattern, Words(s))
  {
    refs := [];
    var words := Words(s);
    for i := 0 to |words|
      invariant refs == RefsInWords(pattern, words[..i])
    {
      var word := words[i];
      ghost var before := refs;
      for k := 0 to 2
        invariant refs == before + RefsUpTo(pattern, word, k)
      {
        var m := pattern(k, word);
        if m.Some? {
          refs := refs + [m.value];
        }
      }
      RefsInWordsAppend(pattern, words[..i], [word]);
      assert words[..i + 1] == words[..i] + [word];
    }
    assert words[..|words|] == words;
  }

  method FindUserReferences(s: string) returns (refs: seq<UserReference>)
    ensures refs == UserRefs(s)
  {
    refs := FindReferences(s, UserPattern);
  }

  method FindPullRequestReferences(s: string) returns (refs: seq<PullRequestReference>)
    ensures refs == PullRequestRefs(s)
  {
    refs := FindReferences(s, PullRequestPattern);
  }
}

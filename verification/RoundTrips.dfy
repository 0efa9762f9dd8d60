/** References written into a message, escaped with it, and found again. */
module RoundTrips {
  import opened Text
  import opened Escape
  import opened EscapeLaws
  import opened LinkLaws
  import opened WrittenLinks
  import opened References
  import opened ReferenceLaws

  // ---- words and the white space between them ----

  predicate IsWord(w: string) { w != "" && Unbroken(w) }

  predicate IsGap(g: string) {
    forall i :: 0 <= i < |g| ==> IsSpace(g[i])
  }

  /** The gaps before, between and behind n words; only those between must not be empty. */
  predicate Separate(gaps: seq<string>, n: nat) {
    |gaps| == n + 1
    && (forall i :: 0 <= i <= n ==> IsGap(gaps[i]))
    && (forall i :: 1 <= i < n ==> gaps[i] != "")
  }

  function Spread(words: seq<string>, gaps: seq<string>): string
    requires |gaps| == |words| + 1
  {
    gaps[0] + (if words == [] then "" else words[0] + Spread(words[1..], gaps[1..]))
  }

  lemma {:induction false} WordsBehindGap(g: string, rest: string)
    requires IsGap(g)
    ensures Words(g + rest) == Words(rest)
  {
    if g == "" {
      assert g + rest == rest;
    } else {
      DropConcat(g, rest);
      WordsBehindGap(g[1..], rest);
    }
  }

  lemma WordFirst(w: string, rest: string)
    requires IsWord(w) && (rest == "" || IsSpace(rest[0]))
    ensures Words(w + rest) == [w] + Words(rest)
  {
    var s := w + rest;
    SpanOfRun(s, |w|, IsWordChar);
    assert s[..|w|] == w && s[|w|..] == rest;
  }

  lemma StartsWithGap(words: seq<string>, gaps: seq<string>)
    requires |gaps| == |words| + 1 && IsGap(gaps[0]) && (words != [] ==> gaps[0] != "")
    ensures Spread(words, gaps) == "" || IsSpace(Spread(words, gaps)[0])
  {
    if words == [] {
      assert Spread(words, gaps) == gaps[0];
    }
  }

  lemma {:induction false} WordsOfSpread(words: seq<string>, gaps: seq<string>)
    requires (forall i :: 0 <= i < |words| ==> IsWord(words[i])) && Separate(gaps, |words|)
    ensures Words(Spread(words, gaps)) == words
  {
    if words == [] {
      WordsBehindGap(gaps[0], "");
    } else {
      var rest := Spread(words[1..], gaps[1..]);
      StartsWithGap(words[1..], gaps[1..]);
      WordsBehindGap(gaps[0], words[0] + rest);
      WordFirst(words[0], rest);
      WordsOfSpread(words[1..], gaps[1..]);
    }
  }

  lemma {:induction false} RefsOfWords<T>(pattern: (nat, string) -> Option<T>, words: seq<string>, refs: seq<T>)
    requires |words| == |refs| && forall i :: 0 <= i < |words| ==> RefsUpTo(pattern, words[i], 2) == [refs[i]]
    ensures RefsInWords(pattern, words) == refs
  {
    if words != [] {
      RefsOfWords(pattern, words[1..], refs[1..]);
    }
  }

  // ---- users ----

  predicate IsUser(user: UserReference) {
    AllIn(user.name, IsNameChar) && (user.id == "" || AllIn(user.id, IsIDChar))
  }

  /** How a user is mentioned: by name, or with an id as Slack writes it. */
  function Mention(user: UserReference): string {
    if user.id == "" then "@" + user.name else RefText(user.id, user.name)
  }

  lemma MentionFound(user: UserReference)
    requires IsUser(user)
    ensures IsWord(Mention(user)) && RefsUpTo(UserPattern, Mention(user), 2) == [user]
  {
    var w := Mention(user);
    NoUserHere(w);
    if user.id == "" {
      SpanOfRun(user.name, |user.name|, IsNameChar);
      assert w[1..] == user.name && user.name[..|user.name|] == user.name;
    } else {
      ReferenceMatches(user.id, user.name, "");
      assert w + "" == w;
      RefHasNoSpaces(user.id, user.name);
    }
    assert RefsUpTo(UserPattern, w, 0) == [];
    assert RefsUpTo(UserPattern, w, 1) == if MatchPlainUser(w).Some? then [MatchPlainUser(w).value] else [];
  }

  lemma RefHasNoSpaces(id: string, name: string)
    requires AllIn(id, IsIDChar) && AllIn(name, IsNameChar)
    ensures IsWord(RefText(id, name))
  {
  }

  function Mentions(users: seq<UserReference>): (words: seq<string>)
    ensures |words| == |users| && forall i :: 0 <= i < |users| ==> words[i] == Mention(users[i])
  {
    if users == [] then [] else [Mention(users[0])] + Mentions(users[1..])
  }

  /** Users mentioned in a message are found again in the escaped message: all of them, in order, and no others. */
  lemma UsersRoundTrip(users: seq<UserReference>, gaps: seq<string>)
    requires (forall i :: 0 <= i < |users| ==> IsUser(users[i])) && Separate(gaps, |users|)
    ensures UserRefs(Escaped(Spread(Mentions(users), gaps))) == users
  {
    var words := Mentions(users);
    forall i | 0 <= i < |users|
      ensures IsWord(words[i]) && RefsUpTo(UserPattern, words[i], 2) == [users[i]]
    {
      MentionFound(users[i]);
    }
    WordsOfSpread(words, gaps);
    RefsOfWords(UserPattern, words, users);
    EscapeKeepsUserReferences(Spread(words, gaps));
  }

  // ---- no word is found twice ----

  lemma UserPatternsExclude(w: string)
    ensures MatchPlainUser(w) == None || MatchEscapedUser(w) == None
  {
    if w != "" {
      NoUserHere(w);
    }
  }

  lemma RepositoryHasNoColon(w: string)
    requires MatchRepository(w).Some?
    ensures forall i :: 0 <= i < MatchRepository(w).value ==> w[i] != ':'
  {
    var a := Span(w, IsNameChar);
    assert forall k :: a < k < |w| ==> w[k] == w[a + 1..][k - a - 1];
  }

  lemma NumberHasNoColon(t: string)
    requires MatchNumber(t).Some?
    ensures forall i :: 0 <= i < |t| - 1 ==> t[i] != ':'
  {
    assert forall k :: 1 <= k < |t| ==> t[k] == t[1..][k - 1];
  }

  /** A pull request written the short way holds no colon, except perhaps as the one character behind it. */
  lemma ShortHasNoColon(w: string)
    requires MatchShortPullRequest(w).Some?
    ensures forall i :: 0 <= i < |w| - 1 ==> w[i] != ':'
  {
    var b := MatchRepository(w).value;
    RepositoryHasNoColon(w);
    NumberHasNoColon(w[b..]);
    assert forall k :: b <= k < |w| ==> w[k] == w[b..][k - b];
  }

  lemma LinkHasColon(w: string) returns (i: nat)
    requires AfterGitHub(w).Some?
    ensures i < |w| - 1 && w[i] == ':'
  {
    var a := if "<" <= w then 1 else 0;
    var u := AfterOptional("<", w)[4..];
    var b := if "s" <= u then 5 else 4;
    var v := AfterOptional("s", u);
    assert v == w[a + b..];
    assert v[..9] == "://github";
    i := a + b;
  }

  lemma PullRequestPatternsExclude(w: string)
    ensures MatchShortPullRequest(w) == None || MatchLinkPullRequest(w) == None
  {
    if AfterGitHub(w).Some? && MatchShortPullRequest(w).Some? {
      var i := LinkHasColon(w);
      ShortHasNoColon(w);
    }
  }

  lemma AtMostOne<T>(pattern: (nat, string) -> Option<T>, w: string)
    requires pattern(0, w) == None || pattern(1, w) == None
    ensures |RefsUpTo(pattern, w, 2)| <= 1
  {
    assert |RefsUpTo(pattern, w, 0)| == 0;
    assert |RefsUpTo(pattern, w, 1)| <= 1;
  }

  lemma {:induction false} OneEach<T>(pattern: (nat, string) -> Option<T>, words: seq<string>)
    requires forall w :: pattern(0, w) == None || pattern(1, w) == None
    ensures |RefsInWords(pattern, words)| <= |words|
  {
    if words != [] {
      AtMostOne(pattern, words[0]);
      OneEach(pattern, words[1..]);
    }
  }

  /** However a subject is written, no word of it counts as two references of a kind. */
  lemma NoWordCountsTwice(s: string)
    ensures |UserRefs(s)| <= |Words(s)| && |PullRequestRefs(s)| <= |Words(s)|
  {
    forall w
      ensures UserPattern(0, w) == None || UserPattern(1, w) == None
      ensures PullRequestPattern(0, w) == None || PullRequestPattern(1, w) == None
    {
      UserPatternsExclude(w);
      PullRequestPatternsExclude(w);
    }
    OneEach(UserPattern, Words(s));
    OneEach(PullRequestPattern, Words(s));
  }

  // ---- pull requests ----

  /** A pull request as it may be written: owner/repo#number, or the address of its page, perhaps in brackets. */
  datatype Form = Short | Address(scheme: string, bracketed: bool)

  datatype PullRequest = PullRequest(owner: string, repo: string, number: string, form: Form)

  predicate IsPullRequest(p: PullRequest) {
    AllIn(p.owner, IsNameChar) && AllIn(p.repo, IsNameChar) && AllIn(p.number, IsDigit)
    && (p.form.Address? ==> IsScheme(p.form.scheme))
  }

  function Repository(p: PullRequest): string { p.owner + ("/" + p.repo) }

  function Reference(p: PullRequest): PullRequestReference { PullRequestReference(p.number, Repository(p)) }

  const PULL := "/pull/"

  /** The address of the page behind its scheme. */
  function Page(p: PullRequest): string { "github.com/" + (Repository(p) + (PULL + p.number)) }

  function Written(p: PullRequest): string {
    match p.form
    case Short => Repository(p) + ("#" + p.number)
    case Address(h, bracketed) => if bracketed then "<" + ((h + Page(p)) + ">") else h + Page(p)
  }

  lemma RepositoryFound(p: PullRequest, rest: string)
    requires IsPullRequest(p) && rest != "" && !IsNameChar(rest[0])
    ensures MatchRepository(Repository(p) + rest) == Some(|Repository(p)|)
  {
    var w, a := Repository(p) + rest, |p.owner|;
    SpanOfRun(w, a, IsNameChar);
    assert w[a] == '/' && w[a + 1..] == p.repo + rest;
    SpanOfRun(p.repo + rest, |p.repo|, IsNameChar);
  }

  lemma NumberFound(number: string)
    requires AllIn(number, IsDigit)
    ensures MatchNumber("#" + number) == Some(|number|)
  {
    SpanOfRun(number, |number|, IsDigit);
    assert ("#" + number)[1..] == number;
  }

  lemma ShortParts(w: string, repository: string, number: string)
    requires w == repository + ("#" + number)
    requires MatchRepository(w) == Some(|repository|) && MatchNumber("#" + number) == Some(|number|)
    ensures MatchShortPullRequest(w) == Some(PullRequestReference(number, repository))
  {
    assert w[|repository|..] == "#" + number && w[..|repository|] == repository;
    assert ("#" + number)[1..] == number && number[..|number|] == number;
  }

  lemma ShortFound(p: PullRequest)
    requires IsPullRequest(p) && p.form == Short
    ensures MatchShortPullRequest(Written(p)) == Some(Reference(p))
  {
    RepositoryFound(p, "#" + p.number);
    NumberFound(p.number);
    ShortParts(Written(p), Repository(p), p.number);
  }

  lemma PullThere(number: string, close: string)
    requires AllIn(number, IsDigit) && close in {"", ">"}
    ensures PullSuffix(PULL + (number + close)) && Span((PULL + (number + close))[6..], IsDigit) == |number|
  {
    var t := number + close;
    SpanOfRun(t, |number|, IsDigit);
    assert (PULL + t)[6..] == t;
  }

  /** The pull suffix of a page is its last. */
  lemma NoPullBehind(number: string, close: string, k: nat)
    requires AllIn(number, IsDigit) && close in {"", ">"} && 0 < k < 6 + |number| + |close|
    ensures !PullSuffix((PULL + (number + close))[k..])
  {
    var r := PULL + (number + close);
    assert r[k..][0] == r[k];
    if r[k] == '/' {
      assert k == 5 && r[k..][1] == number[0];
    }
  }

  lemma DropFront(front: string, t: string, k: nat)
    requires k <= |t|
    ensures (front + t)[|front| + k..] == t[k..]
  {
  }

  lemma PullFollows(repository: string, number: string, close: string)
    requires AllIn(number, IsDigit) && close in {"", ">"}
    ensures var r := repository + (PULL + (number + close));
      LastPull(r).Some? && |repository| <= LastPull(r).value
  {
    var t := PULL + (number + close);
    PullThere(number, close);
    DropFront(repository, t, 0);
    assert t[0..] == t;
    LastPullIsLast(repository + t, |repository|);
  }

  lemma NoPullFollows(repository: string, number: string, close: string, j: nat)
    requires AllIn(number, IsDigit) && close in {"", ">"}
    requires |repository| < j < |repository| + 6 + |number| + |close|
    ensures !PullSuffix((repository + (PULL + (number + close)))[j..])
  {
    DropFront(repository, PULL + (number + close), j - |repository|);
    NoPullBehind(number, close, j - |repository|);
  }

  lemma LastPullOf(repository: string, number: string, close: string)
    requires AllIn(number, IsDigit) && close in {"", ">"}
    ensures LastPull(repository + (PULL + (number + close))) == Some(|repository|)
  {
    var r := repository + (PULL + (number + close));
    PullFollows(repository, number, close);
    LastPullIsThere(r);
    if LastPull(r).value > |repository| {
      NoPullFollows(repository, number, close, LastPull(r).value);
    }
  }

  lemma AfterConcat(p: string, r: string)
    ensures After(p, p + r) == Some(r) && AfterOptional(p, p + r) == r
  {
  }

  lemma AfterOther(p: string, w: string)
    requires p != "" && w != "" && p[0] != w[0]
    ensures AfterOptional(p, w) == w
  {
  }

  const HOST := "://github"

  lemma AfterScheme(s: string, r: string)
    requires s in {"", "s"}
    ensures AfterGitHub("http" + (s + (HOST + ("." + ("com/" + r))))) == Some(r)
  {
    var v := HOST + ("." + ("com/" + r));
    AfterOther("<", "http" + (s + v));
    AfterConcat("http", s + v);
    AfterOptionalOf("s", s, v);
    AfterConcat(HOST, "." + ("com/" + r));
    assert ("." + ("com/" + r))[1..] == "com/" + r;
    AfterConcat("com/", r);
  }

  lemma AfterOptionalOf(p: string, given: string, w: string)
    requires p != "" && given in {"", p} && w != "" && w[0] != p[0]
    ensures AfterOptional(p, given + w) == w
  {
    if given == "" {
      assert given + w == w;
      AfterOther(p, w);
    } else {
      AfterConcat(p, w);
    }
  }

  lemma AfterBracket(open: string, w: string)
    requires open in {"", "<"} && w != "" && w[0] != '<'
    ensures AfterGitHub(open + w) == AfterGitHub(w)
  {
    AfterOptionalOf("<", open, w);
    AfterOptionalOf("<", "", w);
    assert "" + w == w;
  }

  lemma HttpParts(r: string)
    ensures "http://" + ("github.com/" + r) == "http" + ("" + (HOST + ("." + ("com/" + r))))
  {
    assert "" + (HOST + ("." + ("com/" + r))) == HOST + ("." + ("com/" + r));
    assert "http://" + ("github.com/" + r) == "http" + (HOST + ("." + ("com/" + r)));
  }

  lemma HttpsParts(r: string)
    ensures "https://" + ("github.com/" + r) == "http" + ("s" + (HOST + ("." + ("com/" + r))))
  {
  }

  lemma SchemeParts(h: string, r: string)
    requires IsScheme(h)
    ensures h + ("github.com/" + r) == "http" + ((if h == "https://" then "s" else "") + (HOST + ("." + ("com/" + r))))
  {
    HttpParts(r);
    HttpsParts(r);
  }

  lemma AfterGitHubOf(h: string, open: string, r: string)
    requires IsScheme(h) && open in {"", "<"}
    ensures AfterGitHub(open + (h + ("github.com/" + r))) == Some(r)
  {
    SchemeParts(h, r);
    AfterScheme(if h == "https://" then "s" else "", r);
    assert (h + ("github.com/" + r))[0] == 'h';
    AfterBracket(open, h + ("github.com/" + r));
  }

  lemma LinkParts(w: string, repository: string, t: string, n: nat)
    requires AfterGitHub(w) == Some(repository + t) && LastPull(repository + t) == Some(|repository|)
    requires HasInnerSlash(repository) && |t| >= 6 && n == Span(t[6..], IsDigit)
    ensures MatchLinkPullRequest(w) == Some(PullRequestReference(t[6..][..n], repository))
  {
    assert (repository + t)[..|repository|] == repository && (repository + t)[|repository|..] == t;
  }

  lemma AddressFound(p: PullRequest, open: string, close: string)
    requires IsPullRequest(p) && p.form.Address? && open in {"", "<"} && close in {"", ">"}
    ensures MatchLinkPullRequest(open + (p.form.scheme + ("github.com/" + (Repository(p) + (PULL + (p.number + close))))))
      == Some(Reference(p))
  {
    var t := PULL + (p.number + close);
    AfterGitHubOf(p.form.scheme, open, Repository(p) + t);
    LastPullOf(Repository(p), p.number, close);
    PullThere(p.number, close);
    assert Repository(p)[|p.owner|] == '/';
    LinkParts(open + (p.form.scheme + ("github.com/" + (Repository(p) + t))), Repository(p), t, |p.number|);
    assert t[6..] == p.number + close && (p.number + close)[..|p.number|] == p.number;
  }

  lemma PageCloses(p: PullRequest, close: string)
    ensures Page(p) + close == "github.com/" + (Repository(p) + (PULL + (p.number + close)))
  {
    Associate(PULL, p.number, close);
    Associate(Repository(p), PULL + p.number, close);
    Associate("github.com/", Repository(p) + (PULL + p.number), close);
  }

  lemma AddressAsPattern(p: PullRequest)
    requires p.form.Address?
    ensures var open, close := if p.form.bracketed then "<" else "", if p.form.bracketed then ">" else "";
      Written(p) == open + (p.form.scheme + ("github.com/" + (Repository(p) + (PULL + (p.number + close)))))
  {
    var h := p.form.scheme;
    if p.form.bracketed {
      PageCloses(p, ">");
      Associate(h, Page(p), ">");
    } else {
      PageCloses(p, "");
      assert Page(p) + "" == Page(p) && "" + (h + Page(p)) == h + Page(p);
    }
  }

  /** Plain characters without any white space. */
  predicate Clean(s: string) {
    AllPlain(s) && Unbroken(s) && NoSpace(s)
  }

  lemma CleanJoin(a: string, b: string)
    requires Clean(a) && Clean(b)
    ensures Clean(a + b)
  {
  }

  lemma CleanNames(p: PullRequest)
    requires IsPullRequest(p)
    ensures Clean(p.owner) && Clean(p.repo) && Clean(p.number) && Clean("/") && Clean(PULL) && Clean("github.com/")
  {
  }

  lemma PageIsPlain(p: PullRequest)
    requires IsPullRequest(p)
    ensures Page(p) != "" && AllPlain(Page(p)) && Unbroken(Page(p)) && NoSpace(Page(p))
    ensures AllPlain(Repository(p)) && Unbroken(Repository(p))
  {
    CleanNames(p);
    CleanJoin("/", p.repo);
    CleanJoin(p.owner, "/" + p.repo);
    CleanJoin(PULL, p.number);
    CleanJoin(Repository(p), PULL + p.number);
    CleanJoin("github.com/", Repository(p) + (PULL + p.number));
  }

  lemma UnbrokenJoin(a: string, b: string)
    requires Unbroken(a) && Unbroken(b)
    ensures Unbroken(a + b)
  {
  }

  lemma SchemeIsPlain(h: string)
    requires IsScheme(h)
    ensures AllPlain(h) && Unbroken(h)
  {
  }

  lemma WrittenIsWord(p: PullRequest)
    requires IsPullRequest(p)
    ensures IsWord(Written(p))
  {
    PageIsPlain(p);
    match p.form {
      case Short =>
        assert Unbroken("#" + p.number);
        UnbrokenJoin(Repository(p), "#" + p.number);
      case Address(h, bracketed) =>
        SchemeIsPlain(h);
        UnbrokenJoin(h, Page(p));
        UnbrokenJoin(h + Page(p), ">");
        UnbrokenJoin("<", (h + Page(p)) + ">");
    }
  }

  lemma WrittenFound(p: PullRequest)
    requires IsPullRequest(p)
    ensures RefsUpTo(PullRequestPattern, Written(p), 2) == [Reference(p)]
  {
    var w := Written(p);
    PullRequestPatternsExclude(w);
    if p.form == Short {
      ShortFound(p);
    } else {
      AddressAsPattern(p);
      AddressFound(p, if p.form.bracketed then "<" else "", if p.form.bracketed then ">" else "");
    }
    assert RefsUpTo(PullRequestPattern, w, 0) == [];
    assert RefsUpTo(PullRequestPattern, w, 1) == if p.form == Short then [Reference(p)] else [];
  }

  /** A pull request is written the same way in the escaped message. */
  lemma EscapedWritten(p: PullRequest, rest: string)
    requires IsPullRequest(p)
    ensures Escaped(Written(p) + rest) == Written(p) + Escaped(rest)
  {
    PageIsPlain(p);
    match p.form {
      case Short =>
        assert AllPlain("#" + p.number);
        EscapedPlain(Written(p), rest);
      case Address(h, bracketed) =>
        SchemeIsPlain(h);
        if bracketed {
          EscapedPlainLink(h, Page(p), rest);
          BracketedThen(h + Page(p), rest);
          BracketedThen(h + Page(p), Escaped(rest));
        } else {
          EscapedPlain(Written(p), rest);
        }
    }
  }

  lemma BracketedThen(u: string, rest: string)
    ensures ("<" + (u + ">")) + rest == "<" + (u + (">" + rest))
  {
    Associate("<", u + ">", rest);
    Associate(u, ">", rest);
  }

  function AllWritten(prs: seq<PullRequest>): (words: seq<string>)
    ensures |words| == |prs| && forall i :: 0 <= i < |prs| ==> words[i] == Written(prs[i])
  {
    if prs == [] then [] else [Written(prs[0])] + AllWritten(prs[1..])
  }

  function AllReferences(prs: seq<PullRequest>): (refs: seq<PullRequestReference>)
    ensures |refs| == |prs| && forall i :: 0 <= i < |prs| ==> refs[i] == Reference(prs[i])
  {
    if prs == [] then [] else [Reference(prs[0])] + AllReferences(prs[1..])
  }

  lemma EscapedGap(g: string, rest: string)
    requires IsGap(g)
    ensures Escaped(g + rest) == g + Escaped(rest)
  {
    EscapedPlain(g, rest);
  }

  lemma {:induction false} EscapedSpread(prs: seq<PullRequest>, gaps: seq<string>)
    requires (forall i :: 0 <= i < |prs| ==> IsPullRequest(prs[i])) && Separate(gaps, |prs|)
    ensures Escaped(Spread(AllWritten(prs), gaps)) == Spread(AllWritten(prs), gaps)
  {
    if prs == [] {
      EscapedGap(gaps[0], "");
    } else {
      var rest := Spread(AllWritten(prs[1..]), gaps[1..]);
      assert AllWritten(prs)[1..] == AllWritten(prs[1..]);
      EscapedGap(gaps[0], Written(prs[0]) + rest);
      EscapedWritten(prs[0], rest);
      EscapedSpread(prs[1..], gaps[1..]);
    }
  }

  /** Pull requests written into a message are found again in the escaped message: all of them, in order, once each. */
  lemma PullRequestsRoundTrip(prs: seq<PullRequest>, gaps: seq<string>)
    requires (forall i :: 0 <= i < |prs| ==> IsPullRequest(prs[i])) && Separate(gaps, |prs|)
    ensures PullRequestRefs(Escaped(Spread(AllWritten(prs), gaps))) == AllReferences(prs)
  {
    var words := AllWritten(prs);
    forall i | 0 <= i < |prs|
      ensures IsWord(words[i]) && RefsUpTo(PullRequestPattern, words[i], 2) == [AllReferences(prs)[i]]
    {
      WrittenIsWord(prs[i]);
      WrittenFound(prs[i]);
    }
    EscapedSpread(prs, gaps);
    WordsOfSpread(words, gaps);
    RefsOfWords(PullRequestPattern, words, AllReferences(prs));
  }

  // ---- what escaping hides ----

  lemma NumberThen(number: string, x: string)
    requires AllIn(number, IsDigit) && x != "" && !IsDigit(x[0])
    ensures MatchNumber("#" + (number + x)) == if |x| == 1 && !IsLetter(x[0]) then Some(|number|) else None
  {
    var t := "#" + (number + x);
    assert t[1..] == number + x;
    SpanOfRun(number + x, |number|, IsDigit);
    assert t[1 + |number|] == x[0];
  }

  lemma NumberParts(repository: string, number: string, x: string)
    requires MatchRepository(repository + ("#" + (number + x))) == Some(|repository|)
    ensures MatchShortPullRequest(repository + ("#" + (number + x))) ==
      match MatchNumber("#" + (number + x))
      case Some(n) => Some(PullRequestReference((number + x)[..n], repository))
      case None => None
  {
    var w, t := repository + ("#" + (number + x)), "#" + (number + x);
    assert w[|repository|..] == t && w[..|repository|] == repository && t[1..] == number + x;
  }

  predicate NoColon(s: string) {
    forall i :: 0 <= i < |s| ==> s[i] != ':'
  }

  lemma NoColonNoLink(w: string)
    requires NoColon(w)
    ensures MatchLinkPullRequest(w) == None
  {
    if AfterGitHub(w).Some? {
      var i := LinkHasColon(w);
    }
  }

  lemma NoColonJoin(a: string, b: string)
    requires NoColon(a) && NoColon(b)
    ensures NoColon(a + b)
  {
  }

  lemma WrittenHasNoColon(p: PullRequest)
    requires IsPullRequest(p) && p.form == Short
    ensures NoColon(Written(p))
  {
    assert NoColon(p.owner) && NoColon(p.repo) && NoColon(p.number) && NoColon("/") && NoColon("#");
    NoColonJoin("/", p.repo);
    NoColonJoin(p.owner, "/" + p.repo);
    NoColonJoin("#", p.number);
    NoColonJoin(Repository(p), "#" + p.number);
  }

  lemma ShortWithTail(p: PullRequest, x: string)
    requires IsPullRequest(p) && x != "" && !IsDigit(x[0])
    ensures MatchShortPullRequest(Repository(p) + ("#" + (p.number + x))) ==
      if |x| == 1 && !IsLetter(x[0]) then Some(Reference(p)) else None
  {
    RepositoryFound(p, "#" + (p.number + x));
    NumberThen(p.number, x);
    NumberParts(Repository(p), p.number, x);
    assert (p.number + x)[..|p.number|] == p.number;
  }

  lemma ShortOnly(w: string)
    requires MatchLinkPullRequest(w) == None && IsWord(w)
    ensures PullRequestRefs(w) == match MatchShortPullRequest(w) case Some(r) => [r] case None => []
  {
    WordFirst(w, "");
    assert w + "" == w;
    RefsInWordsAppend(PullRequestPattern, [], [w]);
    assert RefsUpTo(PullRequestPattern, w, 0) == [];
    assert RefsUpTo(PullRequestPattern, w, 1) == match MatchShortPullRequest(w) case Some(r) => [r] case None => [];
  }

  /** A short reference with something behind it is found exactly if that is one character, and no letter. */
  lemma ShortThen(p: PullRequest, x: string)
    requires IsPullRequest(p) && p.form == Short
    requires x != "" && !IsDigit(x[0]) && Unbroken(x) && NoColon(x)
    ensures PullRequestRefs(Written(p) + x) == if |x| == 1 && !IsLetter(x[0]) then [Reference(p)] else []
  {
    var w := Written(p) + x;
    Associate(Repository(p), "#" + p.number, x);
    Associate("#", p.number, x);
    ShortWithTail(p, x);
    WrittenHasNoColon(p);
    NoColonJoin(Written(p), x);
    NoColonNoLink(w);
    WrittenIsWord(p);
    UnbrokenJoin(Written(p), x);
    ShortOnly(w);
  }

  lemma EscapedCharText(c: char)
    requires !IsPlain(c)
    ensures var x := EscapeChar(c); |x| > 1 && x[0] == '&' && Unbroken(x) && NoColon(x)
    ensures Unbroken([c]) && NoColon([c]) && !IsDigit(c) && !IsLetter(c)
  {
  }

  lemma EscapedCharAlone(c: char)
    requires !IsPlain(c)
    ensures Escaped([c]) == EscapeChar(c)
  {
    assert Behind([c]) == "";
    assert Lex([c]) == [First([c])];
    EscapedShowsItems([c]);
    LinkedTextOfOne(First([c]));
  }

  lemma LinkedTextOfOne(item: Item)
    ensures LinkedText([item]) == Show(item, InEscaped)
  {
    assert [item][1..] == [];
    assert InsideItems([]) == None;
  }

  /**
   * Not so for pull requests: one found in the message is missed in the escaped message
   * if the character behind it is one that is escaped.
   */
  lemma EscapeHidesPullRequest(p: PullRequest, c: char)
    requires IsPullRequest(p) && p.form == Short && !IsPlain(c)
    ensures PullRequestRefs(Written(p) + [c]) == [Reference(p)]
    ensures PullRequestRefs(Escaped(Written(p) + [c])) == []
  {
    EscapedWritten(p, [c]);
    EscapedCharAlone(c);
    EscapedCharText(c);
    ShortThen(p, [c]);
    ShortThen(p, EscapeChar(c));
  }
}

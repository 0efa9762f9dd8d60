/** deploy/references.go word by word: which words are references, written out. */
module WordForms {
  import opened Text
  import opened CharClasses
  import opened EscapeLaws
  import opened References
  import opened ReferenceLaws
  import RoundTrips

  // ---- users ----

  function UsersIn(w: string): seq<UserReference> { RefsUpTo(UserPattern, w, 2) }

  lemma UsersInParts(w: string)
    ensures UsersIn(w) ==
      match MatchPlainUser(w)
      case Some(user) => [user]
      case None => match MatchEscapedUser(w) case Some(user) => [user] case None => []
  {
    RoundTrips.UserPatternsExclude(w);
    assert RefsUpTo(UserPattern, w, 0) == [];
    assert RefsUpTo(UserPattern, w, 1) == match MatchPlainUser(w) case Some(user) => [user] case None => [];
  }

  /** Not a character of a name. */
  predicate EndsName(rest: string) {
    rest == "" || !IsName(rest[..1])
  }

  lemma EndsNameChar(rest: string)
    ensures EndsName(rest) <==> rest == "" || !IsNameChar(rest[0])
  {
    if rest != "" {
      NamesAre(rest[..1]);
    }
  }

  /** @name, whatever follows the name, is a user without an id. */
  lemma NameIsFound(name: string, rest: string)
    requires IsName(name) && EndsName(rest)
    ensures UsersIn("@" + name + rest) == [UserReference("", name)]
  {
    var w := "@" + name + rest;
    NamesAre(name);
    EndsNameChar(rest);
    assert w[1..] == name + rest;
    SpanOfRun(name + rest, |name|, IsNameChar);
    assert (name + rest)[..|name|] == name;
    UsersInParts(w);
  }

  /** <@id|name>, whatever follows, is a user with the id. */
  lemma ReferenceIsFound(id: string, name: string, rest: string)
    requires IsId(id) && IsName(name)
    ensures UsersIn("<@" + id + "|" + name + ">" + rest) == [UserReference(id, name)]
  {
    IdsAre(id);
    NamesAre(name);
    ReferenceText(id, name);
    RefTextIsFound(id, name, rest);
  }

  lemma RefTextIsFound(id: string, name: string, rest: string)
    requires AllIn(id, IsIDChar) && AllIn(name, IsNameChar)
    ensures UsersIn(RefText(id, name) + rest) == [UserReference(id, name)]
  {
    ReferenceMatches(id, name, rest);
    NoUserHere(RefText(id, name) + rest);
    UsersInParts(RefText(id, name) + rest);
  }

  lemma PlainUserParts(w: string, name: string, rest: string)
    requires w != "" && w[0] == '@' && name == w[1..][..Span(w[1..], IsNameChar)] && name != ""
    requires rest == w[1..][|name|..]
    ensures MatchPlainUser(w) == Some(UserReference("", name)) && w == "@" + name + rest
    ensures AllIn(name, IsNameChar) && (rest == "" || !IsNameChar(rest[0]))
  {
    assert w == [w[0]] + w[1..];
    CutAt(w[1..], |name|);
  }

  lemma FoundByName(w: string)
    requires MatchPlainUser(w).Some?
    ensures var name := MatchPlainUser(w).value.name;
      MatchPlainUser(w).value.id == "" && IsName(name) && "@" + name <= w && EndsName(w[1 + |name|..])
  {
    var n := Span(w[1..], IsNameChar);
    var name, rest := w[1..][..n], w[1..][n..];
    PlainUserParts(w, name, rest);
    DropFront("@" + name, rest);
    NamesAre(name);
    EndsNameChar(rest);
  }

  lemma DropFront(a: string, b: string)
    ensures (a + b)[|a|..] == b && a <= a + b
  {
  }

  lemma ReferenceText(id: string, name: string)
    ensures "<@" + id + "|" + name + ">" == RefText(id, name)
  {
  }

  lemma FoundById(w: string)
    requires MatchEscapedUser(w).Some?
    ensures var user := MatchEscapedUser(w).value;
      IsId(user.id) && IsName(user.name) && "<@" + user.id + "|" + user.name + ">" <= w
  {
    var user := MatchEscapedUser(w).value;
    EscapedUserMatches(w, user);
    IdsAre(user.id);
    NamesAre(user.name);
    ReferenceText(user.id, user.name);
  }

  /** Only words of these two forms are users. */
  lemma OnlyMentionsAreFound(w: string, user: UserReference)
    requires user in UsersIn(w)
    ensures UsersIn(w) == [user] && IsName(user.name)
    ensures if user.id == "" then "@" + user.name <= w && EndsName(w[1 + |user.name|..])
            else IsId(user.id) && "<@" + user.id + "|" + user.name + ">" <= w
  {
    UsersInParts(w);
    if MatchPlainUser(w).Some? {
      FoundByName(w);
    } else {
      FoundById(w);
    }
  }

  // ---- pull requests, written the short way ----

  predicate IsNumber(s: string) {
    s != "" && forall i :: 0 <= i < |s| ==> s[i] in DIGITS
  }

  lemma NumbersAre(s: string)
    ensures IsNumber(s) <==> AllIn(s, IsDigit)
  {
    forall i | 0 <= i < |s|
      ensures IsDigit(s[i]) <==> s[i] in DIGITS
    {
      DigitsAre(s[i]);
    }
  }

  /** What may stand behind the number: one character that is no letter. */
  predicate IsTail(x: string) {
    x == "" || (|x| == 1 && x[0] !in CAPITALS && x[0] !in SMALL_LETTERS && x[0] !in DIGITS)
  }

  lemma TailIs(x: string)
    requires IsTail(x)
    ensures |x| <= 1 && (x != "" ==> !IsLetter(x[0]) && !IsDigit(x[0]))
  {
    if x != "" {
      LettersAre(x[0]);
      DigitsAre(x[0]);
    }
  }

  lemma ShortText(owner: string, repo: string, number: string, x: string)
    ensures owner + "/" + repo == owner + ("/" + repo)
    ensures owner + "/" + repo + "#" + number + x == owner + ("/" + repo) + ("#" + (number + x))
  {
  }

  lemma ShortIsFound(owner: string, repo: string, number: string, x: string)
    requires IsName(owner) && IsName(repo) && IsNumber(number) && IsTail(x)
    ensures MatchShortPullRequest(owner + "/" + repo + "#" + number + x) ==
      Some(PullRequestReference(number, owner + "/" + repo))
  {
    NamesAre(owner);
    NamesAre(repo);
    NumbersAre(number);
    TailIs(x);
    ShortText(owner, repo, number, x);
    ShortOfParts(owner, repo, number, x);
  }

  lemma ShortOfParts(owner: string, repo: string, number: string, x: string)
    requires AllIn(owner, IsNameChar) && AllIn(repo, IsNameChar) && AllIn(number, IsDigit)
    requires |x| <= 1 && (x != "" ==> !IsLetter(x[0]) && !IsDigit(x[0]))
    ensures MatchShortPullRequest(owner + ("/" + repo) + ("#" + (number + x))) ==
      Some(PullRequestReference(number, owner + ("/" + repo)))
  {
    var p := RoundTrips.PullRequest(owner, repo, number, RoundTrips.Short);
    var t := "#" + (number + x);
    RoundTrips.RepositoryFound(p, t);
    NumberWithTail(number, x);
    assert t[1..] == number + x;
    ShortMatch(owner + ("/" + repo) + t, owner + ("/" + repo), number, t);
  }

  lemma NumberWithTail(number: string, x: string)
    requires AllIn(number, IsDigit) && |x| <= 1 && (x != "" ==> !IsLetter(x[0]) && !IsDigit(x[0]))
    ensures MatchNumber("#" + (number + x)) == Some(|number|)
  {
    var t := "#" + (number + x);
    assert t[1..] == number + x;
    SpanOfRun(number + x, |number|, IsDigit);
  }

  lemma ShortMatch(w: string, repository: string, number: string, t: string)
    requires w == repository + t && |t| > |number| && t[1..][..|number|] == number
    requires MatchRepository(w) == Some(|repository|) && MatchNumber(t) == Some(|number|)
    ensures MatchShortPullRequest(w) == Some(PullRequestReference(number, repository))
  {
    assert w[|repository|..] == t && w[..|repository|] == repository;
  }

  lemma RepositoryHasForm(w: string) returns (owner: string, repo: string)
    requires MatchRepository(w).Some?
    ensures AllIn(owner, IsNameChar) && AllIn(repo, IsNameChar) && w[..MatchRepository(w).value] == owner + "/" + repo
  {
    var a := Span(w, IsNameChar);
    var n := Span(w[a + 1..], IsNameChar);
    owner, repo := w[..a], w[a + 1..][..n];
    assert w[..a + 1 + n] == w[..a] + [w[a]] + w[a + 1..][..n];
  }

  lemma NumberHasForm(t: string) returns (x: string)
    requires MatchNumber(t).Some?
    ensures var number := t[1..][..MatchNumber(t).value];
      AllIn(number, IsDigit) && |x| <= 1 && (x != "" ==> !IsLetter(x[0])) && t == "#" + number + x
  {
    var n := Span(t[1..], IsDigit);
    x := t[1..][n..];
    assert t == [t[0]] + t[1..][..n] + t[1..][n..];
  }

  lemma ShortHasForm(w: string) returns (owner: string, repo: string, x: string)
    requires MatchShortPullRequest(w).Some?
    ensures var ref := MatchShortPullRequest(w).value;
      && AllIn(owner, IsNameChar) && AllIn(repo, IsNameChar) && AllIn(ref.id, IsDigit)
      && |x| <= 1 && (x != "" ==> !IsLetter(x[0]))
      && ref.repository == owner + "/" + repo && w == owner + "/" + repo + ("#" + ref.id + x)
  {
    var b := MatchRepository(w).value;
    owner, repo := RepositoryHasForm(w);
    x := NumberHasForm(w[b..]);
    CutAt(w, b);
  }

  lemma Concat(a: string, b: string, c: string, d: string)
    ensures a + (b + c + d) == a + b + c + d
  {
  }

  /** Only words of this form are pull requests written the short way. */
  lemma OnlyShortIsFound(w: string) returns (owner: string, repo: string, x: string)
    requires MatchShortPullRequest(w).Some?
    ensures var ref := MatchShortPullRequest(w).value;
      && IsName(owner) && IsName(repo) && IsNumber(ref.id) && ref.repository == owner + "/" + repo
      && |x| <= 1 && (x != "" ==> x[0] !in CAPITALS && x[0] !in SMALL_LETTERS)
      && w == owner + "/" + repo + "#" + ref.id + x
  {
    owner, repo, x := ShortHasForm(w);
    var id := MatchShortPullRequest(w).value.id;
    Concat(owner + "/" + repo, "#", id, x);
    NamesAre(owner);
    NamesAre(repo);
    NumbersAre(id);
    if x != "" {
      LettersAre(x[0]);
    }
  }

  // ---- pull requests, written as the address of their page ----

  /** What may stand behind the number in an address. */
  predicate EndsAddress(x: string) {
    x == "" || x[0] == '?' || x[0] == '#' || x[0] == '>'
  }

  lemma PullSuffixOf(number: string, x: string)
    requires AllIn(number, IsDigit) && EndsAddress(x)
    ensures var t := "/pull/" + (number + x);
      PullSuffix(t) && Span(t[6..], IsDigit) == |number| && t[6..][..|number|] == number && |t| >= 6
  {
    SpanOfRun(number + x, |number|, IsDigit);
    assert ("/pull/" + (number + x))[6..] == number + x;
  }

  lemma PullSuffixOccurs(r: string, k: nat)
    requires k <= |r| && PullSuffix(r[k..])
    ensures OccursAt(r, k, "/pull/")
  {
    assert r[k..][..6] == r[k..k + 6];
  }

  lemma OccursBehind(a: string, x: string, k: nat, pat: string)
    requires OccursAt(a + x, k, pat) && |a| <= k
    ensures Contains(x, pat)
  {
    assert OccursAt(x, k - |a|, pat);
  }

  lemma FirstTwoOf(t: string, k: nat)
    requires OccursAt(t, k, "/pull/")
    ensures t[k] == '/' && t[k + 1] == 'p'
  {
    assert t[k..k + 6][0] == '/' && t[k..k + 6][1] == 'p';
  }

  lemma NoSlashInNumber(number: string, x: string, k: nat)
    requires AllIn(number, IsDigit) && 0 < k < 6 + |number|
    ensures !OccursAt("/pull/" + (number + x), k, "/pull/")
  {
    var t := "/pull/" + (number + x);
    assert forall i :: 0 <= i < |number| ==> t[6 + i] == number[i];
    if OccursAt(t, k, "/pull/") {
      FirstTwoOf(t, k);
    }
  }

  lemma NoPullBehind(number: string, x: string, k: nat)
    requires AllIn(number, IsDigit) && !Contains(x, "/pull/") && 0 < k <= 6 + |number| + |x|
    ensures !PullSuffix(("/pull/" + (number + x))[k..])
  {
    var t := "/pull/" + (number + x);
    if PullSuffix(t[k..]) {
      PullSuffixOccurs(t, k);
      if k < 6 + |number| {
        NoSlashInNumber(number, x, k);
      } else {
        assert t == ("/pull/" + number) + x;
        OccursBehind("/pull/" + number, x, k, "/pull/");
      }
    }
  }

  lemma LastPullOf(repository: string, t: string)
    requires PullSuffix(t) && forall k :: 0 < k <= |t| ==> !PullSuffix(t[k..])
    ensures LastPull(repository + t) == Some(|repository|)
  {
    var r, n := repository + t, |repository|;
    DropFront(repository, t);
    LastPullIsLast(r, n);
    LastPullIsThere(r);
    var j := LastPull(r).value;
    assert r[j..] == t[j - n..];
  }

  lemma HostIsPassed(s: string, dot: char, r: string)
    requires s in {"", "s"}
    ensures AfterHost("http" + (s + ("://github" + ([dot] + ("com/" + r))))) == Some(r)
  {
    var v := "://github" + ([dot] + ("com/" + r));
    RoundTrips.AfterConcat("http", s + v);
    RoundTrips.AfterOptionalOf("s", s, v);
    RoundTrips.AfterConcat("://github", [dot] + ("com/" + r));
    assert ([dot] + ("com/" + r))[1..] == "com/" + r;
    RoundTrips.AfterConcat("com/", r);
  }

  lemma GitHubIsPassed(open: string, u: string, r: string)
    requires open in {"", "<"} && u != "" && u[0] == 'h' && AfterHost(u) == Some(r)
    ensures AfterGitHub(open + u) == Some(r)
  {
    RoundTrips.AfterOptionalOf("<", open, u);
  }

  lemma AddressText(open: string, s: string, dot: char, repository: string, number: string, x: string)
    ensures open + "http" + s + "://github" + [dot] + "com/" + repository + "/pull/" + number + x ==
      open + ("http" + (s + ("://github" + ([dot] + ("com/" + (repository + ("/pull/" + (number + x))))))))
  {
    var r := repository + ("/pull/" + (number + x));
    Concat(repository, "/pull/", number, x);
    Concat(open + "http" + s, "://github", [dot] + "com/", r);
    assert "com/" + r == "com/" + repository + "/pull/" + number + x;
    assert [dot] + ("com/" + r) == [dot] + "com/" + repository + "/pull/" + number + x;
  }

  /** An address with whatever scheme, brackets, query or fragment, and any character for the dot of the host. */
  lemma AddressIsFound(open: string, s: string, dot: char, repository: string, number: string, x: string)
    requires open in {"", "<"} && s in {"", "s"} && IsNumber(number) && EndsAddress(x) && !Contains(x, "/pull/")
    requires exists i :: 1 <= i < |repository| - 1 && repository[i] == '/'
    ensures MatchLinkPullRequest(open + "http" + s + "://github" + [dot] + "com/" + repository + "/pull/" + number + x) ==
      Some(PullRequestReference(number, repository))
  {
    var t := "/pull/" + (number + x);
    var u := "http" + (s + ("://github" + ([dot] + ("com/" + (repository + t)))));
    NumbersAre(number);
    AddressText(open, s, dot, repository, number, x);
    HostIsPassed(s, dot, repository + t);
    GitHubIsPassed(open, u, repository + t);
    PullSuffixOf(number, x);
    forall k | 0 < k <= |t| ensures !PullSuffix(t[k..]) { NoPullBehind(number, x, k); }
    LastPullOf(repository, t);
    RoundTrips.LinkParts(open + u, repository, t, |number|);
  }

  lemma AfterIs(p: string, w: string)
    requires After(p, w).Some?
    ensures w == p + After(p, w).value
  {
  }

  lemma AfterHostParts(w: string, u: string, v: string, x: string)
    requires After("http", w) == Some(u) && AfterOptional("s", u) == v && After("://github", v) == Some(x)
    ensures AfterHost(w) == AfterDomain(x)
  {
  }

  lemma AfterOptionalIs(p: string, u: string) returns (given: string)
    ensures given in {"", p} && u == given + AfterOptional(p, u)
  {
    given := if p <= u then p else "";
  }

  lemma DomainHasForm(x: string)
    requires AfterDomain(x).Some?
    ensures x == [x[0]] + ("com/" + AfterDomain(x).value)
  {
    AfterIs("com/", x[1..]);
  }

  lemma HostHasForm(w: string) returns (s: string, dot: char)
    requires AfterHost(w).Some?
    ensures s in {"", "s"} && w == "http" + (s + ("://github" + ([dot] + ("com/" + AfterHost(w).value))))
  {
    var u := After("http", w).value;
    var v := AfterOptional("s", u);
    var x := After("://github", v).value;
    AfterHostParts(w, u, v, x);
    AfterIs("http", w);
    s := AfterOptionalIs("s", u);
    AfterIs("://github", v);
    DomainHasForm(x);
    dot := x[0];
  }

  lemma GitHubHasForm(w: string) returns (open: string, s: string, dot: char)
    requires AfterGitHub(w).Some?
    ensures open in {"", "<"} && s in {"", "s"}
    ensures w == open + ("http" + (s + ("://github" + ([dot] + ("com/" + AfterGitHub(w).value)))))
  {
    open := if "<" <= w then "<" else "";
    s, dot := HostHasForm(AfterOptional("<", w));
    assert w == open + AfterOptional("<", w);
  }

  lemma PullHasForm(t: string) returns (x: string)
    requires PullSuffix(t)
    ensures var number := t[6..][..Span(t[6..], IsDigit)];
      AllIn(number, IsDigit) && EndsAddress(x) && t == "/pull/" + (number + x)
  {
    var n := Span(t[6..], IsDigit);
    x := t[6..][n..];
    CutAt(t, 6);
    CutAt(t[6..], n);
  }

  /** Only words of this form are pull requests written as an address. */
  lemma OnlyAddressIsFound(w: string) returns (open: string, s: string, dot: char, x: string)
    requires MatchLinkPullRequest(w).Some?
    ensures var ref := MatchLinkPullRequest(w).value;
      && open in {"", "<"} && s in {"", "s"} && IsNumber(ref.id) && EndsAddress(x)
      && (exists i :: 1 <= i < |ref.repository| - 1 && ref.repository[i] == '/')
      && w == open + "http" + s + "://github" + [dot] + "com/" + ref.repository + "/pull/" + ref.id + x
  {
    var r := AfterGitHub(w).value;
    var j := LastPull(r).value;
    var ref := MatchLinkPullRequest(w).value;
    LastPullIsThere(r);
    open, s, dot := GitHubHasForm(w);
    x := PullHasForm(r[j..]);
    CutAt(r, j);
    NumbersAre(ref.id);
    AddressText(open, s, dot, ref.repository, ref.id, x);
  }
}

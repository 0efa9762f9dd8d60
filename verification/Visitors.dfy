/** auth/channel_authorizer.go and auth/token_authenticator.go, request by request: which page is asked for, and every answer. */
module Visitors {
  import opened Text
  import opened Clock
  import opened Access

  // ---- the channel of a page ----

  predicate Has(s: string, c: char) {
    exists i :: 0 <= i < |s| && s[i] == c
  }

  lemma {:induction false} FirstIndex(a: string, c: char, b: string)
    requires !Has(a, c)
    ensures IndexOf(a + [c] + b, c) == |a| && IndexOf(a, c) == |a|
  {
    var s := a + [c] + b;
    if a != "" {
      assert a[0] != c && s[0] == a[0];
      assert s[1..] == a[1..] + [c] + b;
      assert forall i :: 0 <= i < |a[1..]| ==> a[1..][i] == a[i + 1];
      FirstIndex(a[1..], c, b);
    }
  }

  lemma {:induction false} LastIndex(a: string, c: char, b: string)
    requires !Has(b, c)
    ensures AfterLast(a + [c] + b, c) == |a| + 1
  {
    var s := a + [c] + b;
    if b != "" {
      assert b[|b| - 1] != c && s[|s| - 1] == b[|b| - 1];
      assert s[..|s| - 1] == a + [c] + b[..|b| - 1];
      assert forall i :: 0 <= i < |b| - 1 ==> b[..|b| - 1][i] == b[i];
      LastIndex(a, c, b[..|b| - 1]);
    }
  }

  lemma {:induction false} NoLastIndex(b: string, c: char)
    requires !Has(b, c)
    ensures AfterLast(b, c) == 0
  {
    if b != "" {
      assert b[|b| - 1] != c;
      assert forall i :: 0 <= i < |b| - 1 ==> b[..|b| - 1][i] == b[i];
      NoLastIndex(b[..|b| - 1], c);
    }
  }

  /** The path, with or without a leading slash. */
  predicate IsPath(path: string, p: string) {
    path == "/" + p || (path == p && (p == "" || p[0] != '/'))
  }

  /** What stands before the first slash, */
  lemma ChannelBeforeSlash(path: string, ch: string, rest: string)
    requires IsPath(path, ch + "/" + rest) && !Has(ch, '/')
    ensures ChannelID(path) == ch
  {
    FirstIndex(ch, '/', rest);
  }

  /** or without one before the last dot, */
  lemma ChannelBeforeDot(path: string, ch: string, extension: string)
    requires IsPath(path, ch + "." + extension) && !Has(ch, '/') && !Has(extension, '/') && !Has(extension, '.')
    ensures ChannelID(path) == ch
  {
    var p := ch + "." + extension;
    assert !Has(p, '/') by {
      assert forall i :: 0 <= i < |p| ==> p[i] == if i < |ch| then ch[i] else if i == |ch| then '.' else extension[i - |ch| - 1];
    }
    FirstIndex(p, '/', "");
    LastIndex(ch, '.', extension);
  }

  /** or without either all of it. */
  lemma ChannelIsPath(path: string, ch: string)
    requires IsPath(path, ch) && !Has(ch, '/') && !Has(ch, '.')
    ensures ChannelID(path) == ch
  {
    FirstIndex(ch, '/', "");
    NoLastIndex(ch, '.');
  }

  // ---- the token of a request ----

  lemma TokenInHeader(r: Request, token: string)
    requires r.authorization == "Bearer " + token && token != ""
    ensures TokenOf(r) == token
  {
  }

  lemma TokenInForm(r: Request)
    requires forall token :: token != "" ==> r.authorization != "Bearer " + token
    ensures TokenOf(r) == r.formToken
  {
    if BEARER < r.authorization {
      assert r.authorization == "Bearer " + r.authorization[7..];
    }
  }

  // ---- the answer ----

  /** The answer to a visitor with a cookie of this server: by the age of the cookie, and of its grant for the channel. */
  ghost function LineageAnswer(mints: seq<Mint>, id: nat, ch: string, now: Time, later: Time): Response
    requires ParentsComeFirst(mints) && id < |mints|
  {
    if now / 1_000_000_000 > (mints[id].at + THIRTY_DAYS) / 1_000_000_000 then Refused(ErrExpiredToken)
    else
      match LatestGrant(mints, id, ch)
      case None => Refused(ErrNoChannelAccess)
      case Some(g) => if later > mints[g].at + THIRTY_DAYS then Refused(ErrExpiredChannelAccess) else Dashboard(ch)
  }

  lemma SignedIsParsed(mints: seq<Mint>, id: nat, now: Time, clock: Time)
    requires WellMinted(mints, clock) && clock <= now && 0 < now && id < |mints|
    ensures ParseClaims(Signed(id), mints, now) ==
      if now / 1_000_000_000 > (mints[id].at + THIRTY_DAYS) / 1_000_000_000 then Invalid(ErrExpiredToken)
      else Valid(mints[id].claims)
  {
    assert Outlives(mints[id], clock);
    UnixMonotone(mints[id].at, now);
  }

  lemma SignedIsAnswered(mints: seq<Mint>, r: Request, clock: Time)
    requires WellMinted(mints, clock) && clock <= r.now <= r.later && 0 < r.now
    requires ChannelID(r.path) != "" && r.cookie.Signed? && r.cookie.id < |mints|
    ensures Authorize(r, mints) == LineageAnswer(mints, r.cookie.id, ChannelID(r.path), r.now, r.later)
  {
    SignedIsParsed(mints, r.cookie.id, r.now, clock);
    assert ClaimsTellLineage(mints, r.cookie.id);
  }

  /** Times in the claims of a cookie made elsewhere. */
  predicate OutOfTime(c: Claims, now: Time) {
    (c.expiresAt != 0 && now / 1_000_000_000 > c.expiresAt) || (c.notBefore != 0 && now / 1_000_000_000 < c.notBefore)
  }

  lemma OthersAreAnswered(mints: seq<Mint>, r: Request)
    ensures ChannelID(r.path) == "" ==> Authorize(r, mints) == NotFound
    ensures ChannelID(r.path) != "" ==>
      match r.cookie
      case NoCookie => Authorize(r, mints) == Unauthorized
      case Garbage => Authorize(r, mints) == ServerError
      case ForeignMethod => Authorize(r, mints) == Refused(ErrInvalidSigningMethod)
      case Forged(c) => Authorize(r, mints) == Refused(if OutOfTime(c, r.now) then ErrExpiredToken else ErrInvalidToken)
      case Signed(_) => true
  {
  }

  /** A cookie signed by a clock that was ahead of this one is not accepted yet, though nothing tells the visitor so. */
  lemma FutureCookieFails(mints: seq<Mint>, r: Request)
    requires ChannelID(r.path) != "" && r.cookie.Signed? && r.cookie.id < |mints|
    requires var c := mints[r.cookie.id].claims; !OutOfTime(c, r.now) && c.issuedAt != 0 && r.now / 1_000_000_000 < c.issuedAt
    ensures Authorize(r, mints) == ServerError
  {
  }

  /** Without a live token a request changes nothing, and after any run its answer is this. */
  lemma VisitorIsAnswered(steps: seq<Step>, r: Request)
    requires Orderly(steps) && 0 < r.now <= r.later && ClockAfter(steps) <= r.now
    requires ChannelID(r.path) == "" || TokenOf(r) == "" || TokenOf(r) !in Run(steps).tokens
    ensures var s, ch := Run(steps), ChannelID(r.path); var (s', answer) := Serve(s, r);
      && s' == s && ParentsComeFirst(s.mints)
      && if ch == "" then answer == NotFound
         else
           match r.cookie
           case NoCookie => answer == Unauthorized
           case Garbage => answer == ServerError
           case ForeignMethod => answer == Refused(ErrInvalidSigningMethod)
           case Forged(c) => answer == Refused(if OutOfTime(c, r.now) then ErrExpiredToken else ErrInvalidToken)
           case Signed(id) => id < |s.mints| ==> answer == LineageAnswer(s.mints, id, ch, r.now, r.later)
  {
    var s := Run(steps);
    EveryRunIsWellMinted(steps);
    OthersAreAnswered(s.mints, r);
    if ChannelID(r.path) != "" && r.cookie.Signed? && r.cookie.id < |s.mints| {
      SignedIsAnswered(s.mints, r, ClockAfter(steps));
    }
  }

  /** A live token is used up, and pays for one new cookie that opens the channel from now on. */
  lemma TokenIsRedeemed(s: Server, r: Request)
    requires ChannelID(r.path) != "" && TokenOf(r) != "" && TokenOf(r) in s.tokens
    ensures var (s', answer) := Serve(s, r);
      && s'.tokens == s.tokens - {TokenOf(r)} && |s'.mints| == |s.mints| + 1 && s.mints <= s'.mints
      && answer == Redirect(Signed(|s.mints|))
      && var m := s'.mints[|s.mints|];
         && m.channel == ChannelID(r.path) && m.at == r.later && m.token == TokenOf(r)
         && m.channel in m.claims.channels && m.claims.channels[m.channel] == r.later + THIRTY_DAYS
  {
  }
}

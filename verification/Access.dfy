/**
 * auth/token_authenticator.go, auth/channel_authorizer.go and auth/channel_access_token.go on values: who gets to see
 * the history of a channel. A signed cookie is an ideal record: only the server can make one.
 */
module Access {
  import opened Text
  import opened Clock

  const SECOND: Time := 1_000_000_000

  /** time.Time.Unix */
  function Unix(t: Time): int { t / SECOND }

  /** 30 days */
  const EXPIRATION_PERIOD: Time := 30 * 24 * 3600 * SECOND

  /** Times in seconds, but for the channels, which keep full precision. A zero time is not set. */
  datatype Claims = Claims(issuedAt: int, expiresAt: int, notBefore: int, channels: map<string, Time>)

  /** The making of a cookie: the claims signed, the cookie they were taken from, and the grant that was added. */
  datatype Mint = Mint(claims: Claims, parent: Option<nat>, channel: string, at: Time, token: string)

  /** What a request may bring as its cookie. */
  datatype Cookie =
    | NoCookie
    | Garbage                 // not a token at all
    | ForeignMethod           // signed with something other than HMAC
    | Forged(claims: Claims)  // an HMAC by somebody else
    | Signed(id: nat)         // mint number id of this server

  datatype AuthError =
    | ErrInvalidSigningMethod
    | ErrExpiredToken
    | ErrInvalidToken
    | ErrNoChannelAccess
    | ErrExpiredChannelAccess
    | OtherError

  datatype Parsed = Valid(claims: Claims) | Invalid(error: AuthError)

  /** StandardClaims.Valid of the JWT library: section 4.1.4 of RFC 7519 and its neighbours, now in seconds. */
  predicate Expired(c: Claims, now: int) { c.expiresAt != 0 && now > c.expiresAt }
  predicate UsedBeforeIssued(c: Claims, now: int) { c.issuedAt != 0 && now < c.issuedAt }
  predicate NotValidYet(c: Claims, now: int) { c.notBefore != 0 && now < c.notBefore }

  /** ParseChannelAccessTokenClaims, given all the cookies the server ever signed. */
  function ParseClaims(cookie: Cookie, mints: seq<Mint>, now: Time): Parsed {
    match cookie
    case NoCookie => Invalid(OtherError)
    case Garbage => Invalid(OtherError)
    case ForeignMethod => Invalid(ErrInvalidSigningMethod)
    case Forged(c) =>
      if Expired(c, Unix(now)) || NotValidYet(c, Unix(now)) then Invalid(ErrExpiredToken) else Invalid(ErrInvalidToken)
    case Signed(id) =>
      if id >= |mints| then Invalid(OtherError)
      else
        var c := mints[id].claims;
        if Expired(c, Unix(now)) || NotValidYet(c, Unix(now)) then Invalid(ErrExpiredToken)
        else if UsedBeforeIssued(c, Unix(now)) then Invalid(OtherError)
        else Valid(c)
  }

  /** ChannelAuthorizer.checkAccess; the clock is read by the library and then again. */
  function CheckAccess(ch: string, cookie: Cookie, mints: seq<Mint>, now: Time, later: Time): Option<AuthError> {
    match ParseClaims(cookie, mints, now)
    case Invalid(e) => Some(e)
    case Valid(c) =>
      if ch !in c.channels then Some(ErrNoChannelAccess)
      else if later > c.channels[ch] then Some(ErrExpiredChannelAccess)
      else None
  }

  // ---- the two middlewares ----

  /** A request for a page, with the readings of the clock made while serving it. */
  datatype Request = Request(
    path: string, authorization: string, formToken: string, cookie: Cookie, now: Time, later: Time)

  datatype Response =
    | NotFound
    | Unauthorized
    | Refused(error: AuthError)
    | ServerError
    | Dashboard(channel: string)   // the request reaches the dashboard
    | Redirect(cookie: Cookie)     // access granted: back to the page, with a new cookie

  /** The first index of c in s, or |s|. */
  function IndexOf(s: string, c: char): (i: nat)
    ensures i <= |s|
  {
    if s == "" || s[0] == c then 0 else 1 + IndexOf(s[1..], c)
  }

  /** One more than the last index of c in s, or 0. */
  function AfterLast(s: string, c: char): (i: nat)
    ensures i <= |s|
  {
    if s == "" then 0 else if s[|s| - 1] == c then |s| else AfterLast(s[..|s| - 1], c)
  }

  /** dashboard.ChannelIDFromRequest */
  function ChannelID(path: string): string {
    var p := if "/" <= path then path[1..] else path;
    if IndexOf(p, '/') < |p| then p[..IndexOf(p, '/')]
    else if AfterLast(p, '.') > 0 then p[..AfterLast(p, '.') - 1]
    else p
  }

  const BEARER := "Bearer "

  /** The one-time token of a request: from the header, or else from the form. */
  function TokenOf(r: Request): string {
    var header := if BEARER < r.authorization then r.authorization[|BEARER|..] else "";
    if header != "" then header else r.formToken
  }

  /** ChannelAuthorizer.ServeHTTP */
  function Authorize(r: Request, mints: seq<Mint>): Response {
    var ch := ChannelID(r.path);
    if ch == "" then NotFound
    else if r.cookie == NoCookie then Unauthorized
    else
      match CheckAccess(ch, r.cookie, mints, r.now, r.later)
      case None => Dashboard(ch)
      case Some(OtherError) => ServerError
      case Some(e) => Refused(e)
  }

  /** The server: the outstanding one-time tokens and the cookies signed so far. */
  datatype Server = Server(tokens: set<string>, mints: seq<Mint>)

  const NEW_SERVER := Server({}, [])

  /** grantChannelAccess: the claims of an acceptable cookie are extended, any other cookie is forgotten. */
  function Grant(mints: seq<Mint>, ch: string, token: string, cookie: Cookie, now: Time, later: Time): Mint {
    var parsed := ParseClaims(cookie, mints, now);
    var old_ := if parsed.Valid? then parsed.claims else Claims(0, 0, 0, map[]);
    var expires := later + EXPIRATION_PERIOD;
    Mint(old_.(issuedAt := Unix(later), expiresAt := Unix(expires), channels := old_.channels[ch := expires]),
         if parsed.Valid? then Some(cookie.id) else None, ch, later, token)
  }

  /** ChannelAuthenticator.ServeHTTP */
  function Serve(s: Server, r: Request): (Server, Response) {
    var ch := ChannelID(r.path);
    var token := TokenOf(r);
    if ch == "" || token == "" || token !in s.tokens then (s, Authorize(r, s.mints))
    else
      (Server(s.tokens - {token}, s.mints + [Grant(s.mints, ch, token, r.cookie, r.now, r.later)]),
       Redirect(Signed(|s.mints|)))
  }

  // ---- runs ----

  /** The bot issues a token that is not outstanding, or a request is served. */
  datatype Step = Issue(token: string) | Visit(r: Request)

  function Run(steps: seq<Step>): Server {
    if steps == [] then NEW_SERVER
    else
      var s := Run(steps[..|steps| - 1]);
      match steps[|steps| - 1]
      case Issue(token) => s.(tokens := s.tokens + {token})
      case Visit(r) => Serve(s, r).0
  }

  /** All tokens issued in a run, as often as they were issued. */
  function Issued(steps: seq<Step>): multiset<string> {
    if steps == [] then multiset{}
    else
      Issued(steps[..|steps| - 1]) +
      (if steps[|steps| - 1].Issue? then multiset{steps[|steps| - 1].token} else multiset{})
  }

  /** Tokens are issued only when not outstanding, and the clock never goes back. */
  ghost predicate Orderly(steps: seq<Step>) {
    && (forall i :: 0 <= i < |steps| && steps[i].Issue? ==> steps[i].token !in Run(steps[..i]).tokens)
    && (forall i :: 0 <= i < |steps| && steps[i].Visit? ==> 0 < steps[i].r.now <= steps[i].r.later)
    && forall i, j :: 0 <= i < j < |steps| && steps[i].Visit? && steps[j].Visit? ==> steps[i].r.later <= steps[j].r.now
  }

  /** The time of the last visit. */
  function ClockAfter(steps: seq<Step>): Time {
    if steps == [] then 0
    else if steps[|steps| - 1].Visit? then steps[|steps| - 1].r.later
    else ClockAfter(steps[..|steps| - 1])
  }

  // ---- the lineage of a cookie ----

  ghost predicate ParentsComeFirst(mints: seq<Mint>) {
    forall i :: 0 <= i < |mints| && mints[i].parent.Some? ==> mints[i].parent.value < i
  }

  /** Going back from mint i to the cookie it extended, and so on: the first grant for the channel. */
  ghost function LatestGrant(mints: seq<Mint>, i: nat, ch: string): (g: Option<nat>)
    requires i < |mints| && ParentsComeFirst(mints)
    ensures g.Some? ==> g.value <= i && mints[g.value].channel == ch
  {
    if mints[i].channel == ch then Some(i)
    else if mints[i].parent.Some? then LatestGrant(mints, mints[i].parent.value, ch)
    else None
  }

  /** The cookie opens exactly the channels granted in its lineage, each until 30 days after its latest grant. */
  ghost predicate ClaimsTellLineage(mints: seq<Mint>, i: nat)
    requires i < |mints| && ParentsComeFirst(mints)
  {
    forall ch ::
      && (ch in mints[i].claims.channels <==> LatestGrant(mints, i, ch).Some?)
      && (ch in mints[i].claims.channels ==>
            mints[i].claims.channels[ch] == mints[LatestGrant(mints, i, ch).value].at + EXPIRATION_PERIOD)
  }

  /** The times in a cookie: it outlives all its grants, by less than a second. */
  ghost predicate Outlives(m: Mint, clock: Time) {
    && 0 < m.at <= clock
    && m.claims.issuedAt == Unix(m.at) && m.claims.expiresAt == Unix(m.at + EXPIRATION_PERIOD) && m.claims.notBefore == 0
    && m.channel in m.claims.channels && m.claims.channels[m.channel] == m.at + EXPIRATION_PERIOD
    && forall ch :: ch in m.claims.channels ==>
         m.claims.channels[ch] <= m.at + EXPIRATION_PERIOD < (m.claims.expiresAt + 1) * SECOND
  }

  ghost predicate WellMinted(mints: seq<Mint>, clock: Time) {
    && ParentsComeFirst(mints)
    && forall i :: 0 <= i < |mints| ==> ClaimsTellLineage(mints, i) && Outlives(mints[i], clock)
  }

  lemma {:induction false} LatestGrantAppend(mints: seq<Mint>, m: Mint, i: nat, ch: string)
    requires i < |mints| && ParentsComeFirst(mints) && ParentsComeFirst(mints + [m])
    ensures LatestGrant(mints + [m], i, ch) == LatestGrant(mints, i, ch)
  {
    assert (mints + [m])[i] == mints[i];
    if mints[i].channel != ch && mints[i].parent.Some? {
      LatestGrantAppend(mints, m, mints[i].parent.value, ch);
    }
  }

  lemma UnixBounds(t: Time)
    ensures Unix(t) * SECOND <= t < (Unix(t) + 1) * SECOND
  {
  }

  lemma UnixMonotone(t: Time, u: Time)
    requires t <= u
    ensures Unix(t) <= Unix(u)
  {
  }

  lemma GrantOutlives(mints: seq<Mint>, ch: string, token: string, cookie: Cookie, now: Time, later: Time, clock: Time)
    requires WellMinted(mints, clock) && clock <= now <= later && 0 < now
    ensures Outlives(Grant(mints, ch, token, cookie, now, later), later)
  {
    UnixBounds(later + EXPIRATION_PERIOD);
  }

  lemma GrantTellsLineage(mints: seq<Mint>, ch: string, token: string, cookie: Cookie, now: Time, later: Time, clock: Time)
    requires WellMinted(mints, clock)
    ensures var mints' := mints + [Grant(mints, ch, token, cookie, now, later)];
      ParentsComeFirst(mints') && ClaimsTellLineage(mints', |mints|)
  {
    var m := Grant(mints, ch, token, cookie, now, later);
    var mints' := mints + [m];
    assert ParentsComeFirst(mints');
    forall c
      ensures c in m.claims.channels <==> LatestGrant(mints', |mints|, c).Some?
      ensures c in m.claims.channels ==>
        m.claims.channels[c] == mints'[LatestGrant(mints', |mints|, c).value].at + EXPIRATION_PERIOD
    {
      if c != ch && m.parent.Some? {
        assert ClaimsTellLineage(mints, m.parent.value);
        LatestGrantAppend(mints, m, m.parent.value, c);
      }
    }
  }

  lemma LineageIsKept(mints: seq<Mint>, m: Mint, i: nat)
    requires i < |mints| && ParentsComeFirst(mints) && ParentsComeFirst(mints + [m]) && ClaimsTellLineage(mints, i)
    ensures ClaimsTellLineage(mints + [m], i)
  {
    var mints' := mints + [m];
    forall c
      ensures LatestGrant(mints', i, c) == LatestGrant(mints, i, c)
    {
      LatestGrantAppend(mints, m, i, c);
    }
    assert forall j :: 0 <= j < |mints| ==> mints'[j] == mints[j];
  }

  lemma GrantKeepsWellMinted(mints: seq<Mint>, ch: string, token: string, cookie: Cookie, now: Time, later: Time, clock: Time)
    requires WellMinted(mints, clock) && clock <= now <= later && 0 < now
    ensures WellMinted(mints + [Grant(mints, ch, token, cookie, now, later)], later)
  {
    var m := Grant(mints, ch, token, cookie, now, later);
    GrantOutlives(mints, ch, token, cookie, now, later, clock);
    GrantTellsLineage(mints, ch, token, cookie, now, later, clock);
    AppendKeepsWellMinted(mints, m, clock, later);
  }

  lemma AppendKeepsWellMinted(mints: seq<Mint>, m: Mint, clock: Time, later: Time)
    requires WellMinted(mints, clock) && clock <= later && ParentsComeFirst(mints + [m])
    requires ClaimsTellLineage(mints + [m], |mints|) && Outlives(m, later)
    ensures WellMinted(mints + [m], later)
  {
    var mints' := mints + [m];
    forall i | 0 <= i < |mints'|
      ensures ClaimsTellLineage(mints', i)
      ensures Outlives(mints'[i], later)
    {
      if i < |mints| {
        LineageIsKept(mints, m, i);
        OutlivesLater(mints[i], clock, later);
      }
    }
  }

  lemma OutlivesLater(m: Mint, clock: Time, later: Time)
    requires Outlives(m, clock) && clock <= later
    ensures Outlives(m, later)
  {
  }

  lemma {:induction false} EveryRunIsWellMinted(steps: seq<Step>)
    requires Orderly(steps)
    ensures WellMinted(Run(steps).mints, ClockAfter(steps)) && ClockAfter(steps) >= 0
  {
    if steps != [] {
      var n := |steps| - 1;
      OrderlyPrefix(steps);
      EveryRunIsWellMinted(steps[..n]);
      var s := Run(steps[..n]);
      if steps[n].Visit? {
        var r := steps[n].r;
        ClockIsLastVisit(steps[..n]);
        GrantKeepsWellMinted(s.mints, ChannelID(r.path), TokenOf(r), r.cookie, r.now, r.later, ClockAfter(steps[..n]));
      }
    }
  }

  lemma OrderlyPrefix(steps: seq<Step>)
    requires steps != [] && Orderly(steps)
    ensures Orderly(steps[..|steps| - 1])
  {
    var n := |steps| - 1;
    assert forall i :: 0 <= i < n ==> steps[..n][i] == steps[i] && steps[..n][..i] == steps[..i];
  }

  lemma {:induction false} ClockIsLastVisit(steps: seq<Step>)
    ensures ClockAfter(steps) == 0 || exists i :: 0 <= i < |steps| && steps[i].Visit? && steps[i].r.later == ClockAfter(steps)
  {
    if steps != [] && !steps[|steps| - 1].Visit? {
      ClockIsLastVisit(steps[..|steps| - 1]);
    }
  }

  // ---- who gets through ----

  /** Some earlier visit for the channel redeemed the token, live then, at that time. */
  ghost predicate Redeemed(steps: seq<Step>, ch: string, token: string, at: Time) {
    exists j :: 0 <= j < |steps| && steps[j].Visit? && ChannelID(steps[j].r.path) == ch && ch != ""
      && TokenOf(steps[j].r) == token && token in Run(steps[..j]).tokens && steps[j].r.later == at
  }

  lemma RedeemedBefore(steps: seq<Step>, ch: string, token: string, at: Time)
    requires steps != [] && Redeemed(steps[..|steps| - 1], ch, token, at)
    ensures Redeemed(steps, ch, token, at)
  {
    var prefix := steps[..|steps| - 1];
    var j :| 0 <= j < |prefix| && prefix[j].Visit? && ChannelID(prefix[j].r.path) == ch && ch != ""
      && TokenOf(prefix[j].r) == token && token in Run(prefix[..j]).tokens && prefix[j].r.later == at;
    assert prefix[..j] == steps[..j] && prefix[j] == steps[j];
  }

  lemma {:induction false} EveryMintIsRedeemed(steps: seq<Step>, i: nat)
    requires i < |Run(steps).mints|
    ensures var m := Run(steps).mints[i]; Redeemed(steps, m.channel, m.token, m.at)
  {
    var prefix := steps[..|steps| - 1];
    if i < |Run(prefix).mints| {
      EveryMintIsRedeemed(prefix, i);
      var m := Run(prefix).mints[i];
      RedeemedBefore(steps, m.channel, m.token, m.at);
    } else {
      assert steps[|steps| - 1].Visit?;
    }
  }

  /** 30 days in nanoseconds. */
  const THIRTY_DAYS: Time := 2_592_000_000_000_000

  /** The cookie of a live lineage: the latest grant for the channel is no more than 30 days old. */
  ghost predicate LiveGrant(mints: seq<Mint>, cookie: Cookie, ch: string, now: Time)
    requires ParentsComeFirst(mints)
  {
    && cookie.Signed? && cookie.id < |mints|
    && LatestGrant(mints, cookie.id, ch).Some?
    && now <= mints[LatestGrant(mints, cookie.id, ch).value].at + THIRTY_DAYS
  }

  lemma CheckAccessIff(mints: seq<Mint>, cookie: Cookie, ch: string, now: Time, later: Time, clock: Time)
    requires WellMinted(mints, clock) && clock <= now <= later && 0 < now
    ensures CheckAccess(ch, cookie, mints, now, later) == None <==> LiveGrant(mints, cookie, ch, later)
  {
    if cookie.Signed? && cookie.id < |mints| {
      var m := mints[cookie.id];
      assert Outlives(m, clock) && ClaimsTellLineage(mints, cookie.id);
      UnixMonotone(m.at, now);
      UnixMonotone(now, later);
      UnixBounds(later);
      UnixBounds(m.at + EXPIRATION_PERIOD);
    }
  }

  /**
   * A request reaches the dashboard of a channel exactly if it asks for that channel, redeems no token, and brings a
   * cookie of this server in whose lineage the channel was granted no more than 30 days ago.
   */
  lemma DashboardIff(steps: seq<Step>, r: Request, ch: string)
    requires Orderly(steps) && 0 < r.now <= r.later && ClockAfter(steps) <= r.now
    ensures WellMinted(Run(steps).mints, ClockAfter(steps))
    ensures Serve(Run(steps), r).1 == Dashboard(ch) <==>
      && ch != "" && ch == ChannelID(r.path)
      && (TokenOf(r) == "" || TokenOf(r) !in Run(steps).tokens)
      && LiveGrant(Run(steps).mints, r.cookie, ch, r.later)
  {
    EveryRunIsWellMinted(steps);
    CheckAccessIff(Run(steps).mints, r.cookie, ChannelID(r.path), r.now, r.later, ClockAfter(steps));
  }

  /**
   * In particular the latest grant for the channel in the lineage of that cookie was paid for with a one-time token,
   * live then, by an earlier visit for the channel at most 30 days before.
   */
  lemma DashboardNeedsToken(steps: seq<Step>, r: Request, ch: string)
    requires Orderly(steps) && 0 < r.now <= r.later && ClockAfter(steps) <= r.now
    requires Serve(Run(steps), r).1 == Dashboard(ch)
    ensures ParentsComeFirst(Run(steps).mints) && LiveGrant(Run(steps).mints, r.cookie, ch, r.later)
    ensures var mints := Run(steps).mints;
      var grant := mints[LatestGrant(mints, r.cookie.id, ch).value];
      r.later <= grant.at + THIRTY_DAYS && Redeemed(steps, ch, grant.token, grant.at)
  {
    DashboardIff(steps, r, ch);
    var g := LatestGrant(Run(steps).mints, r.cookie.id, ch).value;
    EveryMintIsRedeemed(steps, g);
  }

  // ---- one grant at a time ----

  /** The tokens the grants were made for. */
  function TokensOf(mints: seq<Mint>): multiset<string> {
    if mints == [] then multiset{} else TokensOf(mints[..|mints| - 1]) + multiset{mints[|mints| - 1].token}
  }

  lemma TokensOfAppend(mints: seq<Mint>, m: Mint)
    ensures TokensOf(mints + [m]) == TokensOf(mints) + multiset{m.token}
  {
    assert (mints + [m])[..|mints|] == mints;
  }

  lemma OneMore(tokens: set<string>, token: string)
    requires token !in tokens
    ensures multiset(tokens + {token}) == multiset(tokens) + multiset{token}
  {
  }

  lemma VisitBalances(s: Server, r: Request)
    ensures var s' := Serve(s, r).0;
      TokensOf(s'.mints) + multiset(s'.tokens) == TokensOf(s.mints) + multiset(s.tokens)
  {
    var s' := Serve(s, r).0;
    var token := TokenOf(r);
    if ChannelID(r.path) != "" && token != "" && token in s.tokens {
      TokensOfAppend(s.mints, s'.mints[|s.mints|]);
      assert multiset(s.tokens) == multiset(s.tokens - {token}) + multiset{token};
    }
  }

  /** Every token issued has paid for one grant or is still outstanding. */
  lemma {:induction false} TokensBalance(steps: seq<Step>)
    requires Orderly(steps)
    ensures Issued(steps) == TokensOf(Run(steps).mints) + multiset(Run(steps).tokens)
  {
    if steps != [] {
      var n := |steps| - 1;
      var s := Run(steps[..n]);
      OrderlyPrefix(steps);
      TokensBalance(steps[..n]);
      match steps[n] {
        case Issue(token) => OneMore(s.tokens, token);
        case Visit(r) => VisitBalances(s, r);
      }
    }
  }

  lemma {:induction false} TokensOfSize(mints: seq<Mint>)
    ensures |TokensOf(mints)| == |mints|
  {
    if mints != [] {
      TokensOfSize(mints[..|mints| - 1]);
    }
  }

  /** So there are never more grants than tokens issued. */
  lemma GrantsAreBounded(steps: seq<Step>)
    requires Orderly(steps)
    ensures |Run(steps).mints| <= |Issued(steps)|
  {
    TokensBalance(steps);
    TokensOfSize(Run(steps).mints);
  }

  // ---- what a grant changes ----

  predicate Opens(cookie: Cookie, ch: string, mints: seq<Mint>, t: Time) {
    CheckAccess(ch, cookie, mints, t, t) == None
  }

  /**
   * The new cookie opens the granted channel for 30 days, and every other channel exactly when the old cookie would
   * have: nothing is lost, even when the old cookie is forgotten because it has expired.
   */
  lemma GrantAddsOneChannel(mints: seq<Mint>, ch: string, token: string, cookie: Cookie, now: Time, later: Time,
                            clock: Time, c: string, t: Time)
    requires WellMinted(mints, clock) && clock <= now <= later <= t && 0 < now
    ensures var mints' := mints + [Grant(mints, ch, token, cookie, now, later)];
      Opens(Signed(|mints|), c, mints', t) <==>
      if c == ch then t <= later + THIRTY_DAYS else Opens(cookie, c, mints, t)
  {
    GrantOutlives(mints, ch, token, cookie, now, later, clock);
    OpensUntil(mints + [Grant(mints, ch, token, cookie, now, later)], |mints|, c, later, t);
    if cookie.Signed? && cookie.id < |mints| {
      OldCookieOpens(mints, cookie.id, now, clock, c, t);
    }
  }

  /** At a later time the old cookie opens a channel exactly if it is acceptable now and still names the channel then. */
  lemma OldCookieOpens(mints: seq<Mint>, id: nat, now: Time, clock: Time, c: string, t: Time)
    requires WellMinted(mints, clock) && clock <= now <= t && 0 < now && id < |mints|
    ensures Opens(Signed(id), c, mints, t) <==>
      ParseClaims(Signed(id), mints, now).Valid? && c in mints[id].claims.channels && t <= mints[id].claims.channels[c]
  {
    assert Outlives(mints[id], clock);
    OpensUntil(mints, id, c, clock, t);
    UnixMonotone(now, t);
    UnixMonotone(mints[id].at, now);
  }

  /** A cookie of this server opens a channel exactly until the time it names for it. */
  lemma OpensUntil(mints: seq<Mint>, id: nat, c: string, clock: Time, t: Time)
    requires id < |mints| && Outlives(mints[id], clock) && clock <= t
    ensures Opens(Signed(id), c, mints, t) <==>
      c in mints[id].claims.channels && t <= mints[id].claims.channels[c]
  {
    var m := mints[id];
    UnixMonotone(m.at, t);
    UnixBounds(t);
    UnixBounds(m.at + EXPIRATION_PERIOD);
  }
}

/** auth/token_authenticator.go with the one-time tokens it redeems: the middleware that hands out cookies. */
module Authenticator {
  import opened Text
  import opened Clock
  import Tokens
  import opened Access

  class ChannelAuthenticator {
    const auth: Tokens.OneTimeTokenAuthenticator
    /** What the secret has signed so far. */
    var mints: seq<Mint>

    ghost function State(): Server
      reads this, auth
    {
      Server(auth.tokens, mints)
    }

    constructor (auth: Tokens.OneTimeTokenAuthenticator)
      ensures this.auth == auth && mints == []
    {
      this.auth, mints := auth, [];
    }

    method ServeHTTP(r: Request) returns (response: Response)
      requires auth.Valid()
      modifies this, auth`tokens, auth`redeemed
      ensures auth.Valid()
      ensures (State(), response) == Serve(old(State()), r)
    {
      var channelID := ChannelID(r.path);
      if channelID == "" {
        return Authorize(r, mints);
      }
      var token := TokenOf(r);
      if token == "" {
        return Authorize(r, mints);
      }
      var ok := auth.Authenticate(token);
      if !ok {
        assert auth.tokens == old(auth.tokens);
        return Authorize(r, mints);
      }
      var cookie := GrantChannelAccess(channelID, token, r.cookie, r.now, r.later);
      return Redirect(cookie);
    }

    /** Extends the claims of the cookie the request came with, or fresh ones, and signs them. */
    method GrantChannelAccess(channelID: string, token: string, cookie: Cookie, now: Time, later: Time) returns (signed: Cookie)
      requires channelID != ""
      modifies this`mints
      ensures signed == Signed(|old(mints)|)
      ensures mints == old(mints) + [Grant(old(mints), channelID, token, cookie, now, later)]
    {
      var claims := Claims(0, 0, 0, map[]);
      var parent := None;
      if cookie != NoCookie {
        var existing := ParseClaims(cookie, mints, now);
        if existing.Valid? {
          claims, parent := existing.claims, Some(cookie.id);
        }
      }
      var expirationTime := later + EXPIRATION_PERIOD;
      claims := claims.(issuedAt := Unix(later));
      claims := claims.(expiresAt := Unix(expirationTime));
      claims := claims.(channels := claims.channels[channelID := expirationTime]);
      signed := Signed(|mints|);
      mints := mints + [Mint(claims, parent, channelID, later, token)];
    }

    /** The bot asking for a token, as a step of the access protocol. */
    method IssueToken(tokenLen: int) returns (token: string, ok: bool)
      requires auth.Valid()
      modifies auth, auth.gen
      ensures auth.Valid() && mints == old(mints)
      ensures ok ==> token !in old(State()).tokens && State() == old(State()).(tokens := old(State()).tokens + {token})
      ensures !ok ==> State() == old(State())
    {
      token, ok := auth.IssueToken(tokenLen);
    }
  }
}

/** The logout handler: the token presented in the Authorization header, if
    the ledger holds it, gets both flags set and is saved. Nothing else in
    the ledger changes, and a missing, malformed or unknown token is no
    error. */
module Logout {
  import opened Wrappers
  import opened Jwt
  import opened Headers
  import opened Users
  import opened Roles
  import opened Tokens
  import opened Authentication

  /** The rows once the token with the given string has both flags set. */
  function RevokeToken(rows: seq<TokenRow>, token: string): (r: seq<TokenRow>)
    ensures |r| == |rows|
    ensures forall i | 0 <= i < |rows| :: r[i] == if rows[i].token == token then Revoked(rows[i]) else rows[i]
  {
    seq(|rows|, i requires 0 <= i < |rows| => if rows[i].token == token then Revoked(rows[i]) else rows[i])
  }

  /** logout on the ledger's rows. */
  function LogoutRows(rows: seq<TokenRow>, header: Option<string>): seq<TokenRow> {
    match BearerToken(header)
    case None => rows
    case Some(token) => RevokeToken(rows, token)
  }

  /** A logout keeps every row's string and owner; afterwards a row is valid
      exactly when it was valid before and does not carry the presented
      token. So a header without a bearer token, or with a token the ledger
      does not hold, changes nothing. */
  lemma LogoutValidity(rows: seq<TokenRow>, header: Option<string>)
    ensures var after := LogoutRows(rows, header);
            |after| == |rows| &&
            forall i | 0 <= i < |rows| ::
              after[i].token == rows[i].token && after[i].owner == rows[i].owner &&
              (after[i].IsValid() <==> rows[i].IsValid() && BearerToken(header) != Some(rows[i].token))
    ensures BearerToken(header).None? ==> LogoutRows(rows, header) == rows
    ensures BearerToken(header).Some? && (forall i | 0 <= i < |rows| :: rows[i].token != BearerToken(header).value) ==>
              LogoutRows(rows, header) == rows
  {
    if BearerToken(header).Some? {
      var token := BearerToken(header).value;
      if forall i | 0 <= i < |rows| :: rows[i].token != token {
        assert RevokeToken(rows, token) == rows;
      }
    }
  }

  /** Logging out twice with the same header is logging out once. */
  lemma LogoutIdempotent(rows: seq<TokenRow>, header: Option<string>)
    ensures LogoutRows(LogoutRows(rows, header), header) == LogoutRows(rows, header)
  {
    if BearerToken(header).Some? {
      var token := BearerToken(header).value;
      var once := RevokeToken(rows, token);
      assert RevokeToken(once, token) == once;
    }
  }

  /** Logout keeps the token strings unique and the two flags in agreement. */
  lemma LogoutKeepsInvariants(rows: seq<TokenRow>, header: Option<string>)
    ensures UniqueRows(rows) ==> UniqueRows(LogoutRows(rows, header))
    ensures FlagsAgree(rows) ==> FlagsAgree(LogoutRows(rows, header))
  {
    LogoutValidity(rows, header);
  }

  /** Logging out with the access token a sign-in returned leaves the user
      with no valid token, and every other user with the valid tokens they
      had before the sign-in (token strings being unique, as the column
      is). */
  lemma LogoutAfterSignIn(cfg: JwtSettings, now: nat, us: seq<User>, rs: seq<Role>, rows: seq<TokenRow>,
                          email: string, password: string, passwordMatches: (string, string) -> bool,
                          other: UserId)
    requires UniqueRows(rows)
    requires SignInOutcome(cfg, now, us, rs, rows, email, password, passwordMatches).1.Success?
    ensures var user := Authenticate(us, rs, email, password, passwordMatches).value;
            var (signedIn, response) := SignInOutcome(cfg, now, us, rs, rows, email, password, passwordMatches);
            var after := LogoutRows(signedIn, Some(BearerPrefix + response.value.accessToken));
            ValidRows(after, user.id) == [] &&
            (other != user.id ==> ValidRows(after, other) == ValidRows(rows, other))
  {
    var user := Authenticate(us, rs, email, password, passwordMatches).value;
    var signedIn := SignInOutcome(cfg, now, us, rs, rows, email, password, passwordMatches).0;
    SignInLeavesOneValidToken(cfg, now, us, rs, rows, email, password, passwordMatches, other);
    SupersedeKeepsUnique(rows, user.id, GenerateAccessToken(cfg, now, email));
    LogoutSoleValidToken(signedIn, user.id, GenerateAccessToken(cfg, now, email), other);
  }

  /** Logging out with a user's only valid token leaves the user none and,
      the token strings being unique, every other user what they had. */
  lemma LogoutSoleValidToken(rows: seq<TokenRow>, user: UserId, token: string, other: UserId)
    requires UniqueRows(rows)
    requires ValidRows(rows, user) == [IssuedRow(token, user)]
    ensures var after := LogoutRows(rows, Some(BearerPrefix + token));
            ValidRows(after, user) == [] &&
            (other != user ==> ValidRows(after, other) == ValidRows(rows, other))
  {
    BearerRoundTrip(token);
    var after := RevokeToken(rows, token);
    ValidRowsDropToken(rows, after, token, user);
    ValidRowsDropToken(rows, after, token, other);
    if other != user {
      OthersDoNotHoldToken(rows, user, token, other);
      NoRowWithToken(ValidRows(rows, other), token);
    }
  }

  /** Under unique strings, a token valid for one user is valid for no other. */
  lemma OthersDoNotHoldToken(rows: seq<TokenRow>, user: UserId, token: string, other: UserId)
    requires UniqueRows(rows) && other != user
    requires IssuedRow(token, user) in rows
    ensures forall x | x in ValidRows(rows, other) :: x.token != token
  {
    var j :| 0 <= j < |rows| && rows[j] == IssuedRow(token, user);
    forall x | x in ValidRows(rows, other)
      ensures x.token != token
    {
      var k :| 0 <= k < |rows| && rows[k] == x;
      assert k != j;
    }
  }

  /** The valid rows of a user once one token string has been revoked: the
      valid rows before, without that string. */
  lemma {:induction false} ValidRowsDropToken(rows: seq<TokenRow>, after: seq<TokenRow>, token: string, user: UserId)
    requires |after| == |rows|
    requires forall i | 0 <= i < |rows| :: after[i] == if rows[i].token == token then Revoked(rows[i]) else rows[i]
    ensures ValidRows(after, user) == WithoutToken(ValidRows(rows, user), token)
  {
    if rows != [] {
      ValidRowsDropToken(rows[1..], after[1..], token, user);
    }
  }

  /** The rows not carrying the given string. */
  function WithoutToken(rows: seq<TokenRow>, token: string): (r: seq<TokenRow>)
    ensures forall x :: x in r <==> x in rows && x.token != token
  {
    if rows == [] then []
    else if rows[0].token == token then WithoutToken(rows[1..], token)
    else [rows[0]] + WithoutToken(rows[1..], token)
  }

  lemma {:induction false} NoRowWithToken(rows: seq<TokenRow>, token: string)
    requires forall x | x in rows :: x.token != token
    ensures WithoutToken(rows, token) == rows
  {
    if rows != [] {
      NoRowWithToken(rows[1..], token);
    }
  }

  class LogoutHandler {
    const tokens: TokenLedger

    constructor (tokens: TokenLedger)
      ensures this.tokens == tokens
    {
      this.tokens := tokens;
    }

    /** LogoutHandlerImpl.logout: look the presented token up, set both
        flags on the stored object and save it. */
    method Logout(header: Option<string>)
      requires tokens.Valid()
      modifies tokens, tokens.rows
      ensures tokens.Valid() && tokens.rows == old(tokens.rows)
      ensures tokens.Contents() == LogoutRows(old(tokens.Contents()), header)
    {
      var presented := BearerToken(header);
      if presented.None? {
        return;
      }
      var stored := tokens.GetToken(presented.value);
      if stored.None? {
        assert RevokeToken(tokens.Contents(), presented.value) == tokens.Contents();
        return;
      }
      var t := stored.value;
      ghost var before := tokens.Contents();
      t.SetExpired(true);
      t.SetRevoked(true);
      RevokedStoredToken(tokens.rows, before, t);
      var saved := tokens.SaveToken(t);
    }
  }

  /** The rows of the ledger's tokens once one stored token has had both
      flags set in place. */
  lemma RevokedStoredToken(ts: seq<Token>, before: seq<TokenRow>, t: Token)
    requires UniqueTokens(ts) && t in ts && |ts| == |before|
    requires forall k | 0 <= k < |ts| :: before[k].token == ts[k].token
    requires forall k | 0 <= k < |ts| :: ts[k].Row() == if ts[k] == t then Revoked(before[k]) else before[k]
    ensures Rows(ts) == RevokeToken(before, t.token)
  {
    UniqueTokensDistinct(ts);
  }
}

/** AuthenticationService: sign-up, sign-in and refresh. Sign-in and refresh
    share one supersession step: every valid token of the user is revoked,
    then the new access token is recorded. Refresh tokens are handed out but
    never recorded. */
module Authentication {
  import opened Wrappers
  import opened Jwt
  import opened Errors
  import opened Headers
  import opened Users
  import opened Roles
  import opened Tokens

  /** The access and refresh token returned to the client. */
  datatype AuthResponse = AuthResponse(accessToken: string, refreshToken: string)

  // ---------------------------------------------------------------------
  // Supersession, on the ledger's rows

  /** A row after revokeAllUserTokens for `user`. */
  function RevokeIfValid(row: TokenRow, user: UserId): TokenRow {
    if row.owner == user && row.IsValid() then Revoked(row) else row
  }

  /** revokeAllUserTokens on rows: both flags set on every valid token of
      the user; no row removed and no other row changed. */
  function RevokeAll(rows: seq<TokenRow>, user: UserId): (r: seq<TokenRow>)
    ensures |r| == |rows|
    ensures forall i | 0 <= i < |rows| :: r[i].token == rows[i].token && r[i].owner == rows[i].owner
    ensures forall i | 0 <= i < |rows| && rows[i].owner != user :: r[i] == rows[i]
    ensures forall i | 0 <= i < |rows| && !(rows[i].owner == user && rows[i].IsValid()) :: r[i] == rows[i]
    ensures forall i | 0 <= i < |rows| && rows[i].owner == user && rows[i].IsValid() :: r[i] == Revoked(rows[i])
  {
    seq(|rows|, i requires 0 <= i < |rows| => RevokeIfValid(rows[i], user))
  }

  /** After revocation the user has no valid token, and every other user
      keeps exactly the valid tokens they had. */
  lemma {:induction false} RevokeAllValidRows(rows: seq<TokenRow>, user: UserId, other: UserId)
    ensures ValidRows(RevokeAll(rows, user), user) == []
    ensures other != user ==> ValidRows(RevokeAll(rows, user), other) == ValidRows(rows, other)
  {
    if rows != [] {
      assert RevokeAll(rows, user)[1..] == RevokeAll(rows[1..], user);
      RevokeAllValidRows(rows[1..], user, other);
    }
  }

  /** The valid rows of a sequence with one more row at its end. */
  lemma {:induction false} ValidRowsAppend(rows: seq<TokenRow>, row: TokenRow, user: UserId)
    ensures ValidRows(rows + [row], user) ==
              ValidRows(rows, user) + (if row.owner == user && row.IsValid() then [row] else [])
  {
    if rows != [] {
      assert (rows + [row])[1..] == rows[1..] + [row];
      ValidRowsAppend(rows[1..], row, user);
    }
  }

  /** The rows of the ledger's tokens once the valid ones of the user have
      had both flags set in place. */
  lemma RevokedContents(ts: seq<Token>, before: seq<TokenRow>, valid: seq<Token>, user: UserId)
    requires |ts| == |before|
    requires forall k | 0 <= k < |ts| :: ts[k] in valid <==> before[k].owner == user && before[k].IsValid()
    requires forall k | 0 <= k < |ts| :: ts[k].Row() == if ts[k] in valid then Revoked(before[k]) else before[k]
    ensures Rows(ts) == RevokeAll(before, user)
  {
  }

  /** The rows after supersession for `user` with the new access token
      `token`, and whether recording the token succeeded. */
  function Supersede(rows: seq<TokenRow>, user: UserId, token: string): (seq<TokenRow>, Result<(), ServiceError>) {
    var revoked := RevokeAll(rows, user);
    match Record(revoked, IssuedRow(token, user))
    case Success(after) => (after, Success(()))
    case Failure(e) => (revoked, Failure(e))
  }

  /** Supersession as the two writes that perform it. */
  lemma SupersedeSteps(rows: seq<TokenRow>, user: UserId, token: string)
    ensures var revoked := RevokeAll(rows, user);
            var recorded := Record(revoked, IssuedRow(token, user));
            Supersede(rows, user, token) ==
              if recorded.Success? then (recorded.value, Success(())) else (revoked, Failure(recorded.error))
  {
  }

  /** After a supersession that records its token, that token is the user's
      only valid token; other users keep their valid tokens. */
  lemma SupersedeSingleValid(rows: seq<TokenRow>, user: UserId, token: string, other: UserId)
    requires Supersede(rows, user, token).1.Success?
    ensures ValidRows(Supersede(rows, user, token).0, user) == [IssuedRow(token, user)]
    ensures other != user ==> ValidRows(Supersede(rows, user, token).0, other) == ValidRows(rows, other)
  {
    var revoked := RevokeAll(rows, user);
    RevokeAllValidRows(rows, user, other);
    ValidRowsAppend(revoked, IssuedRow(token, user), user);
    ValidRowsAppend(revoked, IssuedRow(token, user), other);
  }

  /** Revocation is soft: supersession deletes no row, keeps every row's
      string and owner, and never clears a flag. */
  lemma SupersedeIsSoft(rows: seq<TokenRow>, user: UserId, token: string)
    ensures |Supersede(rows, user, token).0| >= |rows|
    ensures forall i | 0 <= i < |rows| ::
              var after := Supersede(rows, user, token).0[i];
              after.token == rows[i].token && after.owner == rows[i].owner &&
              (rows[i].revoked ==> after.revoked) && (rows[i].expired ==> after.expired)
  {
  }

  /** Supersession keeps the token strings unique. */
  lemma SupersedeKeepsUnique(rows: seq<TokenRow>, user: UserId, token: string)
    requires UniqueRows(rows)
    ensures UniqueRows(Supersede(rows, user, token).0)
  {
    var revoked := RevokeAll(rows, user);
    assert UniqueRows(revoked);
  }

  /** Every row has both flags or neither. */
  predicate FlagsAgree(rows: seq<TokenRow>) {
    forall i | 0 <= i < |rows| :: rows[i].revoked == rows[i].expired
  }

  /** The service sets the two flags together, so they always agree... */
  lemma SupersedeKeepsFlagsAgree(rows: seq<TokenRow>, user: UserId, token: string)
    requires FlagsAgree(rows)
    ensures FlagsAgree(Supersede(rows, user, token).0)
  {
    var revoked := RevokeAll(rows, user);
    assert FlagsAgree(revoked);
  }

  /** ...and where they agree, a token with either flag clear is one with
      both clear: "valid" means the same under either reading. */
  lemma FlagsAgreeValidity(rows: seq<TokenRow>)
    requires FlagsAgree(rows)
    ensures forall i | 0 <= i < |rows| :: rows[i].IsValid() <==> (!rows[i].revoked || !rows[i].expired)
  {
  }

  /** Two supersessions with the same token string, as two sign-ins in the
      same second produce: the second revokes the first's token and then
      fails to record its own, leaving the user no valid token. */
  lemma SameTokenTwice(rows: seq<TokenRow>, user: UserId, token: string)
    requires Supersede(rows, user, token).1.Success?
    ensures var again := Supersede(Supersede(rows, user, token).0, user, token);
            again.1 == Failure(DuplicateToken) && ValidRows(again.0, user) == []
  {
    var once := Supersede(rows, user, token).0;
    assert once[|once| - 1].token == token;
    RevokeAllValidRows(once, user, user);
  }

  // ---------------------------------------------------------------------
  // The decisions taken before any write

  /** The authentication manager's verdict: the user loaded by email
      together with its role, provided the password matches the stored
      encoding. Every failure is the same AuthenticationFailed. */
  function Authenticate(us: seq<User>, rs: seq<Role>, email: string, password: string,
                        passwordMatches: (string, string) -> bool): (r: Result<User, ServiceError>)
    ensures r.Success? ==> r.value in us && r.value.email == email && passwordMatches(password, r.value.password)
    ensures r.Success? ==> RoleOfUser(us, rs, r.value.id).Success?
    ensures r.Success? <==> FindUser(us, email).Success? &&
                            RoleOfUser(us, rs, FindUser(us, email).value.id).Success? &&
                            passwordMatches(password, FindUser(us, email).value.password)
    ensures r.Failure? ==> r.error == AuthenticationFailed
  {
    match FindUser(us, email)
    case Failure(_) => Failure(AuthenticationFailed)
    case Success(u) =>
      if RoleOfUser(us, rs, u.id).Failure? || !passwordMatches(password, u.password) then Failure(AuthenticationFailed)
      else Success(u)
  }

  /** What a refresh request decides from its header and the stores: do
      nothing, fail, or supersede the tokens of a user and echo the
      presented token back. */
  function RefreshDecision(cfg: JwtSettings, now: nat, header: Option<string>, us: seq<User>, rs: seq<Role>)
    : (r: Result<Option<(User, string)>, ServiceError>)
    ensures BearerToken(header).None? ==> r == Success(None)
    ensures r.Failure? ==> r.error.InvalidJwt? || r.error == UserNotFound || r.error == RoleNotFound
    ensures r.Success? && r.value.Some? ==>
              var (user, token) := r.value.value;
              BearerToken(header) == Some(token) && user in us &&
              ExtractUsername(cfg, now, token) == Success(Some(user.email)) &&
              IsTokenValid(cfg, now, token, user.email) == Success(true)
  {
    match BearerToken(header)
    case None => Success(None)
    case Some(token) =>
      match ExtractUsername(cfg, now, token)
      case Failure(e) => Failure(InvalidJwt(e))
      case Success(None) => Success(None)
      case Success(Some(email)) =>
        match FindUser(us, email)
        case Failure(e) => Failure(e)
        case Success(user) =>
          if RoleOfUser(us, rs, user.id).Failure? then Failure(RoleNotFound)
          else
            match IsTokenValid(cfg, now, token, user.email)
            case Failure(e) => Failure(InvalidJwt(e))
            case Success(valid) => if valid then Success(Some((user, token))) else Success(None)
  }

  /** A header carrying a token signed under another key is refused with a
      signature error: no user is resolved and nothing is superseded. */
  lemma RefreshWithForeignToken(cfg: JwtSettings, other: JwtSettings, now: nat, cs: Claims, us: seq<User>, rs: seq<Role>)
    requires other.hs256(other.signingKey, SigningInput(JoseHeader, EncodeClaims(cs)))
             != cfg.hs256(cfg.signingKey, SigningInput(JoseHeader, EncodeClaims(cs)))
    ensures RefreshDecision(cfg, now, Some(BearerPrefix + Compact(other, cs)), us, rs) ==
              Failure(InvalidJwt(SignatureMismatch))
  {
    BearerRoundTrip(Compact(other, cs));
    ParseUnderOtherKey(other, cfg, now, cs);
  }

  /** A header carrying any token built for a stored user, with a role, is
      accepted until the token's expiration has passed: the user's tokens
      are superseded and the presented token is echoed back. Nothing
      distinguishes a refresh token from an access token here. */
  lemma RefreshWithBuiltToken(cfg: JwtSettings, issued: nat, now: nat, extra: Claims, ttl: int,
                              user: User, us: seq<User>, rs: seq<Role>)
    requires UniqueEmails(us) && user in us && RoleOfUser(us, rs, user.id).Success?
    ensures var token := BuildToken(cfg, issued, extra, user.email, ttl);
            RefreshDecision(cfg, now, Some(BearerPrefix + token), us, rs) ==
              if Seconds(issued + ttl) * 1000 < now then Failure(InvalidJwt(ExpiredJwt))
              else Success(Some((user, token)))
  {
    var token := BuildToken(cfg, issued, extra, user.email, ttl);
    BearerRoundTrip(token);
    BuiltTokenReadBack(cfg, issued, now, extra, user.email, ttl);
    BuiltTokenValidity(cfg, issued, now, extra, user.email, ttl);
    FindUserUnique(us, user);
  }

  /** The refresh token handed out at sign-in refreshes until it expires. */
  lemma RefreshWithRefreshToken(cfg: JwtSettings, issued: nat, now: nat, user: User, us: seq<User>, rs: seq<Role>)
    requires UniqueEmails(us) && user in us && RoleOfUser(us, rs, user.id).Success?
    requires now <= Seconds(issued + cfg.refreshExpiration) * 1000
    ensures var token := GenerateRefreshToken(cfg, issued, user.email);
            RefreshDecision(cfg, now, Some(BearerPrefix + token), us, rs) == Success(Some((user, token)))
  {
    RefreshWithBuiltToken(cfg, issued, now, [], cfg.refreshExpiration, user, us, rs);
  }

  /** An unexpired access token refreshes just as well as a refresh token. */
  lemma RefreshWithAccessToken(cfg: JwtSettings, issued: nat, now: nat, user: User, us: seq<User>, rs: seq<Role>)
    requires UniqueEmails(us) && user in us && RoleOfUser(us, rs, user.id).Success?
    requires now <= Seconds(issued + cfg.accessExpiration) * 1000
    ensures var token := GenerateAccessToken(cfg, issued, user.email);
            RefreshDecision(cfg, now, Some(BearerPrefix + token), us, rs) == Success(Some((user, token)))
  {
    RefreshWithBuiltToken(cfg, issued, now, [], cfg.accessExpiration, user, us, rs);
  }

  // ---------------------------------------------------------------------
  // Whole requests, on the ledger's rows

  /** The tail sign-in and refresh share: a new access token for `user`,
      the user's tokens superseded with it, and the response pairing it with
      `refreshToken`, or the recording failure. */
  function Reissued(cfg: JwtSettings, now: nat, rows: seq<TokenRow>, user: User, refreshToken: string)
    : (seq<TokenRow>, Result<AuthResponse, ServiceError>)
  {
    var access := GenerateAccessToken(cfg, now, user.email);
    var (after, recorded) := Supersede(rows, user.id, access);
    (after, if recorded.Success? then Success(AuthResponse(access, refreshToken)) else Failure(recorded.error))
  }

  /** signIn on the ledger's rows. */
  function SignInOutcome(cfg: JwtSettings, now: nat, us: seq<User>, rs: seq<Role>, rows: seq<TokenRow>,
                         email: string, password: string, passwordMatches: (string, string) -> bool)
    : (seq<TokenRow>, Result<AuthResponse, ServiceError>)
  {
    match Authenticate(us, rs, email, password, passwordMatches)
    case Failure(e) => (rows, Failure(e))
    case Success(user) => Reissued(cfg, now, rows, user, GenerateRefreshToken(cfg, now, user.email))
  }

  /** refreshToken on the ledger's rows. */
  function RefreshOutcome(cfg: JwtSettings, now: nat, header: Option<string>, us: seq<User>, rs: seq<Role>,
                          rows: seq<TokenRow>)
    : (seq<TokenRow>, Result<Option<AuthResponse>, ServiceError>)
  {
    match RefreshDecision(cfg, now, header, us, rs)
    case Failure(e) => (rows, Failure(e))
    case Success(None) => (rows, Success(None))
    case Success(Some((user, refreshToken))) =>
      var (after, response) := Reissued(cfg, now, rows, user, refreshToken);
      (after, if response.Success? then Success(Some(response.value)) else Failure(response.error))
  }

  /** A sign-in that succeeds answers with the access and refresh tokens of
      its instant and leaves the access token the user's only valid token;
      every other user keeps their valid tokens. */
  lemma SignInLeavesOneValidToken(cfg: JwtSettings, now: nat, us: seq<User>, rs: seq<Role>, rows: seq<TokenRow>,
                                  email: string, password: string, passwordMatches: (string, string) -> bool,
                                  other: UserId)
    requires SignInOutcome(cfg, now, us, rs, rows, email, password, passwordMatches).1.Success?
    ensures var user := Authenticate(us, rs, email, password, passwordMatches).value;
            var (after, response) := SignInOutcome(cfg, now, us, rs, rows, email, password, passwordMatches);
            response.value == AuthResponse(GenerateAccessToken(cfg, now, email), GenerateRefreshToken(cfg, now, email)) &&
            ValidRows(after, user.id) == [IssuedRow(response.value.accessToken, user.id)] &&
            (other != user.id ==> ValidRows(after, other) == ValidRows(rows, other))
  {
    var user := Authenticate(us, rs, email, password, passwordMatches).value;
    SupersedeSingleValid(rows, user.id, GenerateAccessToken(cfg, now, email), other);
  }

  /** A sign-in fails either at authentication, before any write, or at
      recording its token, after the user's valid tokens were revoked. */
  lemma SignInFailure(cfg: JwtSettings, now: nat, us: seq<User>, rs: seq<Role>, rows: seq<TokenRow>,
                      email: string, password: string, passwordMatches: (string, string) -> bool)
    ensures var (after, response) := SignInOutcome(cfg, now, us, rs, rows, email, password, passwordMatches);
            var authenticated := Authenticate(us, rs, email, password, passwordMatches);
            response.Failure? ==>
              (authenticated.Failure? && response.error == AuthenticationFailed && after == rows) ||
              (authenticated.Success? && response.error == DuplicateToken &&
               after == RevokeAll(rows, authenticated.value.id))
  {
  }

  /** Two sign-ins of one user within the same second mint the same access
      token: the second revokes the first's token, then fails to record its
      own, and the user is left with no valid token. */
  lemma SignInTwiceInOneSecond(cfg: JwtSettings, now1: nat, now2: nat, us: seq<User>, rs: seq<Role>,
                               rows: seq<TokenRow>, email: string, password: string,
                               passwordMatches: (string, string) -> bool)
    requires now1 / 1000 == now2 / 1000
    requires cfg.accessExpiration >= 0 && cfg.accessExpiration % 1000 == 0
    requires SignInOutcome(cfg, now1, us, rs, rows, email, password, passwordMatches).1.Success?
    ensures var user := Authenticate(us, rs, email, password, passwordMatches).value;
            var first := SignInOutcome(cfg, now1, us, rs, rows, email, password, passwordMatches).0;
            var again := SignInOutcome(cfg, now2, us, rs, first, email, password, passwordMatches);
            again.1 == Failure(DuplicateToken) && ValidRows(again.0, user.id) == []
  {
    var user := Authenticate(us, rs, email, password, passwordMatches).value;
    SameSecondSameAccessToken(cfg, now1, now2, email);
    SameTokenTwice(rows, user.id, GenerateAccessToken(cfg, now1, email));
  }

  /** Refreshing with the refresh token of a sign-in made in the same second
      mints the access token that sign-in recorded: the refresh revokes it,
      fails to record it again, and the user is left with no valid token. */
  lemma RefreshRightAfterSignIn(cfg: JwtSettings, issued: nat, now: nat, us: seq<User>, rs: seq<Role>,
                                rows: seq<TokenRow>, email: string, password: string,
                                passwordMatches: (string, string) -> bool)
    requires UniqueEmails(us)
    requires issued / 1000 == now / 1000
    requires cfg.accessExpiration >= 0 && cfg.accessExpiration % 1000 == 0
    requires now <= Seconds(issued + cfg.refreshExpiration) * 1000
    requires SignInOutcome(cfg, issued, us, rs, rows, email, password, passwordMatches).1.Success?
    ensures var user := Authenticate(us, rs, email, password, passwordMatches).value;
            var (signedIn, response) := SignInOutcome(cfg, issued, us, rs, rows, email, password, passwordMatches);
            var refreshed := RefreshOutcome(cfg, now, Some(BearerPrefix + response.value.refreshToken), us, rs, signedIn);
            refreshed.1 == Failure(DuplicateToken) && ValidRows(refreshed.0, user.id) == []
  {
    var user := Authenticate(us, rs, email, password, passwordMatches).value;
    RefreshWithRefreshToken(cfg, issued, now, user, us, rs);
    SameSecondSameAccessToken(cfg, issued, now, email);
    SameTokenTwice(rows, user.id, GenerateAccessToken(cfg, issued, email));
  }

  /** A refresh that succeeds answers with a new access token and the
      presented token unchanged, and leaves the new access token the
      user's only valid token; every other user keeps their valid tokens. */
  lemma RefreshLeavesOneValidToken(cfg: JwtSettings, now: nat, header: Option<string>, us: seq<User>, rs: seq<Role>,
                                   rows: seq<TokenRow>, other: UserId)
    requires RefreshOutcome(cfg, now, header, us, rs, rows).1.Success?
    requires RefreshOutcome(cfg, now, header, us, rs, rows).1.value.Some?
    ensures var user := RefreshDecision(cfg, now, header, us, rs).value.value.0;
            var (after, response) := RefreshOutcome(cfg, now, header, us, rs, rows);
            response.value.value == AuthResponse(GenerateAccessToken(cfg, now, user.email), BearerToken(header).value) &&
            ValidRows(after, user.id) == [IssuedRow(response.value.value.accessToken, user.id)] &&
            (other != user.id ==> ValidRows(after, other) == ValidRows(rows, other))
  {
    var user := RefreshDecision(cfg, now, header, us, rs).value.value.0;
    SupersedeSingleValid(rows, user.id, GenerateAccessToken(cfg, now, user.email), other);
  }

  /** The validity check of refreshToken never says no: once the token
      parses and its subject names a stored user with a role, the token is
      valid for that user or lacks an expiration. A refresh that does
      nothing therefore had no bearer token or a token without a subject. */
  lemma RefreshNeverDeclines(cfg: JwtSettings, now: nat, header: Option<string>, us: seq<User>, rs: seq<Role>)
    ensures RefreshDecision(cfg, now, header, us, rs) == Success(None) ==>
              BearerToken(header).None? || ExtractUsername(cfg, now, BearerToken(header).value) == Success(None)
  {
    if BearerToken(header).Some? {
      var token := BearerToken(header).value;
      var email := ExtractUsername(cfg, now, token);
      if email.Success? && email.value.Some? && FindUser(us, email.value.value).Success? {
        assert SubjectOf(ParseClaimsJws(cfg, now, token).value) == Some(FindUser(us, email.value.value).value.email);
      }
    }
  }

  /** Every outcome of the checks refresh makes before any write: no bearer
      header, or a token without a subject, does nothing; a parse failure,
      a subject naming no stored user, or a user without a role is an
      error; otherwise the token's subject names a user it is valid for,
      unless it carries no expiration. */
  lemma RefreshDecisionCases(cfg: JwtSettings, now: nat, header: Option<string>, us: seq<User>, rs: seq<Role>)
    ensures var d := RefreshDecision(cfg, now, header, us, rs);
            BearerToken(header).Some? ==>
              var token := BearerToken(header).value;
              var parsed := ParseClaimsJws(cfg, now, token);
              (parsed.Failure? ==> d == Failure(InvalidJwt(parsed.error))) &&
              (parsed.Success? && SubjectOf(parsed.value).None? ==> d == Success(None)) &&
              (parsed.Success? && SubjectOf(parsed.value).Some? ==>
                 var found := FindUser(us, SubjectOf(parsed.value).value);
                 (found.Failure? ==> d == Failure(UserNotFound)) &&
                 (found.Success? && RoleOfUser(us, rs, found.value.id).Failure? ==> d == Failure(RoleNotFound)) &&
                 (found.Success? && RoleOfUser(us, rs, found.value.id).Success? ==>
                    d == if ExpiresAt(parsed.value).None? then Failure(InvalidJwt(NullClaim))
                         else Success(Some((found.value, token)))))
  {
  }

  /** A refresh that does nothing or fails before any write leaves the rows
      as they were; the only failure after a write is DuplicateToken, which
      leaves the user's tokens revoked. */
  lemma RefreshFailureKeepsRows(cfg: JwtSettings, now: nat, header: Option<string>, us: seq<User>, rs: seq<Role>,
                                rows: seq<TokenRow>)
    ensures var (after, r) := RefreshOutcome(cfg, now, header, us, rs, rows);
            var d := RefreshDecision(cfg, now, header, us, rs);
            ((r.Success? && r.value.None?) || (r.Failure? && r.error != DuplicateToken) ==> after == rows) &&
            (r.Failure? && r.error != DuplicateToken ==> d == Failure(r.error)) &&
            (r.Failure? && r.error == DuplicateToken ==>
               d.Success? && d.value.Some? && after == RevokeAll(rows, d.value.value.0.id))
  {
    var d := RefreshDecision(cfg, now, header, us, rs);
    if d.Success? && d.value.Some? {
      var user := d.value.value.0;
      var recorded := Record(RevokeAll(rows, user.id), IssuedRow(GenerateAccessToken(cfg, now, user.email), user.id));
      assert recorded.Failure? ==> recorded.error == DuplicateToken;
    }
  }

  // ---------------------------------------------------------------------
  // The service

  class AuthenticationService {
    const jwt: JwtSettings
    const tokens: TokenLedger
    const users: UserStore
    const roles: RoleStore

    ghost predicate Valid()
      reads this, tokens, users, roles
    {
      tokens.Valid() && users.Valid() && roles.userStore == users
    }

    constructor (jwt: JwtSettings, tokens: TokenLedger, users: UserStore, roles: RoleStore)
      requires tokens.Valid() && users.Valid() && roles.userStore == users
      ensures this.jwt == jwt && this.tokens == tokens && this.users == users && this.roles == roles
      ensures Valid()
    {
      this.jwt := jwt;
      this.tokens := tokens;
      this.users := users;
      this.roles := roles;
    }

    /** signUp: a new user with the encoded password and the USER role. The
        role must exist and the email must be free; no token is issued. */
    method SignUp(email: string, encodedPassword: string) returns (r: Result<User, ServiceError>)
      requires Valid()
      modifies users
      ensures Valid()
      ensures FindRole(roles.roles, UserRole).Failure? ==> r == Failure(RoleNotFound) && users.users == old(users.users)
      ensures FindRole(roles.roles, UserRole).Success? ==>
                (r.Failure? <==> FindUser(old(users.users), email).Success?) &&
                (r.Failure? ==> r.error == EmailTaken && users.users == old(users.users))
      ensures r.Success? ==>
                r.value.email == email && r.value.password == encodedPassword && r.value.role == Some(UserRole) &&
                users.users == old(users.users) + [r.value] && FindUser(users.users, email) == Success(r.value)
    {
      var role := roles.GetRole(UserRole);
      if role.Failure? {
        return Failure(role.error);
      }
      r := users.SaveUser(email, encodedPassword, Some(role.value.name));
    }

    /** saveUserToken: records a new bearer token of the user, both flags
        clear. */
    method SaveUserToken(user: UserId, accessToken: string) returns (r: Result<(), ServiceError>)
      requires Valid()
      modifies tokens
      ensures Valid()
      ensures r == if Record(old(tokens.Contents()), IssuedRow(accessToken, user)).Success? then Success(())
                   else Failure(DuplicateToken)
      ensures tokens.Contents() ==
                if r.Success? then Record(old(tokens.Contents()), IssuedRow(accessToken, user)).value
                else old(tokens.Contents())
      ensures tokens.rows[..|old(tokens.rows)|] == old(tokens.rows)
    {
      var t := new Token(accessToken, Bearer, false, false, user);
      ghost var before := tokens.rows;
      SaveNewRecords(before, t);
      r := tokens.SaveToken(t);
      assert Rows(before) == old(tokens.Contents());
      if r.Success? {
        assert tokens.rows == Save(before, t).value;
      }
      assert tokens.rows[..|before|] == before;
    }

    /** revokeAllUserTokens: both flags set on each of the user's valid
        tokens, then the batch saved; nothing is saved when there is none. */
    method RevokeAllUserTokens(user: UserId)
      requires Valid()
      modifies tokens, tokens.rows
      ensures Valid() && tokens.rows == old(tokens.rows)
      ensures tokens.Contents() == RevokeAll(old(tokens.Contents()), user)
    {
      var valid := tokens.GetAllValidTokens(user);
      if |valid| == 0 {
        return;
      }
      ghost var before := tokens.Contents();
      ValidTokensMembership(tokens.rows, user);
      RevokeEach(valid);
      RevokedContents(tokens.rows, before, valid, user);
      SaveAllStored(tokens.rows, valid);
      var saved := tokens.SaveAllTokens(valid);
    }

    /** The two writes sign-in and refresh both make: revokeAllUserTokens,
        then saveUserToken with the new access token. */
    method SupersedeTokens(user: UserId, access: string) returns (r: Result<(), ServiceError>)
      requires Valid()
      modifies tokens, tokens.rows
      ensures Valid()
      ensures (tokens.Contents(), r) == Supersede(old(tokens.Contents()), user, access)
    {
      ghost var before := tokens.Contents();
      RevokeAllUserTokens(user);
      r := SaveUserToken(user, access);
      SupersedeSteps(before, user, access);
    }

    /** The authentication manager: the user-details lookup loads the user
        by email and the user's authorities, then the password is checked;
        any failure rejects the credentials. */
    method AuthenticateUser(email: string, password: string, passwordMatches: (string, string) -> bool)
      returns (r: Result<User, ServiceError>)
      requires Valid()
      ensures r == Authenticate(users.users, roles.roles, email, password, passwordMatches)
    {
      var found := users.GetUserByEmail(email);
      if found.Failure? {
        return Failure(AuthenticationFailed);
      }
      var loaded := roles.GetAuthorities(found.value.id);
      if loaded.Failure? || !passwordMatches(password, found.value.password) {
        return Failure(AuthenticationFailed);
      }
      r := Success(found.value);
    }

    /** The tail signIn and refreshToken share: a new access token for the
        user, the user's tokens superseded with it, and the response pairing
        it with `refreshToken`. */
    method Reissue(now: nat, user: User, refreshToken: string) returns (r: Result<AuthResponse, ServiceError>)
      requires Valid()
      modifies tokens, tokens.rows
      ensures Valid()
      ensures (tokens.Contents(), r) == Reissued(jwt, now, old(tokens.Contents()), user, refreshToken)
    {
      var access := GenerateAccessToken(jwt, now, user.email);
      var saved := SupersedeTokens(user.id, access);
      if saved.Failure? {
        return Failure(saved.error);
      }
      r := Success(AuthResponse(access, refreshToken));
    }

    /** signIn: authenticate, mint both tokens, supersede the user's tokens
        with the new access token and return the pair. */
    method SignIn(now: nat, email: string, password: string, passwordMatches: (string, string) -> bool)
      returns (r: Result<AuthResponse, ServiceError>)
      requires Valid()
      modifies tokens, tokens.rows
      ensures Valid()
      ensures (tokens.Contents(), r) ==
                SignInOutcome(jwt, now, old(users.users), old(roles.roles), old(tokens.Contents()), email, password, passwordMatches)
    {
      var authenticated := AuthenticateUser(email, password, passwordMatches);
      if authenticated.Failure? {
        return Failure(AuthenticationFailed);
      }
      var user := users.GetUserByEmail(email).value;
      assert user == authenticated.value;
      // Succeeds: the authentication step loaded the same authorities.
      var authorities := roles.GetAuthorities(user.id);
      var refresh := GenerateRefreshToken(jwt, now, user.email);
      r := Reissue(now, user, refresh);
    }

    /** The checks refreshToken makes before any write: read the bearer
        token, resolve its subject to a user with a role, and test the token
        against that user. */
    method DecideRefresh(now: nat, header: Option<string>) returns (d: Result<Option<(User, string)>, ServiceError>)
      requires Valid()
      ensures d == RefreshDecision(jwt, now, header, users.users, roles.roles)
    {
      var presented := BearerToken(header);
      if presented.None? {
        return Success(None);
      }
      var refreshToken := presented.value;
      var email := ExtractUsername(jwt, now, refreshToken);
      if email.Failure? {
        return Failure(InvalidJwt(email.error));
      }
      if email.value.None? {
        return Success(None);
      }
      var found := users.GetUserByEmail(email.value.value);
      if found.Failure? {
        return Failure(found.error);
      }
      var user := found.value;
      var authorities := roles.GetAuthorities(user.id);
      if authorities.Failure? {
        return Failure(authorities.error);
      }
      var valid := IsTokenValid(jwt, now, refreshToken, user.email);
      if valid.Failure? {
        return Failure(InvalidJwt(valid.error));
      }
      if !valid.value {
        return Success(None);
      }
      d := Success(Some((user, refreshToken)));
    }

    /** refreshToken: when the presented token is valid for its user,
        supersede the user's tokens with a new access token and answer with
        it and the same refresh token. A missing or foreign header does
        nothing; parser and lookup failures propagate. */
    method RefreshToken(now: nat, header: Option<string>) returns (r: Result<Option<AuthResponse>, ServiceError>)
      requires Valid()
      modifies tokens, tokens.rows
      ensures Valid()
      ensures (tokens.Contents(), r) ==
                RefreshOutcome(jwt, now, header, old(users.users), old(roles.roles), old(tokens.Contents()))
    {
      var d := DecideRefresh(now, header);
      if d.Failure? {
        return Failure(d.error);
      }
      if d.value.None? {
        return Success(None);
      }
      var (user, refreshToken) := d.value.value;
      var reissued := Reissue(now, user, refreshToken);
      if reissued.Failure? {
        return Failure(reissued.error);
      }
      r := Success(Some(reissued.value));
    }
  }
}

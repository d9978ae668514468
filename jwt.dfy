/** The token codec of JwtAuthenticationService: building signed JSON Web
    Tokens (RFC 7519) with the HS256 algorithm (RFC 7518 section 3.2), and
    reading their claims back.

    The configuration fields of the service become a `JwtSettings` value and
    the wall clock becomes a `now` parameter (milliseconds since the epoch),
    so every operation is a pure function. The signature primitive is the
    `hs256` field of the settings, an arbitrary keyed function. */
module Jwt {
  import opened Wrappers
  import opened Text

  type Key = seq<bv8>

  /** A keyed message authentication function standing for HMAC-SHA-256. */
  type Hs256 = (Key, string) -> string

  /** The decoded signing key and the two lifetimes, in milliseconds. */
  datatype JwtSettings = JwtSettings(
    signingKey: Key,
    accessExpiration: int,
    refreshExpiration: int,
    hs256: Hs256)

  /** A claim value: a JSON string or a JSON number. */
  datatype ClaimValue = Str(s: string) | Num(n: int)

  datatype Claim = Claim(name: string, value: ClaimValue)

  /** A claims set in insertion order, as the library's claims map keeps it. */
  type Claims = seq<Claim>

  /** Registered claim names (RFC 7519 sections 4.1.2, 4.1.6 and 4.1.4). */
  const SubjectClaim := "sub"
  const IssuedAtClaim := "iat"
  const ExpirationClaim := "exp"

  /** The failures of parsing and validating a token. `NullClaim` stands for
      the NullPointerException the service raises when a claim it
      dereferences is absent. */
  datatype JwtError = MalformedJwt | UnsupportedJwt | SignatureMismatch | ExpiredJwt | NullClaim

  // ---------------------------------------------------------------------
  // The claims map

  function Get(cs: Claims, name: string): (r: Option<ClaimValue>)
    ensures r.None? <==> forall i | 0 <= i < |cs| :: cs[i].name != name
  {
    if cs == [] then None
    else if cs[0].name == name then Some(cs[0].value)
    else Get(cs[1..], name)
  }

  /** Map put: replaces the value of an existing name in place, or appends. */
  function Put(cs: Claims, name: string, v: ClaimValue): (r: Claims)
    ensures Get(r, name) == Some(v)
    ensures forall n | n != name :: Get(r, n) == Get(cs, n)
    ensures |r| == if Get(cs, name).Some? then |cs| else |cs| + 1
    ensures Get(cs, name).None? ==> r == cs + [Claim(name, v)]
    ensures forall i | 0 <= i < |cs| && cs[i].name == name && Get(cs[..i], name).None? ::
              r == cs[..i] + [Claim(name, v)] + cs[i + 1..]
  {
    if cs == [] then [Claim(name, v)]
    else if cs[0].name == name then
      assert forall i | 0 < i < |cs| :: Get(cs[..i], name).Some? by {
        forall i | 0 < i < |cs| ensures Get(cs[..i], name).Some? {
          assert cs[..i][0] == cs[0];
        }
      }
      [Claim(name, v)] + cs[1..]
    else
      assert forall i | 0 < i <= |cs| :: cs[..i][1..] == cs[1..][..i - 1] && Get(cs[..i], name) == Get(cs[1..][..i - 1], name) by {
        forall i | 0 < i <= |cs| ensures cs[..i][1..] == cs[1..][..i - 1] && Get(cs[..i], name) == Get(cs[1..][..i - 1], name) {
          assert cs[..i][1..] == cs[1..][..i - 1];
          assert cs[..i][0] == cs[0];
        }
      }
      [cs[0]] + Put(cs[1..], name, v)
  }

  /** Java's long division by 1000, which truncates toward zero: a Date in
      milliseconds becomes a NumericDate in seconds. */
  function Seconds(millis: int): (r: int)
    ensures millis >= 0 ==> r * 1000 <= millis < r * 1000 + 1000
    ensures millis < 0 ==> r * 1000 - 1000 < millis <= r * 1000
  {
    if millis >= 0 then millis / 1000 else -((-millis) / 1000)
  }

  /** The claims a token is built with: the extra claims, then the subject,
      issued-at and expiration (in seconds), each overriding an extra claim
      of that name. */
  function BuildClaims(extra: Claims, username: string, issuedAt: int, expiration: int): (r: Claims)
    ensures Get(r, SubjectClaim) == Some(Str(username))
    ensures Get(r, IssuedAtClaim) == Some(Num(issuedAt))
    ensures Get(r, ExpirationClaim) == Some(Num(expiration))
    ensures forall n | n != SubjectClaim && n != IssuedAtClaim && n != ExpirationClaim ::
              Get(r, n) == Get(extra, n)
  {
    var withSubject := Put(extra, SubjectClaim, Str(username));
    var withIssuedAt := Put(withSubject, IssuedAtClaim, Num(issuedAt));
    Put(withIssuedAt, ExpirationClaim, Num(expiration))
  }

  /** The subject, as the library's string getter renders it. */
  function SubjectOf(cs: Claims): Option<string> {
    match Get(cs, SubjectClaim)
    case None => None
    case Some(Str(s)) => Some(s)
    case Some(Num(n)) => Some(IntToDecimal(n))
  }

  /** The expiration as a Date, in milliseconds. */
  function ExpiresAt(cs: Claims): Option<int> {
    match Get(cs, ExpirationClaim)
    case Some(Num(e)) => Some(e * 1000)
    case _ => None
  }

  /** A token is expired when its expiration is strictly before `now`. */
  predicate IsExpiredAt(cs: Claims, now: int) {
    ExpiresAt(cs).Some? && ExpiresAt(cs).value < now
  }

  /** The expiration claim, when present, is a number. */
  predicate WellTypedExpiration(cs: Claims) {
    !(Get(cs, ExpirationClaim).Some? && Get(cs, ExpirationClaim).value.Str?)
  }

  // ---------------------------------------------------------------------
  // The compact serialization. Base64url-encoded JSON is replaced by an
  // injective text encoding: each claim is two fields, its name and its
  // tagged value. Neither segment contains '.', so the separators are
  // unambiguous.

  function EncodeValue(v: ClaimValue): string {
    match v
    case Str(s) => ['s'] + s
    case Num(n) => ['n'] + IntToDecimal(n)
  }

  function DecodeValue(t: string): Option<ClaimValue> {
    if t == [] then None
    else if t[0] == 's' then Some(Str(t[1..]))
    else if t[0] == 'n' then
      var n :- DecimalToInt(t[1..]);
      Some(Num(n))
    else None
  }

  lemma DecodeEncodeValue(v: ClaimValue)
    ensures DecodeValue(EncodeValue(v)) == Some(v)
  {
    match v
    case Str(s) =>
      assert EncodeValue(v)[1..] == s;
    case Num(n) =>
      assert EncodeValue(v)[1..] == IntToDecimal(n);
      IntDecimalRoundTrip(n);
  }

  function EncodeClaims(cs: Claims): (r: string)
    ensures '.' !in r
  {
    if cs == [] then []
    else Field(cs[0].name) + Field(EncodeValue(cs[0].value)) + EncodeClaims(cs[1..])
  }

  function DecodeClaims(t: string): Option<Claims>
    decreases |t|
  {
    if t == [] then Some([])
    else
      var first :- ReadField(t);
      var second :- ReadField(first.1);
      var v :- DecodeValue(second.0);
      var rest :- DecodeClaims(second.1);
      Some([Claim(first.0, v)] + rest)
  }

  lemma {:induction false} DecodeEncodeClaims(cs: Claims)
    ensures DecodeClaims(EncodeClaims(cs)) == Some(cs)
  {
    if cs != [] {
      var f1, f2, rest := Field(cs[0].name), Field(EncodeValue(cs[0].value)), EncodeClaims(cs[1..]);
      assert EncodeClaims(cs) == f1 + (f2 + rest);
      assert f1 != [];
      ReadFieldOfField(cs[0].name, f2 + rest);
      ReadFieldOfField(EncodeValue(cs[0].value), rest);
      DecodeEncodeValue(cs[0].value);
      DecodeEncodeClaims(cs[1..]);
      assert [Claim(cs[0].name, cs[0].value)] + cs[1..] == cs;
    }
  }

  const Algorithm := "HS256"

  /** The protected header (RFC 7515 section 4.1.1) names the algorithm. */
  const HeaderClaims := [Claim("alg", Str(Algorithm))]

  /** The header segment: `HeaderClaims` encoded like a payload. */
  const JoseHeader := EncodeClaims(HeaderClaims)

  function SigningInput(header: string, payload: string): string {
    header + "." + payload
  }

  /** header '.' payload '.' signature, the signature taken over the first two. */
  function Compact(cfg: JwtSettings, cs: Claims): string {
    var input := SigningInput(JoseHeader, EncodeClaims(cs));
    input + "." + cfg.hs256(cfg.signingKey, input)
  }

  /** The three '.'-separated segments of a compact token: header, payload
      and signature. */
  function SplitCompact(token: string): Option<(string, string, string)> {
    match FirstIndex(token, '.')
    case None => None
    case Some(i) =>
      var afterHeader := token[i + 1..];
      match FirstIndex(afterHeader, '.')
      case None => None
      case Some(j) => Some((token[..i], afterHeader[..j], afterHeader[j + 1..]))
  }

  lemma SplitJoined(header: string, payload: string, signature: string)
    requires '.' !in header && '.' !in payload
    ensures SplitCompact(SigningInput(header, payload) + "." + signature) == Some((header, payload, signature))
  {
    var token := SigningInput(header, payload) + "." + signature;
    assert token == header + ['.'] + (payload + "." + signature);
    FirstIndexAfter(header, '.', payload + "." + signature);
    assert token[..|header|] == header;
    var afterHeader := token[|header| + 1..];
    assert afterHeader == payload + ['.'] + signature;
    FirstIndexAfter(payload, '.', signature);
    assert afterHeader[..|payload|] == payload;
    assert afterHeader[|payload| + 1..] == signature;
  }

  /** Checking a decoded token: the algorithm, then the signature, then the
      expiration. Claims are returned only when all pass. */
  function CheckClaimsJws(cfg: JwtSettings, now: int, header: string, payload: string, signature: string,
                          h: Claims, cs: Claims): Result<Claims, JwtError>
  {
    if Get(h, "alg") != Some(Str(Algorithm)) then Failure(UnsupportedJwt)
    else if signature != cfg.hs256(cfg.signingKey, SigningInput(header, payload)) then
      Failure(SignatureMismatch)
    else if !WellTypedExpiration(cs) then Failure(MalformedJwt)
    else if IsExpiredAt(cs, now) then Failure(ExpiredJwt)
    else Success(cs)
  }

  /** Parsing with the configured key: the structure is decoded and then
      checked by `CheckClaimsJws`. */
  function ParseClaimsJws(cfg: JwtSettings, now: int, token: string): (r: Result<Claims, JwtError>)
    ensures r.Success? ==>
              SplitCompact(token).Some? &&
              var (header, payload, signature) := SplitCompact(token).value;
              signature == cfg.hs256(cfg.signingKey, SigningInput(header, payload)) &&
              DecodeClaims(payload) == Some(r.value)
    ensures r.Success? ==> WellTypedExpiration(r.value) && !IsExpiredAt(r.value, now)
  {
    match SplitCompact(token)
    case None => Failure(MalformedJwt)
    case Some((header, payload, signature)) =>
      match (DecodeClaims(header), DecodeClaims(payload))
      case (None, _) => Failure(MalformedJwt)
      case (_, None) => Failure(MalformedJwt)
      case (Some(h), Some(cs)) => CheckClaimsJws(cfg, now, header, payload, signature, h, cs)
  }

  /** Parsing a compact token whose segments decode reduces to the checks. */
  lemma ParseCompactStructure(cfg: JwtSettings, now: int, signer: JwtSettings, cs: Claims)
    ensures ParseClaimsJws(cfg, now, Compact(signer, cs)) ==
              CheckClaimsJws(cfg, now, JoseHeader, EncodeClaims(cs),
                             signer.hs256(signer.signingKey, SigningInput(JoseHeader, EncodeClaims(cs))),
                             HeaderClaims, cs)
  {
    SplitJoined(JoseHeader, EncodeClaims(cs), signer.hs256(signer.signingKey, SigningInput(JoseHeader, EncodeClaims(cs))));
    DecodeEncodeClaims(HeaderClaims);
    DecodeEncodeClaims(cs);
  }

  // ---------------------------------------------------------------------
  // The service's operations

  function BuildToken(cfg: JwtSettings, now: nat, extra: Claims, username: string, ttl: int): string {
    Compact(cfg, BuildClaims(extra, username, Seconds(now), Seconds(now + ttl)))
  }

  function GenerateAccessTokenWithClaims(cfg: JwtSettings, now: nat, extra: Claims, username: string): string {
    BuildToken(cfg, now, extra, username, cfg.accessExpiration)
  }

  function GenerateAccessToken(cfg: JwtSettings, now: nat, username: string): string {
    GenerateAccessTokenWithClaims(cfg, now, [], username)
  }

  function GenerateRefreshToken(cfg: JwtSettings, now: nat, username: string): string {
    BuildToken(cfg, now, [], username, cfg.refreshExpiration)
  }

  function ExtractUsername(cfg: JwtSettings, now: int, token: string): Result<Option<string>, JwtError> {
    var cs :- ParseClaimsJws(cfg, now, token);
    Success(SubjectOf(cs))
  }

  function ExtractExpiration(cfg: JwtSettings, now: int, token: string): Result<Option<int>, JwtError> {
    var cs :- ParseClaimsJws(cfg, now, token);
    Success(ExpiresAt(cs))
  }

  /** The expiration compared with `now`; an absent expiration is dereferenced. */
  function IsTokenExpired(cfg: JwtSettings, now: int, token: string): (r: Result<bool, JwtError>)
    ensures ParseClaimsJws(cfg, now, token).Failure? ==> r == Failure(ParseClaimsJws(cfg, now, token).error)
    ensures ParseClaimsJws(cfg, now, token).Success? ==>
              r == if ExpiresAt(ParseClaimsJws(cfg, now, token).value).None? then Failure(NullClaim) else Success(false)
  {
    var exp :- ExtractExpiration(cfg, now, token);
    if exp.None? then Failure(NullClaim) else Success(exp.value < now)
  }

  /** The subject must equal `username` and the token must not be expired.
      Parsing at the same instant already rejects an expired token, so once
      parsing succeeds only the subject decides. */
  function IsTokenValid(cfg: JwtSettings, now: int, token: string, username: string): (r: Result<bool, JwtError>)
    ensures ParseClaimsJws(cfg, now, token).Failure? ==> r == Failure(ParseClaimsJws(cfg, now, token).error)
    ensures ParseClaimsJws(cfg, now, token).Success? ==>
              var cs := ParseClaimsJws(cfg, now, token).value;
              r == if SubjectOf(cs).None? then Failure(NullClaim)
                   else if SubjectOf(cs).value != username then Success(false)
                   else if ExpiresAt(cs).None? then Failure(NullClaim)
                   else Success(true)
    ensures r == Success(true) <==>
              ParseClaimsJws(cfg, now, token).Success? &&
              SubjectOf(ParseClaimsJws(cfg, now, token).value) == Some(username) &&
              ExpiresAt(ParseClaimsJws(cfg, now, token).value).Some? &&
              !IsExpiredAt(ParseClaimsJws(cfg, now, token).value, now)
  {
    var subject :- ExtractUsername(cfg, now, token);
    if subject.None? then Failure(NullClaim)
    else if subject.value != username then Success(false)
    else
      var expired :- IsTokenExpired(cfg, now, token);
      Success(!expired)
  }

  // ---------------------------------------------------------------------
  // Properties

  /** Parsing a serialized claims set with the key it was signed with gives
      the claims back, unless they are expired at `now`. */
  lemma ParseCompact(cfg: JwtSettings, now: int, cs: Claims)
    requires WellTypedExpiration(cs)
    ensures ParseClaimsJws(cfg, now, Compact(cfg, cs)) ==
              if IsExpiredAt(cs, now) then Failure(ExpiredJwt) else Success(cs)
  {
    ParseCompactStructure(cfg, now, cfg, cs);
  }

  /** A token signed under one key does not parse under a key whose
      signature of the same input differs: parsing fails, no claims. */
  lemma ParseUnderOtherKey(cfg: JwtSettings, other: JwtSettings, now: int, cs: Claims)
    requires other.hs256(other.signingKey, SigningInput(JoseHeader, EncodeClaims(cs)))
             != cfg.hs256(cfg.signingKey, SigningInput(JoseHeader, EncodeClaims(cs)))
    ensures ParseClaimsJws(other, now, Compact(cfg, cs)) == Failure(SignatureMismatch)
  {
    ParseCompactStructure(other, now, cfg, cs);
  }

  /** A built token read back at any later instant `at`: the subject is the
      username whatever the extra claims say, the expiration is the issue
      time plus the lifetime (in whole seconds), and once that has passed
      the parser rejects the token. */
  lemma BuiltTokenReadBack(cfg: JwtSettings, now: nat, at: int, extra: Claims, username: string, ttl: int)
    ensures ExtractUsername(cfg, at, BuildToken(cfg, now, extra, username, ttl)) ==
              if Seconds(now + ttl) * 1000 < at then Failure(ExpiredJwt) else Success(Some(username))
    ensures ExtractExpiration(cfg, at, BuildToken(cfg, now, extra, username, ttl)) ==
              if Seconds(now + ttl) * 1000 < at then Failure(ExpiredJwt) else Success(Some(Seconds(now + ttl) * 1000))
  {
    var cs := BuildClaims(extra, username, Seconds(now), Seconds(now + ttl));
    ParseCompact(cfg, at, cs);
  }

  /** The claims of a token built without extra claims, in order. */
  function PlainClaims(username: string, issuedAt: int, expiration: int): Claims {
    [Claim(SubjectClaim, Str(username)), Claim(IssuedAtClaim, Num(issuedAt)),
     Claim(ExpirationClaim, Num(expiration))]
  }

  lemma BuildWithoutExtraClaims(username: string, issuedAt: int, expiration: int)
    ensures BuildClaims([], username, issuedAt, expiration) == PlainClaims(username, issuedAt, expiration)
  {
    assert SubjectClaim[0] != IssuedAtClaim[0] && SubjectClaim[0] != ExpirationClaim[0];
    assert IssuedAtClaim[0] != ExpirationClaim[0];
    var sub := Claim(SubjectClaim, Str(username));
    var iat := Claim(IssuedAtClaim, Num(issuedAt));
    var exp := Num(expiration);
    assert Put([], SubjectClaim, Str(username)) == [sub];
    assert Put([sub], IssuedAtClaim, Num(issuedAt)) == [sub] + Put([], IssuedAtClaim, Num(issuedAt));
    assert [sub, iat][1..] == [iat];
    assert Put([iat], ExpirationClaim, exp) == [iat] + Put([], ExpirationClaim, exp);
  }

  /** A token built without extra claims carries exactly the subject, the
      issue time and the expiration; read back at `at` it gives them back
      unless expired. */
  lemma PlainTokenClaims(cfg: JwtSettings, now: nat, at: int, username: string, ttl: int)
    ensures ParseClaimsJws(cfg, at, BuildToken(cfg, now, [], username, ttl)) ==
              var cs := PlainClaims(username, Seconds(now), Seconds(now + ttl));
              if IsExpiredAt(cs, at) then Failure(ExpiredJwt) else Success(cs)
  {
    var iat, exp := Seconds(now), Seconds(now + ttl);
    BuildWithoutExtraClaims(username, iat, exp);
    ParseCompact(cfg, at, PlainClaims(username, iat, exp));
  }

  /** The access token carries exactly the subject, the issue time and an
      expiration `accessExpiration` later. */
  lemma GeneratedAccessTokenClaims(cfg: JwtSettings, now: nat, at: int, username: string)
    ensures ParseClaimsJws(cfg, at, GenerateAccessToken(cfg, now, username)) ==
              var cs := PlainClaims(username, Seconds(now), Seconds(now + cfg.accessExpiration));
              if IsExpiredAt(cs, at) then Failure(ExpiredJwt) else Success(cs)
  {
    PlainTokenClaims(cfg, now, at, username, cfg.accessExpiration);
  }

  /** The refresh token carries the same claims with an expiration
      `refreshExpiration` after the issue time. */
  lemma GeneratedRefreshTokenClaims(cfg: JwtSettings, now: nat, at: int, username: string)
    ensures ParseClaimsJws(cfg, at, GenerateRefreshToken(cfg, now, username)) ==
              var cs := PlainClaims(username, Seconds(now), Seconds(now + cfg.refreshExpiration));
              if IsExpiredAt(cs, at) then Failure(ExpiredJwt) else Success(cs)
  {
    PlainTokenClaims(cfg, now, at, username, cfg.refreshExpiration);
  }

  /** Expiry is strict: a token whose expiration equals `now` is still
      accepted, one whose expiration is a millisecond earlier is not. */
  lemma ExpiryIsStrict(cfg: JwtSettings, cs: Claims, now: int)
    requires WellTypedExpiration(cs) && ExpiresAt(cs).Some?
    ensures ExpiresAt(cs).value == now ==> IsTokenExpired(cfg, now, Compact(cfg, cs)) == Success(false)
    ensures ExpiresAt(cs).value < now ==> IsTokenExpired(cfg, now, Compact(cfg, cs)) == Failure(ExpiredJwt)
  {
    ParseCompact(cfg, now, cs);
  }

  /** A token built with lifetime zero is rejected at once, except when it
      is built on a whole second, where the strict comparison lets it pass. */
  lemma ZeroLifetime(cfg: JwtSettings, now: nat, extra: Claims, username: string, ttl: int)
    requires ttl == 0
    ensures ExtractUsername(cfg, now, BuildToken(cfg, now, extra, username, ttl)) ==
              if Seconds(now) * 1000 == now then Success(Some(username)) else Failure(ExpiredJwt)
  {
    BuiltTokenReadBack(cfg, now, now, extra, username, ttl);
    assert Seconds(now + ttl) == Seconds(now);
  }

  /** A built token checked against its own subject at an instant `at` is
      valid until its expiration has passed; after that the parser rejects
      it. */
  lemma BuiltTokenValidity(cfg: JwtSettings, now: nat, at: int, extra: Claims, username: string, ttl: int)
    ensures IsTokenValid(cfg, at, BuildToken(cfg, now, extra, username, ttl), username) ==
              if Seconds(now + ttl) * 1000 < at then Failure(ExpiredJwt) else Success(true)
  {
    var cs := BuildClaims(extra, username, Seconds(now), Seconds(now + ttl));
    ParseCompact(cfg, at, cs);
  }

  /** With a lifetime of at least a second, a freshly built token is valid
      for its own user at the moment it is built. */
  lemma FreshTokenIsValid(cfg: JwtSettings, now: nat, extra: Claims, username: string, ttl: int)
    requires ttl >= 1000
    ensures IsTokenValid(cfg, now, BuildToken(cfg, now, extra, username, ttl), username) == Success(true)
  {
    BuiltTokenValidity(cfg, now, now, extra, username, ttl);
  }

  lemma SameSecondSameExpiry(now1: nat, now2: nat, ttl: int)
    requires now1 / 1000 == now2 / 1000
    requires ttl >= 0 && ttl % 1000 == 0
    ensures Seconds(now1) == Seconds(now2) && Seconds(now1 + ttl) == Seconds(now2 + ttl)
  {
    var k := ttl / 1000;
    assert ttl == k * 1000;
    assert (now1 + k * 1000) / 1000 == now1 / 1000 + k;
    assert (now2 + k * 1000) / 1000 == now2 / 1000 + k;
  }

  /** Minting is deterministic: two access tokens for one user in the same
      second are the same string when the lifetime is whole seconds. */
  lemma SameSecondSameAccessToken(cfg: JwtSettings, now1: nat, now2: nat, username: string)
    requires now1 / 1000 == now2 / 1000
    requires cfg.accessExpiration >= 0 && cfg.accessExpiration % 1000 == 0
    ensures GenerateAccessToken(cfg, now1, username) == GenerateAccessToken(cfg, now2, username)
  {
    SameSecondSameExpiry(now1, now2, cfg.accessExpiration);
    SameSecondsSameToken(cfg, now1, now2, [], username, cfg.accessExpiration);
  }

  lemma SameSecondsSameToken(cfg: JwtSettings, now1: nat, now2: nat, extra: Claims, username: string, ttl: int)
    requires Seconds(now1) == Seconds(now2) && Seconds(now1 + ttl) == Seconds(now2 + ttl)
    ensures BuildToken(cfg, now1, extra, username, ttl) == BuildToken(cfg, now2, extra, username, ttl)
  {
  }
}

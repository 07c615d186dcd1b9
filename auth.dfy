/** The token authority of pkg/auth: JSON Web Tokens (RFC 7519) in JWS compact
    serialisation (section 7.1 of RFC 7515), signed with HMAC SHA-256 (section
    3.2 of RFC 7518).  The cryptography is abstract: a token records the key its
    MAC was computed with, and verifying is comparing that key. */
module Auth {
  import opened Wrappers
  import opened Errs

  /** The "alg" header values a parsed token can carry. */
  datatype Alg = HS256 | HS384 | HS512 | RS256 | ES256 | Unsecured

  /** `*jwt.SigningMethodHMAC` covers the three HS algorithms. */
  predicate IsHmac(alg: Alg)
  {
    alg.HS256? || alg.HS384? || alg.HS512?
  }

  /** 560 hours, in seconds: the validity of a minted token. */
  const TokenLifetime: int := 560 * 3600

  const TokenIssuer: string := "droplet-api"
  const TokenSubject: string := "client"
  const TokenAudience: seq<string> := ["droplet"]

  /** The claims of a token as the parser sees them (absent claims are None).
      Times are whole seconds since the epoch. */
  datatype Claims = Claims(
    username: Option<string>,
    userId: Option<string>,
    expiresAt: Option<int>,
    issuedAt: Option<int>,
    notBefore: Option<int>,
    issuer: Option<string>,
    subject: Option<string>,
    id: Option<string>,
    audience: seq<string>)

  /** A token string: a well-formed compact JWS whose MAC was made with `key`,
      or text that does not parse as one. */
  datatype Jws = Signed(alg: Alg, key: string, claims: Claims) | Malformed(text: string)

  /** `jwtAuthenticator`. */
  datatype Authenticator = Authenticator(signKey: string)

  datatype GenerateTokenClaimsOptions = GenerateTokenClaimsOptions(userId: string, userName: string)
  datatype ParseTokenClaimsOutput = ParseTokenClaimsOutput(userId: string, username: string)

  /** `NewAuth`, as written: the signing key is left empty. */
  function NewAuth(): (a: Authenticator)
    ensures a.signKey == ""
  {
    Authenticator("")
  }

  /** An authenticator that is given its signing key, refusing the empty key. */
  function NewAuthWithKey(key: string): (a: Authenticator)
    requires key != ""
    ensures a.signKey == key && a.signKey != NewAuth().signKey
  {
    Authenticator(key)
  }

  /** The time checks the parser applies: `now` before the expiry, and not
      before the not-before time; an absent claim is not checked. */
  predicate Live(c: Claims, now: int)
  {
    (c.expiresAt.Some? ==> now < c.expiresAt.value) && (c.notBefore.Some? ==> c.notBefore.value <= now)
  }

  /** `GenerateToken` at clock reading `now`, with `jti` the fresh token id. */
  function GenerateToken(a: Authenticator, opt: GenerateTokenClaimsOptions, now: int, jti: string): (t: Jws)
    ensures t.Signed? && t.alg == HS256 && t.key == a.signKey
    ensures t.claims.username == Some(opt.userName) && t.claims.userId == Some(opt.userId)
    ensures t.claims.issuedAt == t.claims.notBefore == Some(now)
    ensures t.claims.expiresAt == Some(now + TokenLifetime)
    ensures t.claims.issuer == Some(TokenIssuer) && t.claims.subject == Some(TokenSubject)
    ensures t.claims.audience == TokenAudience
    ensures jti != "" ==> t.claims.id == Some(jti)
  {
    Signed(HS256, a.signKey, Claims(
      Some(opt.userName), Some(opt.userId),
      Some(now + TokenLifetime), Some(now), Some(now),
      Some(TokenIssuer), Some(TokenSubject),
      if jti == "" then None else Some(jti),  // "jti" is omitted when empty
      TokenAudience))
  }

  const ParseFailure: string := "failed to parse jwt token: "
  const TokenNotValid: Error := Plain("token is not valid")

  /** `ParseToken` at clock reading `now`. */
  function ParseToken(a: Authenticator, token: Jws, now: int): (r: Result<ParseTokenClaimsOutput, Error>)
    ensures r.Success? <==>
      && token.Signed? && IsHmac(token.alg) && token.key == a.signKey
      && Live(token.claims, now)
      && token.claims.username.Some? && token.claims.userId.Some?
    ensures r.Success? ==> r.value == ParseTokenClaimsOutput(token.claims.userId.value, token.claims.username.value)
    ensures r.Failure? ==> !IsExpected(r.error)
  {
    match token
    case Malformed(_) => Failure(Wrapped(ParseFailure, Plain("token is malformed")))
    case Signed(alg, key, c) =>
      if !IsHmac(alg) then
        Failure(Wrapped(ParseFailure, Plain("token is unverifiable: unexpected signing method")))
      else if key != a.signKey then
        Failure(Wrapped(ParseFailure, Plain("token signature is invalid")))
      else if c.expiresAt.Some? && !(now < c.expiresAt.value) then
        Failure(Wrapped(ParseFailure, Plain("token has invalid claims: token is expired")))
      else if c.notBefore.Some? && now < c.notBefore.value then
        Failure(Wrapped(ParseFailure, Plain("token has invalid claims: token is not valid yet")))
      else if c.username.None? then
        Failure(TokenNotValid)
      else if c.userId.None? then
        Failure(TokenNotValid)
      else
        Success(ParseTokenClaimsOutput(c.userId.value, c.username.value))
  }

  /** Mint then parse on one authenticator, inside the validity window, gives
      back the identity the token was minted for. */
  lemma MintThenParse(a: Authenticator, opt: GenerateTokenClaimsOptions, now: int, jti: string, t: int)
    requires now <= t < now + TokenLifetime
    ensures ParseToken(a, GenerateToken(a, opt, now, jti), t) == Success(ParseTokenClaimsOutput(opt.userId, opt.userName))
  {
  }

  /** A minted token is rejected from 560 hours after minting on, and before it
      was minted. */
  lemma MintedTokenOutsideWindow(a: Authenticator, opt: GenerateTokenClaimsOptions, now: int, jti: string, t: int)
    requires t < now || now + TokenLifetime <= t
    ensures ParseToken(a, GenerateToken(a, opt, now, jti), t).Failure?
  {
  }

  /** A token minted under one key is rejected under any other key. */
  lemma OtherKeyRejected(a: Authenticator, b: Authenticator, opt: GenerateTokenClaimsOptions, now: int, jti: string, t: int)
    requires a.signKey != b.signKey
    ensures ParseToken(b, GenerateToken(a, opt, now, jti), t).Failure?
  {
  }

  /** A token whose algorithm is not HMAC is rejected whatever it carries. */
  lemma NonHmacRejected(a: Authenticator, alg: Alg, key: string, c: Claims, now: int)
    requires !IsHmac(alg)
    ensures ParseToken(a, Signed(alg, key, c), now).Failure?
  {
  }

  /** The claims a forger writes: an identity and no time limits. */
  function ForgedClaims(userId: string, username: string): Claims
  {
    Claims(Some(username), Some(userId), None, None, None, None, None, None, [])
  }

  /** As written, `NewAuth` verifies with the empty key, so a token whose MAC
      is computed with the empty key passes for any identity, at any time. */
  lemma EmptyKeyForgery(userId: string, username: string, now: int)
    ensures ParseToken(NewAuth(), Signed(HS256, "", ForgedClaims(userId, username)), now)
         == Success(ParseTokenClaimsOutput(userId, username))
  {
  }

  /** With a configured key, a token made with any other key, the empty one
      included, is rejected. */
  lemma ConfiguredKeyRejectsForgery(key: string, forgerKey: string, alg: Alg, c: Claims, now: int)
    requires key != "" && forgerKey != key
    ensures ParseToken(NewAuthWithKey(key), Signed(alg, forgerKey, c), now).Failure?
    ensures ParseToken(NewAuthWithKey(key), Signed(alg, "", c), now).Failure?
  {
  }
}

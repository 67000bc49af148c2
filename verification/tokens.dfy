/**
 * Scoped access tokens: a JSON Web Token (RFC 7519) whose `type` claim
 * restricts it to sensitive-data access. Signing and verification are
 * abstracted as a sealed pair keyed by the secret: a token either carries
 * the claims and the key that sealed them, or is text that does not parse.
 */
module TokenService {
  import opened Wrappers
  import Settings

  /** The sentinel value of the `type` claim. */
  const SensitiveDataTokenType := "sensitive_data_access"

  /**
   * Verified claims. `iat` and `exp` are NumericDate values, seconds since
   * the epoch (sections 2, 4.1.4 and 4.1.6 of RFC 7519); `exp` may carry a
   * fractional part.
   */
  datatype Claims = Claims(userId: int, tokenType: string, iat: int, exp: real)

  /** The object handed to the signer; the signer fills in `iat` when it is absent. */
  datatype Payload = Payload(userId: int, tokenType: string, iat: Option<int>, exp: real)

  datatype Token = Sealed(claims: Claims, key: string) | Malformed(text: string)

  /** Why the library's `verify` throws. */
  datatype VerifyError = BadFormat | BadSignature | Expired

  /** The token returned by a minting function, with its expiry instant in milliseconds. */
  datatype Minted = Minted(token: Token, expiresAt: int)

  /** The result of `validateSensitiveDataToken`; `error` is absent when valid. */
  datatype TokenCheck = TokenCheck(userId: int, valid: bool, error: Option<string>)

  /** Seconds since the epoch as the library reads the clock: `Math.floor(Date.now() / 1000)`. */
  function EpochSeconds(nowMs: int): int {
    nowMs / 1000
  }

  /** `jwt.sign`: seal the payload under `secret`, stamping `iat` from the clock when absent. */
  function Sign(payload: Payload, secret: string, nowMs: int): (t: Token)
    ensures t.Sealed? && t.key == secret
    ensures t.claims.userId == payload.userId && t.claims.tokenType == payload.tokenType
    ensures t.claims.exp == payload.exp
    ensures t.claims.iat == payload.iat.GetOr(EpochSeconds(nowMs))
  {
    Sealed(Claims(payload.userId, payload.tokenType, payload.iat.GetOr(EpochSeconds(nowMs)), payload.exp), secret)
  }

  /**
   * `jwt.verify`: the claims of a token sealed under `secret` whose `exp`
   * is still ahead of the clock; the library treats a token as expired
   * once the floored clock second reaches `exp`.
   */
  function Verify(token: Token, secret: string, nowMs: int): (r: Result<Claims, VerifyError>)
    ensures r.Success? <==> token.Sealed? && token.key == secret && (EpochSeconds(nowMs) as real) < token.claims.exp
    ensures r.Success? ==> r.value == token.claims
  {
    match token
    case Malformed(_) => Failure(BadFormat)
    case Sealed(claims, key) =>
      if key != secret then Failure(BadSignature)
      else if EpochSeconds(nowMs) as real >= claims.exp then Failure(Expired)
      else Success(claims)
  }

  /** `decodeToken`: the verified claims, or none when the verifier throws for any reason. */
  function DecodeToken(token: Token, secret: string, nowMs: int): (r: Option<Claims>)
    ensures r.Some? <==> Verify(token, secret, nowMs).Success?
    ensures r.Some? ==> r.value == token.claims
  {
    match Verify(token, secret, nowMs)
    case Success(claims) => Some(claims)
    case Failure(_) => None
  }

  predicate IsValidTokenType(tokenType: string) {
    tokenType == SensitiveDataTokenType
  }

  /** `calculateTokenExpiry`: the instant `minutes` from now, in milliseconds. */
  function CalculateTokenExpiry(minutes: int, nowMs: int): (expiresAt: int)
    ensures expiresAt - nowMs == Settings.MinutesToMillis(minutes)
  {
    nowMs + Settings.MinutesToMillis(minutes)
  }

  /** `createSensitiveDataTokenPayload`: the user, the sentinel type and `exp` as unrounded seconds. */
  function CreateSensitiveDataTokenPayload(userId: int, expiresAtMs: int): (p: Payload)
    ensures p.userId == userId && IsValidTokenType(p.tokenType) && p.iat.None?
    ensures p.exp * 1000.0 == expiresAtMs as real
  {
    Payload(userId, SensitiveDataTokenType, None, expiresAtMs as real / 1000.0)
  }

  /** `generateSensitiveDataToken` of the shared helper. */
  function GenerateSensitiveDataToken(config: Settings.Config, secret: string, userId: int, nowMs: int): (m: Minted)
    ensures m.expiresAt == nowMs + Settings.MinutesToMillis(config.jwtExpiryMinutes)
    ensures m.token.Sealed? && m.token.key == secret
    ensures m.token.claims.userId == userId && IsValidTokenType(m.token.claims.tokenType)
    ensures m.token.claims.exp * 1000.0 == m.expiresAt as real
    ensures m.token.claims.iat == EpochSeconds(nowMs)
  {
    var expiresAt := CalculateTokenExpiry(config.jwtExpiryMinutes, nowMs);
    Minted(Sign(CreateSensitiveDataTokenPayload(userId, expiresAt), secret, nowMs), expiresAt)
  }

  /**
   * `validateSensitiveDataToken`. Never throws: a verifier failure of any
   * kind is the single opaque failure; a verified token of another type is
   * invalid but still reports its user.
   */
  function ValidateSensitiveDataToken(token: Token, secret: string, nowMs: int): (r: TokenCheck)
    ensures Verify(token, secret, nowMs).Failure? ==>
      r == TokenCheck(0, false, Some("Token verification failed"))
    ensures Verify(token, secret, nowMs).Success? && token.claims.tokenType == SensitiveDataTokenType ==>
      r == TokenCheck(token.claims.userId, true, None)
    ensures Verify(token, secret, nowMs).Success? && token.claims.tokenType != SensitiveDataTokenType ==>
      r == TokenCheck(token.claims.userId, false, Some("Invalid token type"))
    ensures r.valid <==> r.error.None?
  {
    match DecodeToken(token, secret, nowMs)
    case None => TokenCheck(0, false, Some("Token verification failed"))
    case Some(decoded) =>
      var valid := IsValidTokenType(decoded.tokenType);
      TokenCheck(decoded.userId, valid, if valid then None else Some("Invalid token type"))
  }

  /** The floored second of `t` is before `exp` exactly when whole seconds before `exp` ms have not run out. */
  lemma SecondsBeforeExpiry(t: int, expMs: int)
    ensures (EpochSeconds(t) as real) < expMs as real / 1000.0 <==> EpochSeconds(t) * 1000 < expMs
  {
    var q := EpochSeconds(t);
    assert (q as real) * 1000.0 == (q * 1000) as real;
  }

  /**
   * Round trip: a freshly generated token validated with the same secret
   * reports its user as valid exactly while the floored clock second is
   * before its expiry.
   */
  lemma GenerateThenValidate(config: Settings.Config, secret: string, userId: int, nowMs: int, laterMs: int)
    ensures var m := GenerateSensitiveDataToken(config, secret, userId, nowMs);
      var check := ValidateSensitiveDataToken(m.token, secret, laterMs);
      && (check.valid <==> EpochSeconds(laterMs) * 1000 < m.expiresAt)
      && (check.valid ==> check == TokenCheck(userId, true, None))
      && (!check.valid ==> check == TokenCheck(0, false, Some("Token verification failed")))
  {
    var m := GenerateSensitiveDataToken(config, secret, userId, nowMs);
    assert m.token.claims.exp == m.expiresAt as real / 1000.0;
    SecondsBeforeExpiry(laterMs, m.expiresAt);
  }

  /** In particular, any instant before the returned expiry validates. */
  lemma GenerateThenValidateBeforeExpiry(config: Settings.Config, secret: string, userId: int, nowMs: int, laterMs: int)
    requires laterMs < GenerateSensitiveDataToken(config, secret, userId, nowMs).expiresAt
    ensures ValidateSensitiveDataToken(GenerateSensitiveDataToken(config, secret, userId, nowMs).token, secret, laterMs)
         == TokenCheck(userId, true, None)
  {
    GenerateThenValidate(config, secret, userId, nowMs, laterMs);
  }

  /** A token sealed under another key fails as opaquely as an expired one, without revealing its user. */
  lemma ForeignKeyIsOpaqueFailure(config: Settings.Config, secret: string, other: string, userId: int, nowMs: int, laterMs: int)
    requires other != secret
    ensures ValidateSensitiveDataToken(GenerateSensitiveDataToken(config, other, userId, nowMs).token, secret, laterMs)
         == TokenCheck(0, false, Some("Token verification failed"))
  {
  }
}

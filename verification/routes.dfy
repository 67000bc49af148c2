/**
 * The two step-up endpoints, `POST /request-code` and `POST /verify-code`,
 * each as a function from the database, the authenticated user, the
 * request and the clock readings to the next database and the response.
 * Audit rows appended by a handler are the suffix of the audit table beyond
 * its length on entry.
 */
module VerificationRoutes {
  import opened Wrappers
  import opened VerificationStore
  import Settings
  import Decimal
  import TokenService

  /** The two action kinds the limiter keeps apart. */
  const CodeRequest := "code_request"
  const CodeVerify := "code_verify"

  const RequestRateLimited := "CODE_REQUEST_RATE_LIMITED"
  const CodeRequested := "CODE_REQUESTED"
  const VerifyInvalidFormat := "CODE_VERIFY_INVALID_FORMAT"
  const VerifyRateLimited := "CODE_VERIFY_RATE_LIMITED"
  const VerifyInvalid := "CODE_VERIFY_INVALID"
  const VerifyExpired := "CODE_VERIFY_EXPIRED"
  const VerifiedSuccess := "CODE_VERIFIED_SUCCESS"

  /** A value of `Math.random()`. */
  type UnitDraw = r: real | 0.0 <= r < 1.0

  /** What the request headers contribute to audit rows: client address and user agent. */
  datatype RequestMeta = RequestMeta(ipAddress: string, userAgent: string)

  /** The `code` field of the verify-code body as the handler receives it. */
  datatype BodyCode =
    | Absent              // `undefined` or `null`
    | NonString           // a number, boolean, array or object
    | Text(text: string)

  datatype Response =
    | CodeSent(message: string, expiresAt: Millis)
    | AccessGranted(message: string, expiresAt: Millis, sessionDuration: int, token: TokenService.Token)
    | BadRequest(error: string)
    | TooManyRequests(error: string, retryAfter: int)
    | ServerError(error: string)
  {
    /** The HTTP status the response is sent with. */
    function Status(): int {
      match this
      case CodeSent(_, _) => 200
      case AccessGranted(_, _, _, _) => 200
      case BadRequest(_) => 400
      case TooManyRequests(_, _) => 429
      case ServerError(_) => 500
    }
  }

  /** A handler's effect: the database it leaves behind and its answer. */
  datatype Handled = Handled(db: Db, response: Response)

  // ---------------------------------------------------------------------
  // Code and token generation
  // ---------------------------------------------------------------------

  /** `Math.floor(100000 + Math.random() * 900000)`. */
  function CodeValue(draw: UnitDraw): (n: nat)
    ensures 100000 <= n <= 999999
  {
    (100000.0 + draw * 900000.0).Floor
  }

  /** `generateVerificationCode`: six decimal digits, never starting with `0`. */
  function GenerateVerificationCode(draw: UnitDraw): (code: string)
    ensures |code| == 6 && Decimal.AllDigits(code) && code[0] != '0'
    ensures Decimal.DigitsValue(code) == CodeValue(draw)
  {
    var n := CodeValue(draw);
    Decimal.SixDigitLength(n);
    Decimal.NatToStringRoundTrip(n);
    Decimal.NatToString(n)
  }

  /**
   * The route's own `generateSensitiveDataToken`: the same claims as the
   * shared helper, but with `iat` and `exp` floored to whole seconds.
   */
  function MintRouteToken(config: Settings.Config, secret: string, userId: UserId, nowMs: Millis): (m: TokenService.Minted)
    ensures m.expiresAt == nowMs + Settings.MinutesToMillis(config.jwtExpiryMinutes)
    ensures m.token.Sealed? && m.token.key == secret
    ensures m.token.claims.userId == userId && TokenService.IsValidTokenType(m.token.claims.tokenType)
    ensures m.token.claims.iat == nowMs / 1000
    ensures m.token.claims.exp == (m.expiresAt / 1000) as real
  {
    var expiresAt := nowMs + Settings.MinutesToMillis(config.jwtExpiryMinutes);
    var payload := TokenService.Payload(userId, "sensitive_data_access", Some(nowMs / 1000), (expiresAt / 1000) as real);
    TokenService.Minted(TokenService.Sign(payload, secret, nowMs), expiresAt)
  }

  // ---------------------------------------------------------------------
  // Audit payload redaction
  // ---------------------------------------------------------------------

  function Min(a: int, b: int): int {
    if a <= b then a else b
  }

  /** The UTF-16 code units JavaScript spends on `c`: two for a character outside the Basic Multilingual Plane. */
  function Utf16Units(c: char): nat {
    if c as int > 0xFFFF then 2 else 1
  }

  /** JavaScript's `length` of a string, which counts UTF-16 code units rather than characters. */
  function Utf16Length(s: string): (n: nat)
    ensures |s| <= n <= 2 * |s|
  {
    if |s| == 0 then 0 else Utf16Length(s[..|s| - 1]) + Utf16Units(s[|s| - 1])
  }

  /** On text without characters outside the Basic Multilingual Plane, the two lengths agree. */
  lemma {:induction false} Utf16LengthOfBmp(s: string)
    requires forall i :: 0 <= i < |s| ==> s[i] as int <= 0xFFFF
    ensures Utf16Length(s) == |s|
    decreases |s|
  {
    if |s| > 0 {
      Utf16LengthOfBmp(s[..|s| - 1]);
    }
  }

  /** A string of decimal digits has as many UTF-16 units as characters. */
  lemma Utf16LengthOfDigits(s: string)
    requires Decimal.AllDigits(s)
    ensures Utf16Length(s) == |s|
  {
    Utf16LengthOfBmp(s);
  }

  /** The UTF-16 length of a one- or two-character prefix, unfolded. */
  lemma Utf16LengthOfShortPrefix(s: string)
    requires |s| >= 1
    ensures Utf16Length(s[..1]) == Utf16Units(s[0])
    ensures |s| >= 2 ==> Utf16Length(s[..2]) == Utf16Units(s[0]) + Utf16Units(s[1])
    ensures |s| >= 3 ==> Utf16Length(s[..3]) >= 3
  {
    assert s[..1][..0] == [];
    if |s| >= 2 {
      assert s[..2][..1] == s[..1];
    }
    if |s| >= 3 {
      assert s[..3][..2] == s[..2];
    }
  }

  /**
   * The characters `code.substring(0, 2)` keeps: the longest prefix of
   * whole characters within the first two UTF-16 units. When the first
   * character lies in the Basic Multilingual Plane and the second does
   * not, JavaScript keeps half of the second's surrogate pair, which a
   * string of characters cannot hold; that half is dropped here.
   */
  function MaskPrefix(code: string): (p: string)
    ensures p <= code && Utf16Length(p) <= 2
    ensures p == code || Utf16Length(code[..|p| + 1]) > 2
  {
    if |code| == 0 then ""
    else
      Utf16LengthOfShortPrefix(code);
      if |code| == 1 || Utf16Units(code[0]) == 2 || Utf16Units(code[1]) == 2 then code[..1]
      else code[..2]
  }

  /** `code.substring(0, 2) + "****"`. */
  function MaskCode(code: string): (masked: string)
    ensures |masked| >= 4 && masked[|masked| - 4..] == "****"
    ensures masked[..|masked| - 4] <= code && Utf16Length(masked[..|masked| - 4]) <= 2
  {
    var p := MaskPrefix(code);
    assert (p + "****")[..|p|] == p;
    p + "****"
  }

  /** On a code without characters outside the Basic Multilingual Plane, the mask keeps exactly the first two characters. */
  lemma MaskOfBmpCode(code: string)
    requires forall i :: 0 <= i < |code| ==> code[i] as int <= 0xFFFF
    ensures MaskCode(code) == code[..Min(2, |code|)] + "****"
  {
  }

  /**
   * The masked code written by the format-error branch, as the source
   * computes it: `code?.substring(0, 2) + "****"`. A missing code gives
   * `undefined****`; a non-string value has no `substring` and the call
   * throws, which is `None` here.
   */
  function FormatHintAsWritten(body: BodyCode): (hint: Option<string>)
    ensures hint.None? <==> body.NonString?
  {
    match body
    case Absent => Some("undefined****")
    case NonString => None
    case Text(s) => Some(MaskCode(s))
  }

  /** The masked code the format-error branch writes once non-string values are masked completely. */
  function FormatHint(body: BodyCode): (hint: string)
    ensures !body.NonString? ==> FormatHintAsWritten(body) == Some(hint)
    ensures body.NonString? ==> hint == "****"
  {
    match body
    case Absent => "undefined****"
    case NonString => "****"
    case Text(s) => MaskCode(s)
  }

  /** An audit payload that reveals no more of `code` than a prefix of at most two UTF-16 units, followed by the four stars. */
  predicate RevealsAtMostTwo(data: Option<EventData>, code: string) {
    data.None? ||
      (&& data.value.CodeHint?
       && var m := data.value.masked;
       && |m| >= 4 && m[|m| - 4..] == "****"
       && m[..|m| - 4] <= code && Utf16Length(m[..|m| - 4]) <= 2)
  }

  // ---------------------------------------------------------------------
  // Shapes of table changes, for the handlers' contracts
  // ---------------------------------------------------------------------

  /** `after` is `before` plus one row for this user, event and payload. */
  ghost predicate OneAuditAppended(before: seq<AuditLog>, after: seq<AuditLog>, userId: UserId, eventType: string, eventData: Option<EventData>) {
    && |after| == |before| + 1
    && after[..|before|] == before
    && Last(after).userId == userId
    && Last(after).eventType == eventType
    && Last(after).eventData == eventData
  }

  /** `after` holds exactly the codes of `before` that the expiry sweep at `now` keeps. */
  ghost predicate SweptCodes(before: seq<VerificationCode>, after: seq<VerificationCode>, now: Millis) {
    forall row :: row in after <==> row in before && row.expiresAt >= now
  }

  /** `after` holds exactly the limiter rows of `before` that the cleanup pass from `windowStart` keeps. */
  ghost predicate SweptLimits(before: seq<RateLimit>, after: seq<RateLimit>, windowStart: Millis) {
    forall row :: row in after <==> row in before && row.windowStart >= windowStart
  }

  /** `after` is the swept `before` plus one unit row for (`userId`, `requestType`) stamped `at`. */
  ghost predicate LimitRowAppended(before: seq<RateLimit>, after: seq<RateLimit>, windowStart: Millis, userId: UserId, requestType: string, at: Millis) {
    && |after| >= 1
    && SweptLimits(before, after[..|after| - 1], windowStart)
    && Last(after).userId == userId
    && Last(after).requestType == requestType
    && Last(after).requestCount == 1
    && Last(after).windowStart == at
  }

  // ---------------------------------------------------------------------
  // POST /request-code
  // ---------------------------------------------------------------------

  /**
   * Sweep expired codes, consult the `code_request` limiter, and on
   * success store a fresh code, count the request and audit it. `email` is
   * what the user lookup yields; the e-mail itself is not modelled.
   */
  function RequestCode(
    config: Settings.Config, db: Db, userId: UserId, meta: RequestMeta,
    now: Millis, draw: UnitDraw, email: Option<string>): (r: Handled)
    ensures |r.db.audits| == |db.audits| + 1 && r.db.audits[..|db.audits|] == db.audits
    ensures r.response.CodeSent? <==> RequestAllowed(config, db, userId, now)
    ensures r.response.CodeSent? || r.response.TooManyRequests?
  {
    var swept := CleanupExpiredCodes(db, now);
    var check := CheckRateLimit(swept, userId, CodeRequest, config.codeRequest.maxAttempts, config.codeRequest.windowMinutes, now);
    if !check.allowed then
      var audited := CreateAuditLog(check.db, userId, RequestRateLimited, None, Some(meta.ipAddress), Some(meta.userAgent), now);
      Handled(audited, TooManyRequests("Rate limit exceeded. Please try again later.", config.codeRequest.windowMinutes * 60))
    else
      var code := GenerateVerificationCode(draw);
      var expiresAt := now + Settings.MinutesToMillis(config.codeExpiryMinutes);
      var stored := CreateVerificationCode(check.db, userId, code, expiresAt, now);
      var counted := IncrementRateLimit(stored, userId, CodeRequest, now);
      var audited := CreateAuditLog(counted, userId, CodeRequested, Some(Recipient(email)), Some(meta.ipAddress), Some(meta.userAgent), now);
      Handled(audited, CodeSent("Verification code sent to your email address", expiresAt))
  }

  /** Whether the `code_request` limiter lets this user through at `now`. */
  predicate RequestAllowed(config: Settings.Config, db: Db, userId: UserId, now: Millis) {
    InWindowTotal(db.limits, userId, CodeRequest, WindowStart(now, config.codeRequest.windowMinutes)) < config.codeRequest.maxAttempts
  }

  /** A refused request sweeps both tables, writes only the rate-limit audit row and answers 429 with the window in seconds. */
  lemma RequestRefused(
    config: Settings.Config, db: Db, userId: UserId, meta: RequestMeta,
    now: Millis, draw: UnitDraw, email: Option<string>)
    requires !RequestAllowed(config, db, userId, now)
    ensures var r := RequestCode(config, db, userId, meta, now, draw, email);
      && r.response == TooManyRequests("Rate limit exceeded. Please try again later.", config.codeRequest.windowMinutes * 60)
      && SweptCodes(db.codes, r.db.codes, now)
      && SweptLimits(db.limits, r.db.limits, WindowStart(now, config.codeRequest.windowMinutes))
      && OneAuditAppended(db.audits, r.db.audits, userId, RequestRateLimited, None)
  {
  }

  /**
   * An allowed request stores a fresh six-digit code for the user that
   * lives for the configured minutes, counts the request with a unit
   * limiter row, audits the recipient and reports the code's expiry.
   */
  lemma RequestSendsCode(
    config: Settings.Config, db: Db, userId: UserId, meta: RequestMeta,
    now: Millis, draw: UnitDraw, email: Option<string>)
    requires RequestAllowed(config, db, userId, now)
    ensures var r := RequestCode(config, db, userId, meta, now, draw, email);
      && r.response == CodeSent("Verification code sent to your email address", now + Settings.MinutesToMillis(config.codeExpiryMinutes))
      && |r.db.codes| >= 1
      && SweptCodes(db.codes, r.db.codes[..|r.db.codes| - 1], now)
      && Last(r.db.codes).userId == userId
      && Last(r.db.codes).code == GenerateVerificationCode(draw)
      && Last(r.db.codes).expiresAt == now + Settings.MinutesToMillis(config.codeExpiryMinutes)
      && Last(r.db.codes).usedAt.None?
      && LimitRowAppended(db.limits, r.db.limits, WindowStart(now, config.codeRequest.windowMinutes), userId, CodeRequest, now)
      && OneAuditAppended(db.audits, r.db.audits, userId, CodeRequested, Some(Recipient(email)))
  {
  }

  /** The limiter table after a request: the swept table, plus the unit row when the request was allowed. */
  lemma RequestCodeLimits(
    config: Settings.Config, db: Db, userId: UserId, meta: RequestMeta,
    now: Millis, draw: UnitDraw, email: Option<string>)
    ensures var r := RequestCode(config, db, userId, meta, now, draw, email);
      var kept := Surviving(db.limits, WindowStart(now, config.codeRequest.windowMinutes));
      r.db.limits == if RequestAllowed(config, db, userId, now) then kept + [RateLimit(db.nextLimitId, userId, CodeRequest, 1, now)] else kept
  {
    var r := RequestCode(config, db, userId, meta, now, draw, email);
    if RequestAllowed(config, db, userId, now) {
      assert r.db.limits == r.db.limits[..|r.db.limits| - 1] + [Last(r.db.limits)];
    }
  }

  // ---------------------------------------------------------------------
  // POST /verify-code
  // ---------------------------------------------------------------------

  /** The format gate: a non-empty string whose JavaScript `length` (in UTF-16 units) is the configured length; digits are not checked. */
  predicate WellFormed(config: Settings.Config, body: BodyCode) {
    body.Text? && body.text != "" && Utf16Length(body.text) == config.codeLength
  }

  /** The row the lookup finds once codes expired at `t0` are swept: the first unused exact match. */
  function FoundCode(db: Db, userId: UserId, code: string, t0: Millis): (found: Option<VerificationCode>)
    ensures found.Some? ==> found.value in db.codes && found.value.expiresAt >= t0 && IsActiveMatch(found.value, userId, code)
    ensures found.None? <==> forall row :: row in db.codes && row.expiresAt >= t0 ==> !IsActiveMatch(row, userId, code)
  {
    GetVerificationCode(CleanupExpiredCodes(db, t0).codes, userId, code)
  }

  /**
   * The verify-code handler. `t0` is the clock when the sweep and the
   * limiter run; `t1` is the later reading taken for the expiry test, the
   * mark-used stamp and the token. Outcomes are tried in order and each is
   * terminal: format, rate limit, lookup, expiry, success. The contract
   * holds for every outcome; the lemmas below state each outcome's effects.
   */
  function VerifyCode(
    config: Settings.Config, secret: string, db: Db, userId: UserId, body: BodyCode,
    meta: RequestMeta, t0: Millis, t1: Millis): (r: Handled)
    ensures |r.db.audits| == |db.audits| + 1 && r.db.audits[..|db.audits|] == db.audits
    ensures body.Text? ==> RevealsAtMostTwo(Last(r.db.audits).eventData, body.text)
    ensures r.response.Status() == 400 || r.response.Status() == 429 || r.response.AccessGranted?
  {
    var ip := Some(meta.ipAddress);
    var agent := Some(meta.userAgent);
    if !WellFormed(config, body) then
      var audited := CreateAuditLog(db, userId, VerifyInvalidFormat, Some(CodeHint(FormatHint(body))), ip, agent, t0);
      Handled(audited, BadRequest("Invalid verification code format"))
    else
      VerifyWellFormed(config, secret, db, userId, body.text, meta, t0, t1)
  }

  /** The verify-code handler past the format gate: limiter, lookup, expiry test and consumption. */
  function VerifyWellFormed(
    config: Settings.Config, secret: string, db: Db, userId: UserId, code: string,
    meta: RequestMeta, t0: Millis, t1: Millis): (r: Handled)
    ensures |r.db.audits| == |db.audits| + 1 && r.db.audits[..|db.audits|] == db.audits
    ensures RevealsAtMostTwo(Last(r.db.audits).eventData, code)
    ensures r.response.Status() == 400 || r.response.Status() == 429 || r.response.AccessGranted?
  {
    var ip := Some(meta.ipAddress);
    var agent := Some(meta.userAgent);
    var swept := CleanupExpiredCodes(db, t0);
    var check := CheckRateLimit(swept, userId, CodeVerify, config.codeVerify.maxAttempts, config.codeVerify.windowMinutes, t0);
    if !check.allowed then
      var audited := CreateAuditLog(check.db, userId, VerifyRateLimited, None, ip, agent, t0);
      Handled(audited, TooManyRequests("Too many verification attempts. Please try again later.", config.codeVerify.windowMinutes * 60))
    else
      VerifyLookup(config, secret, check.db, userId, code, meta, t0, t1)
  }

  /** The verify-code handler once the limiter allowed: look the code up, then test expiry and consume it. */
  function VerifyLookup(
    config: Settings.Config, secret: string, db: Db, userId: UserId, code: string,
    meta: RequestMeta, t0: Millis, t1: Millis): (r: Handled)
    ensures |r.db.audits| == |db.audits| + 1 && r.db.audits[..|db.audits|] == db.audits
    ensures RevealsAtMostTwo(Last(r.db.audits).eventData, code)
    ensures r.response.Status() == 400 || r.response.AccessGranted?
  {
    var ip := Some(meta.ipAddress);
    var agent := Some(meta.userAgent);
    match GetVerificationCode(db.codes, userId, code)
    case None =>
      var counted := IncrementRateLimit(db, userId, CodeVerify, t0);
      var audited := CreateAuditLog(counted, userId, VerifyInvalid, Some(CodeHint(MaskCode(code))), ip, agent, t0);
      Handled(audited, BadRequest("Invalid or expired verification code"))
    case Some(row) =>
      if t1 > row.expiresAt then
        var counted := IncrementRateLimit(db, userId, CodeVerify, t1);
        var audited := CreateAuditLog(counted, userId, VerifyExpired, Some(CodeHint(MaskCode(code))), ip, agent, t1);
        Handled(audited, BadRequest("Verification code has expired"))
      else
        var consumed := MarkVerificationCodeAsUsed(db, row.id, t1);
        var audited := CreateAuditLog(consumed, userId, VerifiedSuccess, Some(CodeHint(MaskCode(code))), ip, agent, t1);
        var minted := MintRouteToken(config, secret, userId, t1);
        Handled(audited, AccessGranted("Verification successful", minted.expiresAt,
                                      Settings.MinutesToMillis(config.jwtExpiryMinutes), minted.token))
  }

  /** Whether the `code_verify` limiter lets this user through at `t0`. */
  predicate VerifyAllowed(config: Settings.Config, db: Db, userId: UserId, t0: Millis) {
    InWindowTotal(db.limits, userId, CodeVerify, WindowStart(t0, config.codeVerify.windowMinutes)) < config.codeVerify.maxAttempts
  }

  /** A malformed code is answered 400 after one audit row; no sweep, no limiter check, no limiter row. */
  lemma VerifyRejectsMalformed(
    config: Settings.Config, secret: string, db: Db, userId: UserId, body: BodyCode,
    meta: RequestMeta, t0: Millis, t1: Millis)
    requires !WellFormed(config, body)
    ensures var r := VerifyCode(config, secret, db, userId, body, meta, t0, t1);
      && r.response == BadRequest("Invalid verification code format")
      && r.db.codes == db.codes && r.db.limits == db.limits
      && OneAuditAppended(db.audits, r.db.audits, userId, VerifyInvalidFormat, Some(CodeHint(FormatHint(body))))
  {
  }

  /** A refused limiter check writes only the rate-limit audit row and answers 429 with the window in seconds. */
  lemma VerifyRefusedByLimiter(
    config: Settings.Config, secret: string, db: Db, userId: UserId, code: string,
    meta: RequestMeta, t0: Millis, t1: Millis)
    requires WellFormed(config, Text(code)) && !VerifyAllowed(config, db, userId, t0)
    ensures var r := VerifyCode(config, secret, db, userId, Text(code), meta, t0, t1);
      && r.response == TooManyRequests("Too many verification attempts. Please try again later.", config.codeVerify.windowMinutes * 60)
      && SweptCodes(db.codes, r.db.codes, t0)
      && SweptLimits(db.limits, r.db.limits, WindowStart(t0, config.codeVerify.windowMinutes))
      && OneAuditAppended(db.audits, r.db.audits, userId, VerifyRateLimited, None)
  {
  }

  /** No unused, unexpired match: the attempt is counted, audited with a masked code and answered with the generic 400. */
  lemma VerifyNotFound(
    config: Settings.Config, secret: string, db: Db, userId: UserId, code: string,
    meta: RequestMeta, t0: Millis, t1: Millis)
    requires WellFormed(config, Text(code)) && VerifyAllowed(config, db, userId, t0)
    requires FoundCode(db, userId, code, t0).None?
    ensures var r := VerifyCode(config, secret, db, userId, Text(code), meta, t0, t1);
      && r.response == BadRequest("Invalid or expired verification code")
      && SweptCodes(db.codes, r.db.codes, t0)
      && LimitRowAppended(db.limits, r.db.limits, WindowStart(t0, config.codeVerify.windowMinutes), userId, CodeVerify, t0)
      && OneAuditAppended(db.audits, r.db.audits, userId, VerifyInvalid, Some(CodeHint(MaskCode(code))))
  {
  }

  /**
   * Three characters outside the Basic Multilingual Plane make six UTF-16
   * units, so such a code passes a six-unit gate and reaches the lookup;
   * its mask keeps the first character, which fills the first two units.
   */
  lemma AstralCodeReachesLookup(
    config: Settings.Config, secret: string, db: Db, userId: UserId,
    meta: RequestMeta, t0: Millis, t1: Millis)
    requires config.codeLength == 6 && VerifyAllowed(config, db, userId, t0)
    ensures WellFormed(config, Text("\U{1F600}\U{1F600}\U{1F600}"))
    ensures MaskCode("\U{1F600}\U{1F600}\U{1F600}") == "\U{1F600}****"
    ensures FoundCode(db, userId, "\U{1F600}\U{1F600}\U{1F600}", t0).None? ==>
      VerifyCode(config, secret, db, userId, Text("\U{1F600}\U{1F600}\U{1F600}"), meta, t0, t1).response
        == BadRequest("Invalid or expired verification code")
  {
    var code := "\U{1F600}\U{1F600}\U{1F600}";
    AstralCodeMeasure();
    if FoundCode(db, userId, code, t0).None? {
      VerifyNotFound(config, secret, db, userId, code, meta, t0, t1);
    }
  }

  /** Three astral characters: six UTF-16 units, and a mask that keeps the first of them. */
  lemma AstralCodeMeasure()
    ensures Utf16Length("\U{1F600}\U{1F600}\U{1F600}") == 6
    ensures MaskCode("\U{1F600}\U{1F600}\U{1F600}") == "\U{1F600}****"
  {
    var code := "\U{1F600}\U{1F600}\U{1F600}";
    assert code[..2][..1] == code[..1] && code[..3][..2] == code[..2] && code[..1][..0] == [];
    assert code[..3] == code;
  }

  /** A match that expired between the sweep and the expiry test is counted and audited, and stays unused. */
  lemma VerifyCodeExpired(
    config: Settings.Config, secret: string, db: Db, userId: UserId, code: string,
    meta: RequestMeta, t0: Millis, t1: Millis)
    requires WellFormed(config, Text(code)) && VerifyAllowed(config, db, userId, t0)
    requires FoundCode(db, userId, code, t0).Some? && t1 > FoundCode(db, userId, code, t0).value.expiresAt
    ensures var r := VerifyCode(config, secret, db, userId, Text(code), meta, t0, t1);
      && r.response == BadRequest("Verification code has expired")
      && SweptCodes(db.codes, r.db.codes, t0)
      && FoundCode(db, userId, code, t0).value in r.db.codes
      && LimitRowAppended(db.limits, r.db.limits, WindowStart(t0, config.codeVerify.windowMinutes), userId, CodeVerify, t1)
      && OneAuditAppended(db.audits, r.db.audits, userId, VerifyExpired, Some(CodeHint(MaskCode(code))))
  {
  }

  /**
   * A live match is consumed: marked used at `t1`, nothing else in the code
   * table changes beyond the sweep, no limiter row is added, the success is
   * audited, and a token for this user is granted for the configured session.
   */
  lemma VerifySucceeds(
    config: Settings.Config, secret: string, db: Db, userId: UserId, code: string,
    meta: RequestMeta, t0: Millis, t1: Millis)
    requires WellFormed(config, Text(code)) && VerifyAllowed(config, db, userId, t0)
    requires FoundCode(db, userId, code, t0).Some? && t1 <= FoundCode(db, userId, code, t0).value.expiresAt
    ensures var r := VerifyCode(config, secret, db, userId, Text(code), meta, t0, t1);
      var found := FoundCode(db, userId, code, t0).value;
      && r.response.AccessGranted?
      && r.response.message == "Verification successful"
      && r.response.sessionDuration == Settings.MinutesToMillis(config.jwtExpiryMinutes)
      && r.response.expiresAt == t1 + r.response.sessionDuration
      && r.response.token == MintRouteToken(config, secret, userId, t1).token
      && found.(usedAt := Some(t1)) in r.db.codes
      && (forall row :: row in r.db.codes && row.id == found.id ==> row.usedAt == Some(t1))
      && (forall row: VerificationCode :: row.id != found.id ==> (row in r.db.codes <==> row in db.codes && row.expiresAt >= t0))
      && SweptLimits(db.limits, r.db.limits, WindowStart(t0, config.codeVerify.windowMinutes))
      && OneAuditAppended(db.audits, r.db.audits, userId, VerifiedSuccess, Some(CodeHint(MaskCode(code))))
  {
    var swept := CleanupExpiredCodes(db, t0);
    var check := CheckRateLimit(swept, userId, CodeVerify, config.codeVerify.maxAttempts, config.codeVerify.windowMinutes, t0);
    var found := FoundCode(db, userId, code, t0).value;
    var k := FirstActiveMatch(check.db.codes, userId, code).value;
    var consumed := MarkVerificationCodeAsUsed(check.db, found.id, t1);
    assert consumed.codes[k] == found.(usedAt := Some(t1));
    forall row | row in consumed.codes && row.id == found.id
      ensures row.usedAt == Some(t1)
    {
      var i :| 0 <= i < |consumed.codes| && consumed.codes[i] == row;
    }
    forall row: VerificationCode | row.id != found.id
      ensures row in consumed.codes <==> row in db.codes && row.expiresAt >= t0
    {
      if row in consumed.codes {
        var i :| 0 <= i < |consumed.codes| && consumed.codes[i] == row;
        assert check.db.codes[i] == row;
      }
      if row in check.db.codes {
        var i :| 0 <= i < |check.db.codes| && check.db.codes[i] == row;
        assert consumed.codes[i] == row;
      }
    }
  }

  /**
   * The verify-code handler exactly as written: for a non-string `code`
   * the masking expression of the format branch throws before the audit
   * row is written, and the catch-all answers 500.
   */
  function VerifyCodeAsWritten(
    config: Settings.Config, secret: string, db: Db, userId: UserId, body: BodyCode,
    meta: RequestMeta, t0: Millis, t1: Millis): (r: Handled)
    ensures FormatHintAsWritten(body).None? ==> r == Handled(db, ServerError("Internal server error"))
    ensures FormatHintAsWritten(body).Some? ==> r == VerifyCode(config, secret, db, userId, body, meta, t0, t1)
  {
    if !WellFormed(config, body) && FormatHintAsWritten(body).None? then
      Handled(db, ServerError("Internal server error"))
    else
      VerifyCode(config, secret, db, userId, body, meta, t0, t1)
  }

  /**
   * The discrepancy on a numeric code such as `{"code": 123456}`: as
   * written, the request fails with 500 and leaves no audit row; the
   * corrected handler answers the format error and audits the attempt.
   */
  lemma NonStringCodeIsUnaudited(
    config: Settings.Config, secret: string, db: Db, userId: UserId,
    meta: RequestMeta, t0: Millis, t1: Millis)
    ensures var asWritten := VerifyCodeAsWritten(config, secret, db, userId, NonString, meta, t0, t1);
      asWritten.response.Status() == 500 && asWritten.db.audits == db.audits
    ensures var corrected := VerifyCode(config, secret, db, userId, NonString, meta, t0, t1);
      && corrected.response == BadRequest("Invalid verification code format")
      && OneAuditAppended(db.audits, corrected.db.audits, userId, VerifyInvalidFormat, Some(CodeHint("****")))
  {
    VerifyRejectsMalformed(config, secret, db, userId, NonString, meta, t0, t1);
  }
}

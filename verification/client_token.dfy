/**
 * The client's persisted step-up token: saving, clearing and reloading it
 * from browser storage. Storage is a string-to-string map; the JWT payload
 * decoder and the clock are parameters.
 */
module ClientToken {
  import opened Wrappers
  import TokenService
  import TimeUtils

  type Storage = map<string, string>

  const StorageKey := "sensitive_data_token"

  /** The largest magnitude a `Date` time value may have, in milliseconds. */
  const MaxTimeValue: real := 8_640_000_000_000_000.0

  /** Whether `new Date(ms)` is a valid date, so that `toISOString` does not throw. */
  predicate Representable(ms: real) {
    -MaxTimeValue <= ms <= MaxTimeValue
  }

  /** The claims `jwt-decode` reads from a token; a claim the token lacks is `None`. */
  datatype DecodedPayload = DecodedPayload(userId: int, tokenType: Option<string>, exp: Option<real>, iat: Option<int>)

  /** What `jwtDecode` yields for a stored string: the claims, or `None` when it throws. */
  type Decoder = string -> Option<DecodedPayload>

  /** `isValidSensitiveToken`'s answer; the two optional fields are present only on a valid token. */
  datatype TokenInfo = TokenInfo(valid: bool, expiresAt: Option<int>, timeRemaining: Option<int>)

  const Invalid := TokenInfo(false, None, None)

  /** The answer together with the storage the check leaves behind. */
  datatype Loaded = Loaded(info: TokenInfo, storage: Storage)

  /** Keys other than the token's have the same presence and values in both maps. */
  ghost predicate OthersUnchanged(before: Storage, after: Storage) {
    forall k :: k != StorageKey ==> (k in after <==> k in before) && (k in after ==> after[k] == before[k])
  }

  /** `saveSensitiveToken`. */
  function SaveSensitiveToken(storage: Storage, token: string): (r: Storage)
    ensures StorageKey in r && r[StorageKey] == token
    ensures OthersUnchanged(storage, r)
  {
    storage[StorageKey := token]
  }

  /** `clearSensitiveToken`. */
  function ClearSensitiveToken(storage: Storage): (r: Storage)
    ensures StorageKey !in r
    ensures OthersUnchanged(storage, r)
  {
    storage - {StorageKey}
  }

  /** Clearing undoes a save, and clearing twice is clearing once. */
  lemma SaveThenClear(storage: Storage, token: string)
    ensures ClearSensitiveToken(SaveSensitiveToken(storage, token)) == ClearSensitiveToken(storage)
    ensures ClearSensitiveToken(ClearSensitiveToken(storage)) == ClearSensitiveToken(storage)
  {
  }

  /** ECMAScript's `ToIntegerOrInfinity` on a finite value: truncation toward zero. */
  function Truncate(x: real): (i: int)
    ensures x >= 0.0 ==> i as real <= x < i as real + 1.0
    ensures x < 0.0 ==> i as real - 1.0 < x <= i as real
  {
    if x >= 0.0 then x.Floor else -((-x).Floor)
  }

  /**
   * `isValidSensitiveToken` at clock `nowMs`. The steps, in order: a missing
   * or empty entry is invalid; a payload that does not decode is cleared; a
   * foreign `type` is invalid but kept; an `exp` at or before now is
   * cleared; an `exp` that `Date` cannot represent (absent, or out of range)
   * throws while building `expiresAt`, and the catch clears it; otherwise
   * the token is valid with its expiry in milliseconds and the whole
   * seconds left.
   */
  function IsValidSensitiveToken(storage: Storage, decode: Decoder, nowMs: int): (r: Loaded)
    ensures r.storage == storage || r.storage == ClearSensitiveToken(storage)
    ensures r.info.valid <==> r.info.expiresAt.Some?
    ensures r.info.valid <==> r.info.timeRemaining.Some?
    ensures !r.info.valid ==> r.info == Invalid
  {
    if StorageKey !in storage || storage[StorageKey] == "" then Loaded(Invalid, storage)
    else
      match decode(storage[StorageKey])
      case None => Loaded(Invalid, ClearSensitiveToken(storage))
      case Some(payload) =>
        var now := nowMs as real / 1000.0;
        if payload.tokenType != Some(TokenService.SensitiveDataTokenType) then Loaded(Invalid, storage)
        else if payload.exp.Some? && payload.exp.value <= now then Loaded(Invalid, ClearSensitiveToken(storage))
        else if payload.exp.None? || !Representable(payload.exp.value * 1000.0) then Loaded(Invalid, ClearSensitiveToken(storage))
        else
          var exp := payload.exp.value;
          var left := (exp - now).Floor;
          Loaded(TokenInfo(true, Some(Truncate(exp * 1000.0)), Some(if left > 0 then left else 0)), storage)
  }

  /** The decoded claims of the stored token, when there is a non-empty one and it decodes. */
  function Claims(storage: Storage, decode: Decoder): Option<DecodedPayload> {
    if StorageKey !in storage || storage[StorageKey] == "" then None else decode(storage[StorageKey])
  }

  /** A valid answer leaves storage alone and comes from a decodable token of the right type whose expiry is in the future. */
  lemma ValidMeansLiveToken(storage: Storage, decode: Decoder, nowMs: int)
    requires IsValidSensitiveToken(storage, decode, nowMs).info.valid
    ensures var r := IsValidSensitiveToken(storage, decode, nowMs);
      var claims := Claims(storage, decode);
      && r.storage == storage
      && claims.Some? && claims.value.tokenType == Some(TokenService.SensitiveDataTokenType)
      && claims.value.exp.Some? && claims.value.exp.value > nowMs as real / 1000.0
      && r.info.expiresAt == Some(Truncate(claims.value.exp.value * 1000.0))
      && r.info.timeRemaining.value >= 0
      && r.info.timeRemaining.value as real <= claims.value.exp.value - nowMs as real / 1000.0 < r.info.timeRemaining.value as real + 1.0
  {
  }

  /** Without a non-empty stored token the answer is invalid and storage is untouched. */
  lemma NoTokenLeavesStorage(storage: Storage, decode: Decoder, nowMs: int)
    requires StorageKey !in storage || storage[StorageKey] == ""
    ensures IsValidSensitiveToken(storage, decode, nowMs) == Loaded(Invalid, storage)
  {
  }

  /** A token of another type is reported invalid but stays stored. */
  lemma ForeignTypeIsKept(storage: Storage, decode: Decoder, nowMs: int)
    requires Claims(storage, decode).Some?
    requires Claims(storage, decode).value.tokenType != Some(TokenService.SensitiveDataTokenType)
    ensures IsValidSensitiveToken(storage, decode, nowMs) == Loaded(Invalid, storage)
  {
  }

  /** Every other rejection of a stored token removes it: undecodable, expired, or without a representable expiry. */
  lemma RejectedTokenIsCleared(storage: Storage, decode: Decoder, nowMs: int)
    requires StorageKey in storage && storage[StorageKey] != ""
    requires Claims(storage, decode).None? || Claims(storage, decode).value.tokenType == Some(TokenService.SensitiveDataTokenType)
    requires !IsValidSensitiveToken(storage, decode, nowMs).info.valid
    ensures IsValidSensitiveToken(storage, decode, nowMs) == Loaded(Invalid, ClearSensitiveToken(storage))
  {
  }

  /** The expired case on its own: an `exp` at or before now is cleared. */
  lemma ExpiredTokenIsCleared(storage: Storage, decode: Decoder, nowMs: int)
    requires Claims(storage, decode).Some?
    requires Claims(storage, decode).value.tokenType == Some(TokenService.SensitiveDataTokenType)
    requires Claims(storage, decode).value.exp.Some? && Claims(storage, decode).value.exp.value <= nowMs as real / 1000.0
    ensures IsValidSensitiveToken(storage, decode, nowMs) == Loaded(Invalid, ClearSensitiveToken(storage))
  {
  }

  /**
   * The seconds the loader reports agree with the timer helper applied to
   * the reported expiry at the same instant (for a clock at or after the
   * epoch).
   */
  lemma LoaderAgreesWithTimer(storage: Storage, decode: Decoder, nowMs: int)
    requires nowMs >= 0
    requires IsValidSensitiveToken(storage, decode, nowMs).info.valid
    ensures var info := IsValidSensitiveToken(storage, decode, nowMs).info;
      info.timeRemaining.value == TimeUtils.GetTimeRemaining(info.expiresAt.value, nowMs)
  {
    var info := IsValidSensitiveToken(storage, decode, nowMs).info;
    var exp := Claims(storage, decode).value.exp.value;
    var x := exp * 1000.0 - nowMs as real;
    var f := Truncate(exp * 1000.0);
    assert f == (exp * 1000.0).Floor;
    var q := (f - nowMs) / 1000;
    assert q * 1000 <= f - nowMs < q * 1000 + 1000;
    assert (q * 1000) as real <= x < (q * 1000 + 1000) as real;
    assert q as real <= exp - nowMs as real / 1000.0 < q as real + 1.0;
    assert (exp - nowMs as real / 1000.0).Floor == q;
  }

  /** `getSensitiveToken`: the stored string when the check says valid, else nothing; the check's storage effect stays. */
  function GetSensitiveToken(storage: Storage, decode: Decoder, nowMs: int): (r: (Option<string>, Storage))
    ensures r.1 == IsValidSensitiveToken(storage, decode, nowMs).storage
    ensures r.0.Some? <==> IsValidSensitiveToken(storage, decode, nowMs).info.valid
    ensures r.0.Some? ==> StorageKey in storage && r.0.value == storage[StorageKey] && r.0.value != ""
  {
    var loaded := IsValidSensitiveToken(storage, decode, nowMs);
    if loaded.info.valid then (Some(loaded.storage[StorageKey]), loaded.storage) else (None, loaded.storage)
  }

  /**
   * Round trip: a token saved while its claims are of the right type and
   * unexpired is handed back by `GetSensitiveToken`, and storage stays as
   * the save left it.
   */
  lemma SaveThenGet(storage: Storage, decode: Decoder, token: string, nowMs: int)
    requires token != ""
    requires decode(token).Some? && decode(token).value.tokenType == Some(TokenService.SensitiveDataTokenType)
    requires decode(token).value.exp.Some?
    requires nowMs as real / 1000.0 < decode(token).value.exp.value && Representable(decode(token).value.exp.value * 1000.0)
    ensures GetSensitiveToken(SaveSensitiveToken(storage, token), decode, nowMs) == (Some(token), SaveSensitiveToken(storage, token))
  {
  }
}

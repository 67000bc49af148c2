/**
 * The verification settings the server reads from its configuration
 * object. Their values are not part of this model, so every operation
 * takes them as a parameter.
 */
module Settings {

  /** How many attempts of one kind are allowed within a trailing window. */
  datatype LimitRule = LimitRule(maxAttempts: int, windowMinutes: int)

  datatype Config = Config(
    codeLength: int,
    codeExpiryMinutes: int,
    jwtExpiryMinutes: int,
    codeRequest: LimitRule,
    codeVerify: LimitRule)
  {
    /** Every length, lifetime, limit and window is a positive number. */
    predicate Positive() {
      && codeLength > 0
      && codeExpiryMinutes > 0
      && jwtExpiryMinutes > 0
      && codeRequest.maxAttempts > 0 && codeRequest.windowMinutes > 0
      && codeVerify.maxAttempts > 0 && codeVerify.windowMinutes > 0
    }
  }

  /** A duration in minutes expressed in milliseconds. */
  function MinutesToMillis(minutes: int): int {
    minutes * 60 * 1000
  }
}

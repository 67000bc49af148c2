# Step-up verification, modelled in Dafny

This project models the step-up verification of the exam application. A
signed-in user asks for a six-digit code. The server stores the code, rate
limits the requests and audits every attempt. The user types or pastes the
code into a six-slot dialog, and the server checks it. On success the server
grants a short-lived token scoped to `sensitive_data_access`. The client
stores that token, restores the session from it on reload, counts down the
seconds left, raises an expiry warning in the last minute, and locks again
when the time is up.

Both halves become pure functions:

- The database is a record of three tables, held as sequences.
- The clock readings, the random draw, the JWT decoder and the user's e-mail are parameters.
- Browser storage is a string-to-string map.
- React's effects and intervals are explicit events.

| file | module | models |
|---|---|---|
| `wrappers.dfy` | `Wrappers` | `Option`/`Result` |
| `decimal.dfy` | `Decimal` | decimal digits and `toString()` of integers |
| `config.dfy` | `Settings` | the verification settings, as a parameter record |
| `store.dfy` | `VerificationStore` | the code, audit and rate-limit queries |
| `tokens.dfy` | `TokenService` | the shared JWT helper over an abstract sealed token |
| `routes.dfy` | `VerificationRoutes` | the `/request-code` and `/verify-code` handlers |
| `route_properties.dfy` | `RouteProperties` | properties that span several handler calls |
| `time_utils.dfy` | `TimeUtils` | the countdown helpers |
| `client_token.dfy` | `ClientToken` | the persisted token in browser storage |
| `session.dfy` | `SensitiveData` | the session reducer, the initial state, the tick, and the two API flows |
| `code_entry.dfy` | `CodeEntry` | the six-slot code dialog |

The verify-code handler reads the clock twice:

- `t0` is the reading for the expiry sweep, the limiter and the not-found branch.
- `t1` is the later reading for the expiry test, the mark-used stamp and the token.

With a single reading, the "expired" branch could never run (`RouteProperties.OneReadingNeverExpires`).

The format gate (`backend/src/routes/verification.ts:141-145`) checks only that the code is a non-empty string of the configured length, so `VerificationRoutes.WellFormed` does not test for digits. JavaScript measures that length, and cuts the two-character mask, in UTF-16 code units, so a character outside the Basic Multilingual Plane counts twice (`VerificationRoutes.Utf16Length`).

## Model

| member | source | states |
|---|---|---|
| VerificationStore.CreateVerificationCode | backend/src/database/queries/verification.ts:4-18 | exactly one unused row for the user, code and expiry is appended under a fresh id; nothing else changes |
| VerificationStore.FirstActiveMatch | backend/src/database/queries/verification.ts:20-28 | the position found is the first row with this user, this exact code and no `used_at`; none means no row matches |
| VerificationStore.GetVerificationCode | backend/src/database/queries/verification.ts:20-28 | a returned row is in the table, belongs to the user, has exactly the code and is unused; none is returned iff no such row exists |
| VerificationStore.MarkRows | backend/src/database/queries/verification.ts:30-37 | rows with the id get `used_at = now` and no other change; every other row is untouched and the length is kept |
| VerificationStore.MarkVerificationCodeAsUsed | backend/src/database/queries/verification.ts:30-37 | only the rows with the given id change, and only in `used_at`; the other tables and counters are untouched |
| VerificationStore.CleanupExpiredCodes | backend/src/database/queries/verification.ts:39-44 | a row remains iff it was there and `expires_at >= now`, used or not; the other tables are untouched |
| VerificationStore.NullIfEmpty | backend/src/database/queries/verification.ts:56 | `value \|\| null`: absent and empty both become null, anything else is kept |
| VerificationStore.CreateAuditLog | backend/src/database/queries/verification.ts:46-62 | exactly one audit row is appended with the user, event and payload; an absent or empty address or agent is stored as null |
| VerificationStore.TotalOfAppend | backend/src/database/queries/verification.ts:86-94 | appending a row adds its count to a pair's in-window total iff that row is counted for the pair |
| VerificationStore.Surviving | backend/src/database/queries/verification.ts:72-75 | the limiter cleanup keeps exactly the rows with `window_start >= start`, for every user and type |
| VerificationStore.CleanupKeepsTotal | backend/src/database/queries/verification.ts:72-83 | deleting the rows before the window start never changes the total over the rows after it |
| VerificationStore.CheckRateLimit | backend/src/database/queries/verification.ts:64-84 | the cleanup deletes exactly the rows strictly before `now - window`; the verdict is true iff this pair's sum over rows strictly after the start, with an empty sum read as 0, is below the limit |
| VerificationStore.IncrementRateLimit | backend/src/database/queries/verification.ts:86-94 | one unit row is appended for the pair and the existing rows are unchanged; that pair's totals over earlier starts grow by exactly 1, and every other total is unchanged |
| VerificationStore.TotalAntitone | backend/src/database/queries/verification.ts:77-83 | a later window start never counts more |
| VerificationStore.SurvivorsTotalAtMost | backend/src/database/queries/verification.ts:72-83 | a total over the rows kept by a cleanup is at most the total over the whole table |
| VerificationStore.SurvivorsKeepPairTotal | backend/src/database/queries/verification.ts:72-83 | when every row of the pair survives a cleanup, the pair's totals do not change |
| VerificationStore.NoRowsNoTotal | backend/src/database/queries/verification.ts:82 | without rows for the pair the total is 0 |
| VerificationStore.TotalBelowAllRows | backend/src/database/queries/verification.ts:77-83 | two starts below every row of the pair give the same total |
| VerificationStore.BoundaryRowKeptButNotCounted | backend/src/database/queries/verification.ts:72-80 | a row stamped exactly at the window start is neither deleted nor counted |
| VerificationStore.MarkedCodeIsNeverFound | backend/src/database/queries/verification.ts:24-36 | once a row is marked used, the lookup never returns that row again |
| VerificationStore.CreatePreservesValid | backend/src/database/queries/verification.ts:9-17 | inserting a code keeps ids unique and the next id fresh |
| VerificationStore.MarkKeepsKeys | backend/src/database/queries/verification.ts:33-36 | stamping `used_at` keeps ids unique and below the next id |
| VerificationStore.MarkStampsExactlyOne | backend/src/database/queries/verification.ts:30-37 | with ids as keys, marking a stored row's id leaves exactly that row stamped and every row with another id as it was |
| VerificationStore.MarkPreservesValid | backend/src/database/queries/verification.ts:30-37 | marking a code used keeps every table keyed by id |
| VerificationStore.CleanupPreservesValid | backend/src/database/queries/verification.ts:39-44 | the expiry sweep keeps every table keyed by id |
| VerificationStore.AuditPreservesValid | backend/src/database/queries/verification.ts:46-62 | an audit insert keeps every table keyed by id |
| VerificationStore.CheckPreservesValid | backend/src/database/queries/verification.ts:64-84 | the limiter check keeps every table keyed by id |
| VerificationStore.IncrementPreservesValid | backend/src/database/queries/verification.ts:86-94 | the limiter insert keeps every table keyed by id |
| TokenService.Sign | backend/src/shared/utils/jwtHelper.ts:20-22 | the token is sealed under the secret and carries the payload's claims; `iat` is stamped from the clock when absent |
| TokenService.Verify | backend/src/shared/utils/jwtHelper.ts:39-48 | succeeds iff the token is well-formed, sealed under this secret, and the floored clock second is before `exp`; it then yields the claims |
| TokenService.DecodeToken | backend/src/shared/utils/jwtHelper.ts:39-48 | the claims when verification succeeds, and none for every failure |
| TokenService.IsValidTokenType | backend/src/shared/utils/jwtHelper.ts:50-52 | a token type is valid iff it is the `sensitive_data_access` sentinel; its partners are `CreateSensitiveDataTokenPayload` and `ValidateSensitiveDataToken` |
| TokenService.CalculateTokenExpiry | backend/src/shared/utils/jwtHelper.ts:7-9 | the expiry is exactly the given minutes after now, in milliseconds |
| TokenService.CreateSensitiveDataTokenPayload | backend/src/shared/utils/jwtHelper.ts:11-18 | the payload carries the user, the sentinel type, and `exp` equal to the expiry over 1000, not rounded |
| TokenService.GenerateSensitiveDataToken | backend/src/shared/utils/jwtHelper.ts:24-37 | the returned expiry is now plus the configured minutes, and the token's `exp` is that same instant in seconds |
| TokenService.ValidateSensitiveDataToken | backend/src/shared/utils/jwtHelper.ts:54-78 | any verifier failure gives `{0, false, "Token verification failed"}`; a verified token of the sentinel type is valid for its user with no error; any other type gives "Invalid token type" with the payload's user |
| TokenService.SecondsBeforeExpiry | backend/src/shared/utils/jwtHelper.ts:44 | the verifier's seconds-versus-`exp` test, restated in milliseconds |
| TokenService.GenerateThenValidate | backend/src/shared/utils/jwtHelper.ts:24-78 | a fresh token validates for its user with the same secret exactly while the floored clock second is before its expiry; otherwise it is the opaque failure |
| TokenService.GenerateThenValidateBeforeExpiry | backend/src/shared/utils/jwtHelper.ts:24-78 | every instant before the returned expiry validates with `{userId, true}` |
| TokenService.ForeignKeyIsOpaqueFailure | backend/src/shared/utils/jwtHelper.ts:61-69 | a token sealed under another secret gives the opaque failure without its user |
| VerificationRoutes.CodeValue | backend/src/routes/verification.ts:22 | `floor(100000 + r * 900000)` lies in [100000, 999999] for every draw in [0, 1) |
| VerificationRoutes.GenerateVerificationCode | backend/src/routes/verification.ts:21-23 | the code is six decimal digits, never starts with `0`, and denotes the drawn number |
| VerificationRoutes.MintRouteToken | backend/src/routes/verification.ts:25-44 | the route's token is for the user with the sentinel type and floored `iat`/`exp`; the expiry is now plus the configured minutes |
| VerificationRoutes.Utf16Length | backend/src/routes/verification.ts:144 | JavaScript's `length`: at least one and at most two UTF-16 units per character |
| VerificationRoutes.Utf16LengthOfBmp | backend/src/routes/verification.ts:144 | on text within the Basic Multilingual Plane, `length` is the number of characters |
| VerificationRoutes.MaskPrefix | backend/src/routes/verification.ts:188 | `substring(0, 2)`: a prefix of the code within two UTF-16 units, and the longest such prefix of whole characters |
| VerificationRoutes.MaskCode | backend/src/routes/verification.ts:188 | the mask is a prefix of the code of at most two UTF-16 units, followed by `****` |
| VerificationRoutes.MaskOfBmpCode | backend/src/routes/verification.ts:188 | on a code within the Basic Multilingual Plane, the mask is exactly its first two characters and `****` |
| VerificationRoutes.FormatHintAsWritten | backend/src/routes/verification.ts:149 | the masking of the format branch throws exactly for a non-string code |
| VerificationRoutes.FormatHint | backend/src/routes/verification.ts:149 | agrees with the as-written mask wherever that does not throw, and is `****` for a non-string code |
| VerificationRoutes.RequestCode | backend/src/routes/verification.ts:59-129 | exactly one audit row is appended; a code is sent iff the `code_request` limiter allows; every other answer is 429 |
| VerificationRoutes.RequestRefused | backend/src/routes/verification.ts:70-89 | a refused request sweeps the codes and limiter rows, stores no code, adds no limiter row, audits `CODE_REQUEST_RATE_LIMITED`, and answers 429 with the window in seconds |
| VerificationRoutes.RequestSendsCode | backend/src/routes/verification.ts:91-123 | an allowed request stores one fresh code for the user that expires after the configured minutes, adds one `code_request` unit row, and audits `CODE_REQUESTED` with the e-mail; the reply carries only the message and the expiry |
| VerificationRoutes.RequestCodeLimits | backend/src/routes/verification.ts:68-98 | the limiter table afterwards is the swept table, plus the unit row iff the request was allowed |
| VerificationRoutes.FoundCode | backend/src/routes/verification.ts:158-181 | after the sweep at `t0`, the lookup finds a live, unused exact match, and none iff no such row exists |
| VerificationRoutes.WellFormed | backend/src/routes/verification.ts:141-145 | the format gate: a string, non-empty, whose UTF-16 length is the configured length; its partners are `VerifyRejectsMalformed` and `AstralCodeReachesLookup` |
| VerificationRoutes.VerifyCode | backend/src/routes/verification.ts:131-238 | every outcome appends exactly one audit row that reveals at most a two-unit prefix of the code; the answer is 400, 429 or a grant |
| VerificationRoutes.VerifyWellFormed | backend/src/routes/verification.ts:158-232 | past the format gate: one audit row revealing at most a two-unit prefix of the code; the answer is 400, 429 or a grant |
| VerificationRoutes.VerifyLookup | backend/src/routes/verification.ts:181-232 | past the limiter: one audit row revealing at most a two-unit prefix of the code; the answer is 400 or a grant |
| VerificationRoutes.VerifyRejectsMalformed | backend/src/routes/verification.ts:141-156 | a missing, non-string or empty code, or one whose UTF-16 length is not the configured length, answers the format 400 with one `CODE_VERIFY_INVALID_FORMAT` audit, with no sweep, no limiter check and no limiter row |
| VerificationRoutes.VerifyRefusedByLimiter | backend/src/routes/verification.ts:160-179 | a refused limiter check writes only `CODE_VERIFY_RATE_LIMITED` and answers 429 with the window in seconds; no limiter row is added |
| VerificationRoutes.VerifyNotFound | backend/src/routes/verification.ts:181-195 | no live unused match: one `code_verify` unit row, a `CODE_VERIFY_INVALID` audit with the masked code, and "Invalid or expired verification code" |
| VerificationRoutes.AstralCodeReachesLookup | backend/src/routes/verification.ts:141-195 | three characters outside the Basic Multilingual Plane pass a six-unit gate, are masked to their first character, and, with no match, get "Invalid or expired verification code" |
| VerificationRoutes.VerifyCodeExpired | backend/src/routes/verification.ts:197-209 | a match that expired by `t1`: one limiter row, a `CODE_VERIFY_EXPIRED` audit, "Verification code has expired", and the code stays unused |
| VerificationRoutes.VerifySucceeds | backend/src/routes/verification.ts:211-232 | a live match is marked used at `t1` and no other code changes; no limiter row is added; `CODE_VERIFIED_SUCCESS` is audited; the grant's session duration is the configured minutes and its expiry is `t1` plus that duration |
| VerificationRoutes.VerifyCodeAsWritten | backend/src/routes/verification.ts:141-156 | as written: a non-string code makes the masking throw, so the handler answers 500 and leaves the database as it was; every other body behaves as in the corrected handler |
| VerificationRoutes.NonStringCodeIsUnaudited | backend/src/routes/verification.ts:146-152 | for a numeric code, the as-written handler answers 500 with no audit, and the corrected one answers the format 400 with an audit |
| RouteProperties.OneReadingNeverExpires | backend/src/routes/verification.ts:158-199 | with a single clock reading for the sweep and the expiry test, the "expired" answer is impossible |
| RouteProperties.RequestResponseHidesCode | backend/src/routes/verification.ts:120-123 | the request-code reply is the same whatever code was drawn |
| RouteProperties.GrantedTokenValidates | backend/src/routes/verification.ts:25-44 | the route's token validates for the user, with the same secret, exactly while the floored clock second is before its floored expiry |
| RouteProperties.GrantedMeansLiveMatch | backend/src/routes/verification.ts:131-232 | a grant implies the code was well-formed, the limiter allowed, and a live unused match existed at `t1` |
| RouteProperties.SecondVerifyFindsNothing | backend/src/routes/verification.ts:211 | single use: when no other live row of the user holds the same code, submitting an accepted code again, at a later clock, finds nothing and gets the not-found 400; the source does not prevent two requests from drawing the same code, and then the second row is found |
| RouteProperties.RequestKeepsVerifyAllowed | backend/src/routes/verification.ts:68-98 | an allowed code request never turns a verification the limiter allowed into a refused one |
| RouteProperties.RequestThenVerify | backend/src/routes/verification.ts:91-232 | round trip, under five conditions: the code-request limiter allows the request, the verify limiter allows at `t0`, the configured code length is six, no older live row of the user holds the drawn code, and `now <= t0 <= t1 <= now + lifetime`; then verifying the code the request stored is granted. Without them the program can refuse the right code (the 429 at lines 166-178, the format 400 at lines 141-145, or an older row found first) |
| RouteProperties.RequestStepCounts | backend/src/routes/verification.ts:70-98 | inside one window, a request succeeds iff fewer than the maximum were counted, and the counted total saturates at the maximum |
| RouteProperties.RequestSeriesCounts | backend/src/routes/verification.ts:70-98 | over a run of requests inside one window, the k-th request succeeds iff k is below the maximum |
| RouteProperties.RequestLimitWithinWindow | backend/src/routes/verification.ts:70-89 | within one window, the first `maxAttempts` requests send a code and every later one gets the 429 refusal |
| RouteProperties.SeriesResponseIsRequestResponse | backend/src/routes/verification.ts:59-129 | each response of a run is a code sent or the 429 refusal |
| Decimal.NatToString | backend/src/routes/verification.ts:22 | the decimal rendering is non-empty and all digits, with a leading `0` only for zero |
| Decimal.IntToString | frontend/src/utils/timeUtils.ts:4 | a negative number renders as a minus sign before its magnitude |
| Decimal.NatToStringRoundTrip | backend/src/routes/verification.ts:22 | reading the rendering back gives the number |
| Decimal.NatToStringLengthBound | backend/src/routes/verification.ts:22 | a number has at most k+1 digits iff it is below 10^(k+1) |
| Decimal.SixDigitLength | backend/src/routes/verification.ts:21-23 | every number in [100000, 999999] renders as exactly six digits |
| TimeUtils.JsRem | frontend/src/utils/timeUtils.ts:3 | JavaScript `%`: the remainder takes the dividend's sign and is smaller in magnitude than the divisor |
| TimeUtils.PadStart2 | frontend/src/utils/timeUtils.ts:4 | strings of two or more characters are kept; shorter ones are left-padded with `0` to length two |
| TimeUtils.FormatTime | frontend/src/utils/timeUtils.ts:1-5 | the `m:ss` rendering with JavaScript's floor and `%`; its meaning is stated by `FormatTimeShape`, `FormatThenParse` and `FormatTimeInjective` |
| TimeUtils.FormatTimeShape | frontend/src/utils/timeUtils.ts:1-5 | for s >= 0: the floored minutes, a colon, and `s mod 60` as exactly two digits |
| TimeUtils.NegativeSecondsRendering | frontend/src/utils/timeUtils.ts:1-5 | negative counts render with floored minutes and a negative remainder: -5 gives "-1:-5" |
| TimeUtils.TwoDigitsRendering | frontend/src/utils/timeUtils.ts:4 | padding the rendering of a number below 100 gives its two-digit form |
| TimeUtils.ParseClock | frontend/src/utils/timeUtils.ts:1-5 | a clock string that parses has a colon before its last two characters |
| TimeUtils.FormatThenParse | frontend/src/utils/timeUtils.ts:1-5 | round trip: a rendered count reads back as the same number of seconds |
| TimeUtils.FormatTimeInjective | frontend/src/utils/timeUtils.ts:1-5 | distinct non-negative counts render differently |
| TimeUtils.GetTimeRemaining | frontend/src/utils/timeUtils.ts:7-11 | the result is never negative; it is 0 iff less than a second is left, and otherwise it is the floored seconds left |
| TimeUtils.RemainingNeverGrows | frontend/src/utils/timeUtils.ts:7-11 | a later clock never shows more time left |
| TimeUtils.GetTimerStatus | frontend/src/utils/timeUtils.ts:21-29 | warning iff 0 < s <= 60, caution iff 60 < s <= 300, normal iff s <= 0 or s > 300 |
| TimeUtils.IsTimeWarning | frontend/src/utils/timeUtils.ts:13-15 | the warning band 0 < s <= 60; stated against the status by `GetTimerStatus` and `WarningAndCautionDisjoint` |
| TimeUtils.IsTimeCaution | frontend/src/utils/timeUtils.ts:17-19 | the caution band 60 < s <= 300; stated against the status by `GetTimerStatus` and `WarningAndCautionDisjoint` |
| TimeUtils.WarningAndCautionDisjoint | frontend/src/utils/timeUtils.ts:13-19 | the warning and caution bands never overlap, so the order of the tests does not matter |
| TimeUtils.StatusOnlyEscalates | frontend/src/utils/timeUtils.ts:21-29 | counting down, a warning stays a warning until zero, and a caution never returns to normal |
| ClientToken.SaveSensitiveToken | frontend/src/utils/jwtHelper.ts:18-20 | the token is stored under `sensitive_data_token` and every other key is untouched |
| ClientToken.ClearSensitiveToken | frontend/src/utils/jwtHelper.ts:22-24 | the key is removed and every other key is untouched |
| ClientToken.SaveThenClear | frontend/src/utils/jwtHelper.ts:18-24 | clearing undoes a save, and clearing twice is the same as clearing once |
| ClientToken.Truncate | frontend/src/utils/jwtHelper.ts:45 | `Date` truncates a time value toward zero |
| ClientToken.IsValidSensitiveToken | frontend/src/utils/jwtHelper.ts:26-57 | the storage is either kept or has the token cleared; an answer is valid iff it carries an expiry and a count; an invalid answer is bare `{valid: false}` |
| ClientToken.ValidMeansLiveToken | frontend/src/utils/jwtHelper.ts:39-52 | a valid answer keeps the storage; it comes from a decodable token of the sentinel type with exp > now; expiresAt is exp·1000 and timeRemaining is max(0, floor(exp − now)) |
| ClientToken.NoTokenLeavesStorage | frontend/src/utils/jwtHelper.ts:28-31 | with no token, or an empty one, the answer is invalid and the storage is unchanged |
| ClientToken.ForeignTypeIsKept | frontend/src/utils/jwtHelper.ts:35-37 | a token of another type is invalid and stays stored |
| ClientToken.RejectedTokenIsCleared | frontend/src/utils/jwtHelper.ts:33-56 | every other rejection clears the token: undecodable, expired, or without a representable expiry |
| ClientToken.ExpiredTokenIsCleared | frontend/src/utils/jwtHelper.ts:39-43 | a token with exp <= now is removed and the answer is invalid |
| ClientToken.LoaderAgreesWithTimer | frontend/src/utils/jwtHelper.ts:45-46 | the seconds the loader reports equal `getTimeRemaining` of the reported expiry at the same instant |
| ClientToken.GetSensitiveToken | frontend/src/utils/jwtHelper.ts:59-62 | the stored token is returned iff the check says valid, and none otherwise; the check's storage effect stays |
| ClientToken.SaveThenGet | frontend/src/utils/jwtHelper.ts:18-62 | round trip: a saved, unexpired token of the sentinel type is handed back, and the storage stays as the save left it |
| SensitiveData.Reduce | frontend/src/context/SensitiveDataContext.tsx:106-181 | the reducer; what each action writes is stated by `ReduceFrame`, `ReduceWritesFlags`, `ReduceWritesNotices`, `ReduceClearsNotices` and `LockTransitions` |
| SensitiveData.ReduceWritesFlags | frontend/src/context/SensitiveDataContext.tsx:106-181 | `SET_REQUESTING_CODE`, `SET_VERIFYING_CODE`, `UPDATE_TIME_REMAINING`, `SET_WARNING_SHOWN`, `SET_EXPIRY_WARNING_MODAL_OPEN` and `SET_WARNING_MODAL_DISMISSED` write their payload into their field |
| SensitiveData.ReduceWritesNotices | frontend/src/context/SensitiveDataContext.tsx:117-128 | the four error and message actions write their payload into their field |
| SensitiveData.ReduceClearsNotices | frontend/src/context/SensitiveDataContext.tsx:166-177 | the four clearing actions set their field to `null` |
| SensitiveData.ReduceFrame | frontend/src/context/SensitiveDataContext.tsx:106-181 | each action writes only its own fields; an unknown action returns the state unchanged |
| SensitiveData.LockTransitions | frontend/src/context/SensitiveDataContext.tsx:129-152 | `SET_UNLOCKED` takes the payload's expiry and count and clears the warning flags and both errors; `SET_LOCKED` drops the expiry, zeroes the count and clears the warning flags |
| SensitiveData.ReducePreservesConsistent | frontend/src/context/SensitiveDataContext.tsx:106-181 | every action preserves "unlocked iff an expiry is known" |
| SensitiveData.ReduceIdempotent | frontend/src/context/SensitiveDataContext.tsx:106-181 | dispatching the same action twice is the same as dispatching it once |
| SensitiveData.RaiseWarning | frontend/src/context/SensitiveDataContext.tsx:206-209 | the warning is shown and its modal is open; no other field changes |
| SensitiveData.RaiseWarningIdempotent | frontend/src/context/SensitiveDataContext.tsx:206-209 | re-sending the two warning actions changes nothing |
| SensitiveData.GetInitialState | frontend/src/context/SensitiveDataContext.tsx:70-104 | unlocked, with the token's expiry and count and the restoration message, iff the token is valid with a non-zero count; otherwise the default locked state; the invariant holds |
| SensitiveData.Dispatch | frontend/src/context/SensitiveDataContext.tsx:142-143 | the reducer's state, with the stored token removed exactly on `SET_LOCKED` |
| SensitiveData.Settle | frontend/src/context/SensitiveDataContext.tsx:193-222 | a change of (isUnlocked, expiresAt) restarts the interval against the current expiry and resets the dismissal; with no change nothing happens |
| SensitiveData.Mount | frontend/src/context/SensitiveDataContext.tsx:190-222 | the first render runs the initial state and then the effect; the interval runs iff unlocked |
| SensitiveData.Tick | frontend/src/context/SensitiveDataContext.tsx:199-214 | a tick publishes the timer helper's count for the captured expiry and leaves the request/verify fields alone; with no interval nothing happens |
| SensitiveData.TickWithTimeLeft | frontend/src/context/SensitiveDataContext.tsx:199-210 | with time left, the session stays unlocked and the warning is raised exactly when 0 < left <= 60, the captured flag is off and the warning was not dismissed |
| SensitiveData.TickAtExpiryLocks | frontend/src/context/SensitiveDataContext.tsx:211-213 | at zero the session locks, the stored token is removed and the interval stops |
| SensitiveData.RepeatedRaiseIsHarmless | frontend/src/context/SensitiveDataContext.tsx:206 | with the warning already up, the stale captured flag re-raises it, which changes only the count |
| SensitiveData.HandleCloseExpiryWarningModal | frontend/src/context/SensitiveDataContext.tsx:297-301 | the modal closes and the dismissal is recorded in the state and the ref; `isWarningShown` and the other fields are untouched |
| SensitiveData.TickKeepsDismissal | frontend/src/context/SensitiveDataContext.tsx:199-214 | a tick keeps a dismissed, closed warning dismissed and closed, and keeps the client invariant |
| SensitiveData.DismissalSurvivesTicks | frontend/src/context/SensitiveDataContext.tsx:199-214 | every tick of a run of ticks keeps a dismissed, closed warning dismissed and closed |
| SensitiveData.DismissedWarningStaysClosed | frontend/src/context/SensitiveDataContext.tsx:206 | after a dismissal, no later tick, in any run of ticks, reopens the warning |
| SensitiveData.RequestVerificationCodeFlow | frontend/src/context/SensitiveDataContext.tsx:224-242 | the in-flight flag ends false; a reply sets the message and no error; a failure sets the thrown message or the fallback; nothing else changes |
| SensitiveData.VerifyCodeFlow | frontend/src/context/SensitiveDataContext.tsx:244-279 | the in-flight flag ends false; a failure sets the thrown message or the fallback; a reply that is not granted changes nothing else; the request message is always kept, and the request error is kept or cleared |
| SensitiveData.VerifyGrantedUnlocks | frontend/src/context/SensitiveDataContext.tsx:251-268 | a grant saves the token, unlocks with the reply's expiry, the floored seconds left and "Sensitive data access granted!", clears both errors, and keeps the interval on the new expiry |
| SensitiveData.NewExpiryResetsDismissal | frontend/src/context/SensitiveDataContext.tsx:196-199 | unlocking with a new expiry resets the dismissal and captures a warning flag that is off |
| SensitiveData.UnlockWarnThenLock | frontend/src/context/SensitiveDataContext.tsx:199-214 | unlocked 65 s before expiry: 5 s later the warning is raised at 60 s, and at expiry the session locks and the token is gone |
| CodeEntry.HandleInputChange | frontend/src/components/VerificationModal.tsx:56-68 | a non-empty value that is not one digit is ignored; otherwise only slot `index` changes; focus moves to the next slot iff the value is non-empty and the slot is not the last; well-formed buffers stay well-formed |
| CodeEntry.HandleKeyDown | frontend/src/components/VerificationModal.tsx:70-87 | focus moves back on ArrowLeft, or on Backspace in an empty slot, when not at slot 0; it moves forward on ArrowRight when not at slot 5; Enter submits; every focus target is in 0..5 |
| CodeEntry.KeepDigits | frontend/src/components/VerificationModal.tsx:92 | the filtered text is all digits and no longer than the input |
| CodeEntry.KeepDigitsOfDigits | frontend/src/components/VerificationModal.tsx:92 | a text of digits passes the filter unchanged |
| CodeEntry.KeepDigitsSingle | frontend/src/components/VerificationModal.tsx:92 | the filter keeps a digit and drops any other character |
| CodeEntry.KeepDigitsAppend | frontend/src/components/VerificationModal.tsx:92 | the filter distributes over concatenation |
| CodeEntry.PastedDigits | frontend/src/components/VerificationModal.tsx:92 | at most six digits are kept |
| CodeEntry.Overlay | frontend/src/components/VerificationModal.tsx:95-98 | the leading slots take the digits one each, and the remaining slots are unchanged |
| CodeEntry.HandlePaste | frontend/src/components/VerificationModal.tsx:89-104 | with no digits nothing happens; otherwise the first k = min(6, digits) slots are overwritten and the rest kept; focus moves to min(k, 5); well-formedness is preserved |
| CodeEntry.PasteSixDigits | frontend/src/components/VerificationModal.tsx:89-115 | pasting exactly six digits makes the joined code that text |
| CodeEntry.JoinOfSingles | frontend/src/components/VerificationModal.tsx:107 | joining one-character slots spells their characters |
| CodeEntry.JoinOfEmpties | frontend/src/components/VerificationModal.tsx:129 | joining empty slots gives the empty string |
| CodeEntry.JoinLengthCountsFilled | frontend/src/components/VerificationModal.tsx:107-108 | over slots of length 0 or 1, the joined length is the number of filled slots |
| CodeEntry.FilledIsFull | frontend/src/components/VerificationModal.tsx:133 | the count of filled slots equals the number of slots iff no slot is empty |
| CodeEntry.IsCodeComplete | frontend/src/components/VerificationModal.tsx:133 | every slot is non-empty; related to the submit guard by `SubmitGuardIsCompleteness` |
| CodeEntry.SubmitGuardIsCompleteness | frontend/src/components/VerificationModal.tsx:106-133 | on a well-formed buffer, the submit guard (joined length 6) holds iff `isCodeComplete` |
| CodeEntry.ClearRequestNotices | frontend/src/components/VerificationModal.tsx:112-113 | the request error and request message are cleared, and nothing else changes |
| CodeEntry.HandleSubmit | frontend/src/components/VerificationModal.tsx:106-115 | with fewer than six characters nothing happens; otherwise verification runs and ends not in flight, and the request error and message end cleared whatever the outcome; when nothing was granted the storage is unchanged |
| CodeEntry.SubmitGrantedUnlocks | frontend/src/components/VerificationModal.tsx:106-115 | a complete code that is granted unlocks the session with the reply's expiry and floored seconds, sets the success message, saves the token and restarts the countdown on the new expiry |
| CodeEntry.ClearVerifyNotices | frontend/src/components/VerificationModal.tsx:122-123 | the verify error and verify message are cleared, and nothing else changes |
| CodeEntry.HandleResend | frontend/src/components/VerificationModal.tsx:117-126 | a no-op while the cooldown is positive; otherwise the verify notices are cleared and a code is requested: a reply sets the request message and no error, a failure sets the thrown message or the fallback; the lock state, storage, interval and dismissal are kept, and the cooldown becomes 30 |
| CodeEntry.CooldownTick | frontend/src/components/VerificationModal.tsx:26-38 | the interval decrements a positive cooldown by one and never runs at zero |
| CodeEntry.CooldownStaysInRange | frontend/src/components/VerificationModal.tsx:117-126 | the cooldown stays in 0..30 under resends and ticks; after an accepted resend it is still running after 29 ticks and over after 30 |
| CodeEntry.CooldownAfterTicks | frontend/src/components/VerificationModal.tsx:26-38 | after n ticks the cooldown is max(0, cooldown − n) |
| CodeEntry.HandleClose | frontend/src/components/VerificationModal.tsx:128-131 | the buffer is reset to six empty slots: well-formed, incomplete, and joining to "" |
| CodeEntry.OnHidden | frontend/src/components/VerificationModal.tsx:46-54 | hiding the dialog clears all four messages and empties the buffer; every other session field, the storage, the interval and the dismissal are kept |

## Left out

- Storage I/O: SQLite, `localStorage` and the JSON/ISO-8601 text encodings. Tables are sequences, storage is a map, instants are integer milliseconds, and audit payloads are a structured value instead of a JSON string.
- Lexical comparison: the queries compare timestamps as text. `expires_at < CURRENT_TIMESTAMP` (`backend/src/database/queries/verification.ts:41`) compares an ISO string with SQLite's text timestamp. `window_start < ?` and `window_start > ?` (lines 73 and 78) compare the stored `window_start` with an ISO string. The model compares instants throughout.
- The `window_start` default: the limiter insert (line 91) leaves `window_start` to a schema default, and the schema is not part of this model. `VerificationStore.IncrementRateLimit` assumes that default is the insertion instant and compares it as an instant. If the default is SQLite's `CURRENT_TIMESTAMP` text (`YYYY-MM-DD HH:MM:SS`), a space sorts before the ISO `T`. A row from the same UTC day as the window start would then be deleted and never counted, and `RouteProperties.RequestLimitWithinWindow` and `RouteProperties.RequestSeriesCounts` would not describe the program.
- Database errors: the 500 answers after a failing query are not modelled. The one 500 that comes from the handler's own logic is a finding below.
- Concurrency: interleaved requests, which could race between the limiter check and the increment. Each handler call is one atomic step.
- Server collaborators: the e-mail simulation on the console, `getUserById` (its result is the `email` parameter), the authentication middleware (the user id is a parameter), and the request headers (the `RequestMeta` parameter).
- JWT internals: `jsonwebtoken` and `jwt-decode` are abstract. A token is a sealed value keyed by the secret, and the client's decoder is a function parameter. The HMAC and the base64url encoding are not modelled.
- Decimal.NatToString: renders every magnitude in plain digits. JavaScript's `toString()` switches to exponent notation from 1e21 up; no code value or second count comes near that.
- CodeEntry.HandleSubmit: the guard `codeString.length !== 6` counts UTF-16 units and the model counts characters. They agree on every buffer the dialog can hold, because typing and pasting keep each slot empty or one ASCII digit (`WellFormedBuffer`), and closing or hiding resets the buffer to empty slots.
- Floating point: `Math.random()` is a real draw in [0, 1), and `exp * 1000` uses exact reals. Rounding errors of binary floating point are not modelled.
- Non-numeric claims: a decoded `exp` that is not a number (a string, say) is not modelled. A claim is a number or absent.
- React scheduling: the lifecycle, batching and re-rendering are not modelled. Effects run as explicit events after each dispatch sequence; the interval is the `timer` field, and the dismissal ref is the `dismissed` field.
- Focus and disabled buttons: the input focus is reported as an index, not performed. The buttons' `disabled` attributes are presentation.
- The API client: `frontend/src/services/api.ts` is not part of this model. Each call's outcome is a parameter: a reply, a thrown `Error`, or another thrown value. The submitted code string is not passed to it.
- Presentational components: `SensitiveDataSection`, `ExpiryWarningModal` and `SensitiveDataTimer`.
- `VERIFICATION_CONFIG` is not part of this model. Its lengths, lifetimes, limits and windows are a parameter record, and the lemmas that need them positive say so.
- VerificationRoutes.RequestCode: reads one clock instant for the whole handler. The source reads the clock separately for the limiter, the code's expiry and the limiter row.
- VerificationRoutes.VerifyCode: the source reads the clock more than once. The model uses two readings: `t0` for the sweep, the limiter and, after the lookup, the not-found branch; `t1` for the expired and success branches, whose several readings collapse into it.
- SensitiveData.Reduce: carries no contract of its own. Its frame is stated by `ReduceFrame`, its payload values by `ReduceWritesFlags`, `ReduceWritesNotices` and `ReduceClearsNotices`, and its lock/unlock values by `LockTransitions`.
- VerificationRoutes.MaskPrefix: when the first character of a code lies in the Basic Multilingual Plane and the second does not, `substring(0, 2)` keeps the first character and half of the second's surrogate pair. Dafny strings cannot hold a lone surrogate, so the model keeps only the first character. `VerificationRoutes.MaskCode` inherits this.

## Findings

| source | as written | input that shows it | evidently intended | confidence | as-written member | corrected member |
|---|---|---|---|---|---|---|
| backend/src/routes/verification.ts:149 | for a `code` that is neither a string nor null/undefined, the format branch evaluates `code?.substring(0, 2)`, which throws a TypeError before the audit row is written, so the catch-all answers 500 with no audit | `POST /verify-code` with body `{"code": 123456}` | the format error "Invalid verification code format" (400), with a `CODE_VERIFY_INVALID_FORMAT` audit row | high; not executed | VerificationRoutes.VerifyCodeAsWritten | VerificationRoutes.VerifyCode |

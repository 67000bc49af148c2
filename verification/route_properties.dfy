/**
 * Properties of the step-up endpoints that span several requests or
 * several outcomes: single use of a code, the request limit within one
 * window, the request-then-verify round trip, and the tokens granted.
 */
module RouteProperties {
  import opened Wrappers
  import opened VerificationStore
  import opened VerificationRoutes
  import Settings
  import TokenService

  /**
   * With one clock reading for the sweep and the expiry test, the Expired
   * outcome cannot happen: the sweep already removed every code that the
   * test would reject.
   */
  lemma OneReadingNeverExpires(
    config: Settings.Config, secret: string, db: Db, userId: UserId, body: BodyCode, meta: RequestMeta, now: Millis)
    ensures VerifyCode(config, secret, db, userId, body, meta, now, now).response != BadRequest("Verification code has expired")
  {
    if WellFormed(config, body) && VerifyAllowed(config, db, userId, now) {
      var found := FoundCode(db, userId, body.text, now);
      if found.Some? {
        VerifySucceeds(config, secret, db, userId, body.text, meta, now, now);
      } else {
        VerifyNotFound(config, secret, db, userId, body.text, meta, now, now);
      }
    }
  }

  /** The code request's response is the same whatever code was drawn: the code only reaches the table. */
  lemma RequestResponseHidesCode(
    config: Settings.Config, db: Db, userId: UserId, meta: RequestMeta, now: Millis,
    draw: UnitDraw, other: UnitDraw, email: Option<string>)
    ensures RequestCode(config, db, userId, meta, now, draw, email).response
         == RequestCode(config, db, userId, meta, now, other, email).response
  {
  }

  /**
   * The token a successful verification grants validates for that user, with
   * the same secret, while the floored clock second is before the floored
   * expiry second; afterwards it fails opaquely.
   */
  lemma GrantedTokenValidates(config: Settings.Config, secret: string, userId: UserId, t1: Millis, later: Millis)
    ensures var m := MintRouteToken(config, secret, userId, t1);
      var check := TokenService.ValidateSensitiveDataToken(m.token, secret, later);
      && (check.valid <==> later / 1000 < m.expiresAt / 1000)
      && (check.valid ==> check == TokenService.TokenCheck(userId, true, None))
      && (!check.valid ==> check == TokenService.TokenCheck(0, false, Some("Token verification failed")))
  {
  }

  /** What a successful verification tells us about the branch it took. */
  lemma GrantedMeansLiveMatch(
    config: Settings.Config, secret: string, db: Db, userId: UserId, body: BodyCode, meta: RequestMeta, t0: Millis, t1: Millis)
    requires VerifyCode(config, secret, db, userId, body, meta, t0, t1).response.AccessGranted?
    ensures WellFormed(config, body) && VerifyAllowed(config, db, userId, t0)
    ensures FoundCode(db, userId, body.text, t0).Some? && t1 <= FoundCode(db, userId, body.text, t0).value.expiresAt
  {
    if !WellFormed(config, body) {
      VerifyRejectsMalformed(config, secret, db, userId, body, meta, t0, t1);
    } else if !VerifyAllowed(config, db, userId, t0) {
      VerifyRefusedByLimiter(config, secret, db, userId, body.text, meta, t0, t1);
    } else if FoundCode(db, userId, body.text, t0).None? {
      VerifyNotFound(config, secret, db, userId, body.text, meta, t0, t1);
    } else if t1 > FoundCode(db, userId, body.text, t0).value.expiresAt {
      VerifyCodeExpired(config, secret, db, userId, body.text, meta, t0, t1);
    }
  }

  /**
   * Single use: once a code is accepted, submitting it again later finds
   * nothing, provided no second live row carries the same code for the user.
   */
  lemma SecondVerifyFindsNothing(
    config: Settings.Config, secret: string, db: Db, userId: UserId, code: string, meta: RequestMeta,
    t0: Millis, t1: Millis, u0: Millis, u1: Millis)
    requires VerifyCode(config, secret, db, userId, Text(code), meta, t0, t1).response.AccessGranted?
    requires forall a, b :: a in db.codes && b in db.codes && IsActiveMatch(a, userId, code) && IsActiveMatch(b, userId, code) ==> a.id == b.id
    requires t0 <= u0
    ensures VerifyCode(config, secret, VerifyCode(config, secret, db, userId, Text(code), meta, t0, t1).db, userId, Text(code), meta, u0, u1).response
         == BadRequest("Invalid or expired verification code")
  {
    var first := VerifyCode(config, secret, db, userId, Text(code), meta, t0, t1);
    GrantedMeansLiveMatch(config, secret, db, userId, Text(code), meta, t0, t1);
    VerifySucceeds(config, secret, db, userId, code, meta, t0, t1);
    var found := FoundCode(db, userId, code, t0).value;
    var window := config.codeVerify.windowMinutes;
    // The limiter still lets the second attempt through: success added no row and the window only moved on.
    var ws := WindowStart(t0, window);
    var ws2 := WindowStart(u0, window);
    assert first.db.limits == Surviving(db.limits, ws);
    SurvivorsTotalAtMost(db.limits, ws, userId, CodeVerify, ws2);
    TotalAntitone(db.limits, userId, CodeVerify, ws, ws2);
    assert VerifyAllowed(config, first.db, userId, u0);
    // Nothing live matches any more: the one matching id was marked used.
    assert forall row :: row in first.db.codes && row.expiresAt >= u0 ==> !IsActiveMatch(row, userId, code);
    VerifyNotFound(config, secret, first.db, userId, code, meta, u0, u1);
  }

  /** A code request never makes the verification limiter stricter: it only deletes rows and adds one of the other kind. */
  lemma RequestKeepsVerifyAllowed(
    config: Settings.Config, db: Db, userId: UserId, meta: RequestMeta,
    now: Millis, draw: UnitDraw, email: Option<string>, t0: Millis)
    requires RequestAllowed(config, db, userId, now)
    requires VerifyAllowed(config, db, userId, t0)
    ensures VerifyAllowed(config, RequestCode(config, db, userId, meta, now, draw, email).db, userId, t0)
  {
    var wsReq := WindowStart(now, config.codeRequest.windowMinutes);
    var wsVer := WindowStart(t0, config.codeVerify.windowMinutes);
    var kept := Surviving(db.limits, wsReq);
    var row := RateLimit(db.nextLimitId, userId, CodeRequest, 1, now);
    RequestCodeLimits(config, db, userId, meta, now, draw, email);
    TotalOfAppend(kept, row, userId, CodeVerify, wsVer);
    SurvivorsTotalAtMost(db.limits, wsReq, userId, CodeVerify, wsVer);
  }

  /**
   * Round trip: the code a request stores is accepted by a verification of
   * that code, provided the configured length is six, the limiter allows,
   * no older live row carries the same code, and the expiry test runs
   * before the code's lifetime is over.
   */
  lemma RequestThenVerify(
    config: Settings.Config, secret: string, db: Db, userId: UserId, meta: RequestMeta,
    now: Millis, draw: UnitDraw, email: Option<string>, t0: Millis, t1: Millis)
    requires config.codeLength == 6
    requires RequestAllowed(config, db, userId, now)
    requires VerifyAllowed(config, db, userId, t0)
    requires forall row :: row in db.codes ==> !IsActiveMatch(row, userId, GenerateVerificationCode(draw))
    requires now <= t0 <= t1 <= now + Settings.MinutesToMillis(config.codeExpiryMinutes)
    ensures var requested := RequestCode(config, db, userId, meta, now, draw, email);
      VerifyCode(config, secret, requested.db, userId, Text(GenerateVerificationCode(draw)), meta, t0, t1).response.AccessGranted?
  {
    var requested := RequestCode(config, db, userId, meta, now, draw, email);
    var code := GenerateVerificationCode(draw);
    var stored := Last(requested.db.codes);
    Utf16LengthOfDigits(code);
    RequestSendsCode(config, db, userId, meta, now, draw, email);
    RequestKeepsVerifyAllowed(config, db, userId, meta, now, draw, email, t0);
    // The only live match is the row just stored, and it is still unexpired at t1.
    assert stored in requested.db.codes && IsActiveMatch(stored, userId, code);
    assert forall r :: r in requested.db.codes && IsActiveMatch(r, userId, code) ==> r == stored;
    VerifySucceeds(config, secret, requested.db, userId, code, meta, t0, t1);
  }

  // ---------------------------------------------------------------------
  // The request limit within one window
  // ---------------------------------------------------------------------

  /** One code request: when it arrives and what `Math.random()` returned. */
  datatype Call = Call(at: Millis, draw: UnitDraw)

  /** A run of code requests by one user, in order: the final database and every response. */
  function RequestSeries(
    config: Settings.Config, db: Db, userId: UserId, meta: RequestMeta, email: Option<string>, calls: seq<Call>): (r: (Db, seq<Response>))
    ensures |r.1| == |calls|
  {
    if |calls| == 0 then (db, [])
    else
      var earlier := RequestSeries(config, db, userId, meta, email, calls[..|calls| - 1]);
      var handled := RequestCode(config, earlier.0, userId, meta, Last(calls).at, Last(calls).draw, email);
      (handled.db, earlier.1 + [handled.response])
  }

  /** Every call of the run lands in one window that starts at `anchor`. */
  predicate WithinWindow(calls: seq<Call>, anchor: Millis, windowMillis: int) {
    forall k :: 0 <= k < |calls| ==> anchor <= calls[k].at < anchor + windowMillis
  }

  /**
   * The limiter bookkeeping for one user's code requests: their rows start
   * at or after `anchor`, so any window starting before `anchor` counts all
   * of them, and together they total `count`.
   */
  ghost predicate RequestRowsCounted(limits: seq<RateLimit>, userId: UserId, anchor: Millis, count: int) {
    && (forall row :: row in limits && row.userId == userId && row.requestType == CodeRequest ==> row.windowStart >= anchor)
    && InWindowTotal(limits, userId, CodeRequest, anchor - 1) == count
  }

  /** One request inside the window: it succeeds iff fewer than `maxAttempts` were counted, and the count saturates there. */
  lemma RequestStepCounts(
    config: Settings.Config, db: Db, userId: UserId, meta: RequestMeta, email: Option<string>, call: Call, anchor: Millis, n: nat)
    requires config.Positive()
    requires anchor <= call.at < anchor + Settings.MinutesToMillis(config.codeRequest.windowMinutes)
    requires RequestRowsCounted(db.limits, userId, anchor, Min(n, config.codeRequest.maxAttempts))
    ensures var handled := RequestCode(config, db, userId, meta, call.at, call.draw, email);
      && RequestRowsCounted(handled.db.limits, userId, anchor, Min(n + 1, config.codeRequest.maxAttempts))
      && (handled.response.CodeSent? <==> n < config.codeRequest.maxAttempts)
  {
    var max := config.codeRequest.maxAttempts;
    var ws := WindowStart(call.at, config.codeRequest.windowMinutes);
    var kept := Surviving(db.limits, ws);
    assert ws < anchor;
    TotalBelowAllRows(db.limits, userId, CodeRequest, ws, anchor - 1);
    SurvivorsKeepPairTotal(db.limits, ws, userId, CodeRequest, anchor - 1);
    assert InWindowTotal(kept, userId, CodeRequest, anchor - 1) == Min(n, max);
    assert RequestAllowed(config, db, userId, call.at) <==> n < max;
    RequestCodeLimits(config, db, userId, meta, call.at, call.draw, email);
    var handled := RequestCode(config, db, userId, meta, call.at, call.draw, email);
    if n < max {
      var row := RateLimit(db.nextLimitId, userId, CodeRequest, 1, call.at);
      assert handled.db.limits == kept + [row];
      TotalOfAppend(kept, row, userId, CodeRequest, anchor - 1);
      assert InWindowTotal(handled.db.limits, userId, CodeRequest, anchor - 1) == Min(n + 1, max);
      assert forall r :: r in handled.db.limits ==> r in db.limits || r == row;
    } else {
      assert handled.db.limits == kept;
    }
  }

  /** The limiter bookkeeping after a run of requests inside one window. */
  lemma {:induction false} RequestSeriesCounts(
    config: Settings.Config, db: Db, userId: UserId, meta: RequestMeta, email: Option<string>, calls: seq<Call>, anchor: Millis)
    requires config.Positive()
    requires WithinWindow(calls, anchor, Settings.MinutesToMillis(config.codeRequest.windowMinutes))
    requires forall row :: row in db.limits ==> row.userId != userId || row.requestType != CodeRequest
    ensures RequestRowsCounted(RequestSeries(config, db, userId, meta, email, calls).0.limits, userId, anchor,
                               Min(|calls|, config.codeRequest.maxAttempts))
    ensures forall k :: 0 <= k < |calls| ==>
      (RequestSeries(config, db, userId, meta, email, calls).1[k].CodeSent? <==> k < config.codeRequest.maxAttempts)
    decreases |calls|
  {
    if |calls| == 0 {
      NoRowsNoTotal(db.limits, userId, CodeRequest, anchor - 1);
    } else {
      var prefix := calls[..|calls| - 1];
      assert WithinWindow(prefix, anchor, Settings.MinutesToMillis(config.codeRequest.windowMinutes));
      RequestSeriesCounts(config, db, userId, meta, email, prefix, anchor);
      var earlier := RequestSeries(config, db, userId, meta, email, prefix);
      RequestStepCounts(config, earlier.0, userId, meta, email, Last(calls), anchor, |prefix|);
      var handled := RequestCode(config, earlier.0, userId, meta, Last(calls).at, Last(calls).draw, email);
      var after := RequestSeries(config, db, userId, meta, email, calls);
      assert after.0 == handled.db;
      assert after.1 == earlier.1 + [handled.response];
      forall k | 0 <= k < |calls|
        ensures after.1[k].CodeSent? <==> k < config.codeRequest.maxAttempts
      {
        if k < |prefix| {
          assert after.1[k] == earlier.1[k];
        }
      }
    }
  }

  /**
   * Within one window, starting from no earlier requests, the first
   * `maxAttempts` code requests succeed and every later one is refused
   * with 429.
   */
  lemma RequestLimitWithinWindow(
    config: Settings.Config, db: Db, userId: UserId, meta: RequestMeta, email: Option<string>, calls: seq<Call>, anchor: Millis)
    requires config.Positive()
    requires WithinWindow(calls, anchor, Settings.MinutesToMillis(config.codeRequest.windowMinutes))
    requires forall row :: row in db.limits ==> row.userId != userId || row.requestType != CodeRequest
    ensures var responses := RequestSeries(config, db, userId, meta, email, calls).1;
      forall k :: 0 <= k < |calls| ==>
        if k < config.codeRequest.maxAttempts then responses[k].CodeSent?
        else responses[k] == TooManyRequests("Rate limit exceeded. Please try again later.", config.codeRequest.windowMinutes * 60)
  {
    RequestSeriesCounts(config, db, userId, meta, email, calls, anchor);
    var responses := RequestSeries(config, db, userId, meta, email, calls).1;
    forall k | 0 <= k < |calls| && k >= config.codeRequest.maxAttempts
      ensures responses[k] == TooManyRequests("Rate limit exceeded. Please try again later.", config.codeRequest.windowMinutes * 60)
    {
      SeriesResponseIsRequestResponse(config, db, userId, meta, email, calls, k);
    }
  }

  /** Each response of a run is either a code sent or the 429 refusal. */
  lemma {:induction false} SeriesResponseIsRequestResponse(
    config: Settings.Config, db: Db, userId: UserId, meta: RequestMeta, email: Option<string>, calls: seq<Call>, k: nat)
    requires k < |calls|
    ensures var responses := RequestSeries(config, db, userId, meta, email, calls).1;
      responses[k].CodeSent? || responses[k] == TooManyRequests("Rate limit exceeded. Please try again later.", config.codeRequest.windowMinutes * 60)
    decreases |calls|
  {
    if k < |calls| - 1 {
      SeriesResponseIsRequestResponse(config, db, userId, meta, email, calls[..|calls| - 1], k);
    }
  }
}

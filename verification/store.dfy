/**
 * The three tables behind step-up verification (one-time codes, audit rows,
 * rate-limit rows) and the queries the routes run against them. Each query
 * is a pure transformer from one database value to the next; clock readings
 * (`CURRENT_TIMESTAMP`, `Date.now()`) arrive as `now` parameters in
 * milliseconds since the epoch.
 */
module VerificationStore {
  import opened Wrappers

  type UserId = int

  /** Milliseconds since the epoch. */
  type Millis = int

  /** A row of `verification_codes`. */
  datatype VerificationCode = VerificationCode(
    id: nat,
    userId: UserId,
    code: string,
    expiresAt: Millis,
    usedAt: Option<Millis>,
    createdAt: Millis)

  /**
   * The JSON payloads the routes store in `audit_logs.event_data`, kept as
   * structure: `{code: "<masked>"}` and `{email: <address or undefined>}`.
   * Their serialized forms are never the empty string.
   */
  datatype EventData = CodeHint(masked: string) | Recipient(email: Option<string>)

  /** A row of `audit_logs`. */
  datatype AuditLog = AuditLog(
    id: nat,
    userId: UserId,
    eventType: string,
    eventData: Option<EventData>,
    ipAddress: Option<string>,
    userAgent: Option<string>,
    createdAt: Millis)

  /** A row of `rate_limits`. */
  datatype RateLimit = RateLimit(
    id: nat,
    userId: UserId,
    requestType: string,
    requestCount: nat,
    windowStart: Millis)

  /** The database: three tables in row order plus their autoincrement counters. */
  datatype Db = Db(
    codes: seq<VerificationCode>,
    audits: seq<AuditLog>,
    limits: seq<RateLimit>,
    nextCodeId: nat,
    nextAuditId: nat,
    nextLimitId: nat)

  /** The id column is a key of every table and the next id is fresh. */
  ghost predicate Valid(db: Db) {
    && (forall a, b :: a in db.codes && b in db.codes && a.id == b.id ==> a == b)
    && (forall a, b :: a in db.audits && b in db.audits && a.id == b.id ==> a == b)
    && (forall a, b :: a in db.limits && b in db.limits && a.id == b.id ==> a == b)
    && (forall a :: a in db.codes ==> a.id < db.nextCodeId)
    && (forall a :: a in db.audits ==> a.id < db.nextAuditId)
    && (forall a :: a in db.limits ==> a.id < db.nextLimitId)
  }

  function Last<T>(s: seq<T>): T
    requires |s| > 0
  {
    s[|s| - 1]
  }

  /** The elements of `s` that satisfy `keep`, in their original order. */
  function Filter<T(!new)>(s: seq<T>, keep: T -> bool): (r: seq<T>)
    ensures forall x :: x in r <==> x in s && keep(x)
    ensures |r| <= |s|
  {
    if |s| == 0 then []
    else Filter(s[..|s| - 1], keep) + (if keep(Last(s)) then [Last(s)] else [])
  }

  // ---------------------------------------------------------------------
  // verification_codes
  // ---------------------------------------------------------------------

  /** `INSERT INTO verification_codes (user_id, code, expires_at)`: a fresh, unused row at the end. */
  function CreateVerificationCode(db: Db, userId: UserId, code: string, expiresAt: Millis, now: Millis): (r: Db)
    ensures |r.codes| == |db.codes| + 1 && r.codes[..|db.codes|] == db.codes
    ensures Last(r.codes).id == db.nextCodeId && r.nextCodeId > db.nextCodeId
    ensures Last(r.codes).userId == userId && Last(r.codes).code == code
    ensures Last(r.codes).expiresAt == expiresAt && Last(r.codes).usedAt == None
    ensures r.audits == db.audits && r.limits == db.limits
    ensures r.nextAuditId == db.nextAuditId && r.nextLimitId == db.nextLimitId
  {
    var row := VerificationCode(db.nextCodeId, userId, code, expiresAt, None, now);
    db.(codes := db.codes + [row], nextCodeId := db.nextCodeId + 1)
  }

  /** The filter of the code lookup: this user, this exact code, not yet used. */
  predicate IsActiveMatch(row: VerificationCode, userId: UserId, code: string) {
    row.userId == userId && row.code == code && row.usedAt.None?
  }

  /** The position of the first row the lookup filter accepts, if any. */
  function FirstActiveMatch(codes: seq<VerificationCode>, userId: UserId, code: string): (r: Option<nat>)
    ensures r.None? ==> forall i :: 0 <= i < |codes| ==> !IsActiveMatch(codes[i], userId, code)
    ensures r.Some? ==> r.value < |codes| && IsActiveMatch(codes[r.value], userId, code)
    ensures r.Some? ==> forall j :: 0 <= j < r.value ==> !IsActiveMatch(codes[j], userId, code)
  {
    if |codes| == 0 then None
    else if IsActiveMatch(codes[0], userId, code) then Some(0)
    else match FirstActiveMatch(codes[1..], userId, code)
      case None => None
      case Some(k) => Some(k + 1)
  }

  /**
   * `SELECT * FROM verification_codes WHERE user_id = ? AND code = ? AND
   * used_at IS NULL` read with `get`: the first such row, or none.
   */
  function GetVerificationCode(codes: seq<VerificationCode>, userId: UserId, code: string): (r: Option<VerificationCode>)
    ensures r.Some? ==> r.value in codes && IsActiveMatch(r.value, userId, code)
    ensures r.None? <==> forall row :: row in codes ==> !IsActiveMatch(row, userId, code)
  {
    match FirstActiveMatch(codes, userId, code)
    case None => None
    case Some(i) => Some(codes[i])
  }

  /** Every row whose id is `codeId` gets `used_at = now`; rows are matched from the back. */
  function MarkRows(codes: seq<VerificationCode>, codeId: nat, now: Millis): (r: seq<VerificationCode>)
    ensures |r| == |codes|
    ensures forall i :: 0 <= i < |codes| && codes[i].id != codeId ==> r[i] == codes[i]
    ensures forall i :: 0 <= i < |codes| && codes[i].id == codeId ==> r[i] == codes[i].(usedAt := Some(now))
  {
    if |codes| == 0 then []
    else
      var row := Last(codes);
      MarkRows(codes[..|codes| - 1], codeId, now) + [if row.id == codeId then row.(usedAt := Some(now)) else row]
  }

  /** `UPDATE verification_codes SET used_at = CURRENT_TIMESTAMP WHERE id = ?`. */
  function MarkVerificationCodeAsUsed(db: Db, codeId: nat, now: Millis): (r: Db)
    ensures |r.codes| == |db.codes|
    ensures forall i :: 0 <= i < |db.codes| && db.codes[i].id != codeId ==> r.codes[i] == db.codes[i]
    ensures forall i :: 0 <= i < |db.codes| && db.codes[i].id == codeId ==>
      r.codes[i].usedAt == Some(now) && r.codes[i].(usedAt := None) == db.codes[i].(usedAt := None)
    ensures r.audits == db.audits && r.limits == db.limits
    ensures r.nextCodeId == db.nextCodeId && r.nextAuditId == db.nextAuditId && r.nextLimitId == db.nextLimitId
  {
    db.(codes := MarkRows(db.codes, codeId, now))
  }

  /** `DELETE FROM verification_codes WHERE expires_at < CURRENT_TIMESTAMP`, used or not. */
  function CleanupExpiredCodes(db: Db, now: Millis): (r: Db)
    ensures forall row :: row in r.codes <==> row in db.codes && row.expiresAt >= now
    ensures r.audits == db.audits && r.limits == db.limits
    ensures r.nextCodeId == db.nextCodeId && r.nextAuditId == db.nextAuditId && r.nextLimitId == db.nextLimitId
  {
    db.(codes := Filter(db.codes, (row: VerificationCode) => row.expiresAt >= now))
  }

  // ---------------------------------------------------------------------
  // audit_logs
  // ---------------------------------------------------------------------

  /** JavaScript's `value || null` on an optional string: absent and empty both become null. */
  function NullIfEmpty(value: Option<string>): (r: Option<string>)
    ensures r.None? <==> value.None? || value.value == ""
    ensures r.Some? ==> r == value
  {
    match value
    case Some(s) => if s == "" then None else Some(s)
    case None => None
  }

  /** `INSERT INTO audit_logs ...`: exactly one row appended, the table otherwise untouched. */
  function CreateAuditLog(
    db: Db, userId: UserId, eventType: string, eventData: Option<EventData>,
    ipAddress: Option<string>, userAgent: Option<string>, now: Millis): (r: Db)
    ensures |r.audits| == |db.audits| + 1 && r.audits[..|db.audits|] == db.audits
    ensures Last(r.audits).id == db.nextAuditId && r.nextAuditId > db.nextAuditId
    ensures Last(r.audits).userId == userId && Last(r.audits).eventType == eventType
    ensures Last(r.audits).eventData == eventData
    ensures Last(r.audits).ipAddress.None? <==> ipAddress.None? || ipAddress == Some("")
    ensures Last(r.audits).userAgent.None? <==> userAgent.None? || userAgent == Some("")
    ensures Last(r.audits).ipAddress.Some? ==> Last(r.audits).ipAddress == ipAddress
    ensures Last(r.audits).userAgent.Some? ==> Last(r.audits).userAgent == userAgent
    ensures r.codes == db.codes && r.limits == db.limits
    ensures r.nextCodeId == db.nextCodeId && r.nextLimitId == db.nextLimitId
  {
    var row := AuditLog(db.nextAuditId, userId, eventType, eventData, NullIfEmpty(ipAddress), NullIfEmpty(userAgent), now);
    db.(audits := db.audits + [row], nextAuditId := db.nextAuditId + 1)
  }

  // ---------------------------------------------------------------------
  // rate_limits
  // ---------------------------------------------------------------------

  /** The instant `windowMinutes` before `now`. */
  function WindowStart(now: Millis, windowMinutes: int): Millis {
    now - windowMinutes * 60 * 1000
  }

  /** Whether a row is summed by the limiter query: this user and type, started strictly after `windowStart`. */
  predicate Counted(row: RateLimit, userId: UserId, requestType: string, windowStart: Millis) {
    row.userId == userId && row.requestType == requestType && row.windowStart > windowStart
  }

  /** `SUM(request_count)` over the counted rows, with an empty sum read as 0. */
  function InWindowTotal(limits: seq<RateLimit>, userId: UserId, requestType: string, windowStart: Millis): nat {
    if |limits| == 0 then 0
    else
      InWindowTotal(limits[..|limits| - 1], userId, requestType, windowStart)
      + (if Counted(Last(limits), userId, requestType, windowStart) then Last(limits).requestCount else 0)
  }

  /** The result of `checkRateLimit`: the database after its cleanup pass and the verdict. */
  datatype Checked = Checked(db: Db, allowed: bool)

  /** Rows with `window_start >= windowStart` survive the limiter's cleanup pass. */
  predicate Survives(row: RateLimit, windowStart: Millis) {
    row.windowStart >= windowStart
  }

  lemma TotalOfAppend(limits: seq<RateLimit>, row: RateLimit, userId: UserId, requestType: string, windowStart: Millis)
    ensures InWindowTotal(limits + [row], userId, requestType, windowStart)
         == InWindowTotal(limits, userId, requestType, windowStart)
            + (if Counted(row, userId, requestType, windowStart) then row.requestCount else 0)
  {
    assert (limits + [row])[..|limits|] == limits;
  }

  /** The rows the limiter's cleanup pass keeps, in order. */
  function Surviving(limits: seq<RateLimit>, windowStart: Millis): (r: seq<RateLimit>)
    ensures forall row :: row in r <==> row in limits && Survives(row, windowStart)
  {
    Filter(limits, (row: RateLimit) => Survives(row, windowStart))
  }

  /** Deleting rows strictly before the window start never changes a sum over rows strictly after it. */
  lemma {:induction false} CleanupKeepsTotal(limits: seq<RateLimit>, userId: UserId, requestType: string, windowStart: Millis)
    ensures InWindowTotal(Surviving(limits, windowStart), userId, requestType, windowStart)
         == InWindowTotal(limits, userId, requestType, windowStart)
    decreases |limits|
  {
    if |limits| > 0 {
      var front := limits[..|limits| - 1];
      var last := Last(limits);
      CleanupKeepsTotal(front, userId, requestType, windowStart);
      var f := Surviving(front, windowStart);
      if Survives(last, windowStart) {
        assert Surviving(limits, windowStart) == f + [last];
        TotalOfAppend(f, last, userId, requestType, windowStart);
      } else {
        assert Surviving(limits, windowStart) == f;
        assert !Counted(last, userId, requestType, windowStart);
      }
    }
  }

  /**
   * `checkRateLimit`: delete every row (any user, any type) older than this
   * caller's window, then allow iff this user's in-window total for this
   * type is below `limit`.
   */
  function CheckRateLimit(db: Db, userId: UserId, requestType: string, limit: int, windowMinutes: int, now: Millis): (r: Checked)
    ensures forall row :: row in r.db.limits <==> row in db.limits && row.windowStart >= WindowStart(now, windowMinutes)
    ensures r.db.limits == Surviving(db.limits, WindowStart(now, windowMinutes))
    ensures r.allowed <==> InWindowTotal(db.limits, userId, requestType, WindowStart(now, windowMinutes)) < limit
    ensures r.db.codes == db.codes && r.db.audits == db.audits
    ensures r.db.nextCodeId == db.nextCodeId && r.db.nextAuditId == db.nextAuditId && r.db.nextLimitId == db.nextLimitId
  {
    var windowStart := WindowStart(now, windowMinutes);
    var kept := Surviving(db.limits, windowStart);
    CleanupKeepsTotal(db.limits, userId, requestType, windowStart);
    Checked(db.(limits := kept), InWindowTotal(kept, userId, requestType, windowStart) < limit)
  }

  /** `INSERT INTO rate_limits (user_id, request_type, request_count) VALUES (?, ?, 1)`, stamped `now`. */
  function IncrementRateLimit(db: Db, userId: UserId, requestType: string, now: Millis): (r: Db)
    ensures |r.limits| == |db.limits| + 1 && r.limits[..|db.limits|] == db.limits
    ensures Last(r.limits) == RateLimit(db.nextLimitId, userId, requestType, 1, now) && r.nextLimitId > db.nextLimitId
    ensures forall windowStart :: windowStart < now ==>
      InWindowTotal(r.limits, userId, requestType, windowStart) == InWindowTotal(db.limits, userId, requestType, windowStart) + 1
    ensures forall u, t, windowStart :: u != userId || t != requestType || windowStart >= now ==>
      InWindowTotal(r.limits, u, t, windowStart) == InWindowTotal(db.limits, u, t, windowStart)
    ensures r.codes == db.codes && r.audits == db.audits
    ensures r.nextCodeId == db.nextCodeId && r.nextAuditId == db.nextAuditId
  {
    var row := RateLimit(db.nextLimitId, userId, requestType, 1, now);
    forall u, t, windowStart {
      TotalOfAppend(db.limits, row, u, t, windowStart);
    }
    db.(limits := db.limits + [row], nextLimitId := db.nextLimitId + 1)
  }

  // ---------------------------------------------------------------------
  // Properties relating several queries
  // ---------------------------------------------------------------------

  /** Moving the window start later never raises a total. */
  lemma {:induction false} TotalAntitone(limits: seq<RateLimit>, userId: UserId, requestType: string, windowStart: Millis, later: Millis)
    requires windowStart <= later
    ensures InWindowTotal(limits, userId, requestType, later) <= InWindowTotal(limits, userId, requestType, windowStart)
    decreases |limits|
  {
    if |limits| > 0 {
      TotalAntitone(limits[..|limits| - 1], userId, requestType, windowStart, later);
    }
  }

  /** A total over the rows a cleanup pass keeps is at most the total over the whole table. */
  lemma {:induction false} SurvivorsTotalAtMost(limits: seq<RateLimit>, cutoff: Millis, userId: UserId, requestType: string, windowStart: Millis)
    ensures InWindowTotal(Surviving(limits, cutoff), userId, requestType, windowStart)
         <= InWindowTotal(limits, userId, requestType, windowStart)
    decreases |limits|
  {
    if |limits| > 0 {
      var front := limits[..|limits| - 1];
      SurvivorsTotalAtMost(front, cutoff, userId, requestType, windowStart);
      var f := Surviving(front, cutoff);
      if Survives(Last(limits), cutoff) {
        assert Surviving(limits, cutoff) == f + [Last(limits)];
        TotalOfAppend(f, Last(limits), userId, requestType, windowStart);
      } else {
        assert Surviving(limits, cutoff) == f;
      }
    }
  }

  /** When every row of this user and type survives a cleanup pass, none of their totals changes. */
  lemma {:induction false} SurvivorsKeepPairTotal(limits: seq<RateLimit>, cutoff: Millis, userId: UserId, requestType: string, windowStart: Millis)
    requires forall row :: row in limits && row.userId == userId && row.requestType == requestType ==> row.windowStart >= cutoff
    ensures InWindowTotal(Surviving(limits, cutoff), userId, requestType, windowStart)
         == InWindowTotal(limits, userId, requestType, windowStart)
    decreases |limits|
  {
    if |limits| > 0 {
      var front := limits[..|limits| - 1];
      assert forall row :: row in front ==> row in limits;
      SurvivorsKeepPairTotal(front, cutoff, userId, requestType, windowStart);
      var f := Surviving(front, cutoff);
      if Survives(Last(limits), cutoff) {
        assert Surviving(limits, cutoff) == f + [Last(limits)];
        TotalOfAppend(f, Last(limits), userId, requestType, windowStart);
      } else {
        assert Surviving(limits, cutoff) == f;
        assert !Counted(Last(limits), userId, requestType, windowStart);
      }
    }
  }

  /** A table without rows for this user and type totals zero for them. */
  lemma {:induction false} NoRowsNoTotal(limits: seq<RateLimit>, userId: UserId, requestType: string, windowStart: Millis)
    requires forall row :: row in limits ==> row.userId != userId || row.requestType != requestType
    ensures InWindowTotal(limits, userId, requestType, windowStart) == 0
    decreases |limits|
  {
    if |limits| > 0 {
      var front := limits[..|limits| - 1];
      assert forall row :: row in front ==> row in limits;
      NoRowsNoTotal(front, userId, requestType, windowStart);
    }
  }

  /** Two cut-offs below every row of the pair count the same rows, so they total the same. */
  lemma {:induction false} TotalBelowAllRows(limits: seq<RateLimit>, userId: UserId, requestType: string, a: Millis, b: Millis)
    requires forall row :: row in limits && row.userId == userId && row.requestType == requestType ==> row.windowStart > a && row.windowStart > b
    ensures InWindowTotal(limits, userId, requestType, a) == InWindowTotal(limits, userId, requestType, b)
    decreases |limits|
  {
    if |limits| > 0 {
      var front := limits[..|limits| - 1];
      assert Last(limits) in limits;
      assert forall row :: row in front ==> row in limits;
      TotalBelowAllRows(front, userId, requestType, a, b);
    }
  }

  /** A row exactly at the window start is neither deleted by the cleanup pass nor counted toward the limit. */
  lemma BoundaryRowKeptButNotCounted(db: Db, row: RateLimit, userId: UserId, requestType: string, limit: int, windowMinutes: int, now: Millis)
    requires row.windowStart == WindowStart(now, windowMinutes)
    ensures row in CheckRateLimit(db.(limits := db.limits + [row]), userId, requestType, limit, windowMinutes, now).db.limits
    ensures CheckRateLimit(db.(limits := db.limits + [row]), userId, requestType, limit, windowMinutes, now).allowed
        == CheckRateLimit(db, userId, requestType, limit, windowMinutes, now).allowed
  {
    TotalOfAppend(db.limits, row, userId, requestType, row.windowStart);
  }

  /** Once a code's row is marked used, the lookup can no longer return that row. */
  lemma MarkedCodeIsNeverFound(db: Db, codeId: nat, now: Millis, userId: UserId, code: string)
    ensures var found := GetVerificationCode(MarkVerificationCodeAsUsed(db, codeId, now).codes, userId, code);
      found.Some? ==> found.value.id != codeId
  {
  }

  lemma CreatePreservesValid(db: Db, userId: UserId, code: string, expiresAt: Millis, now: Millis)
    requires Valid(db)
    ensures Valid(CreateVerificationCode(db, userId, code, expiresAt, now))
  {
  }

  /** Stamping `used_at` leaves the ids alone, so a key stays a key and a fresh id stays fresh. */
  lemma MarkKeepsKeys(codes: seq<VerificationCode>, codeId: nat, now: Millis, next: nat)
    requires forall a, b :: a in codes && b in codes && a.id == b.id ==> a == b
    requires forall a :: a in codes ==> a.id < next
    ensures forall a, b :: a in MarkRows(codes, codeId, now) && b in MarkRows(codes, codeId, now) && a.id == b.id ==> a == b
    ensures forall a :: a in MarkRows(codes, codeId, now) ==> a.id < next
  {
    var r := MarkRows(codes, codeId, now);
    forall a, b | a in r && b in r && a.id == b.id
      ensures a == b
    {
      var i :| 0 <= i < |r| && r[i] == a;
      var j :| 0 <= j < |r| && r[j] == b;
      assert codes[i] in codes && codes[j] in codes;
      assert codes[i].id == a.id && codes[j].id == b.id;
    }
    forall a | a in r
      ensures a.id < next
    {
      var i :| 0 <= i < |r| && r[i] == a;
      assert codes[i] in codes;
    }
  }

  /**
   * With ids as keys, the UPDATE by the id of a stored row stamps that one
   * row: afterwards the table holds the stamped row and every row with
   * another id, and nothing else.
   */
  lemma MarkStampsExactlyOne(db: Db, row: VerificationCode, now: Millis)
    requires Valid(db) && row in db.codes
    ensures forall x :: x in MarkVerificationCodeAsUsed(db, row.id, now).codes <==>
      (x in db.codes && x.id != row.id) || x == row.(usedAt := Some(now))
  {
    var r := MarkVerificationCodeAsUsed(db, row.id, now).codes;
    forall x
      ensures x in r <==> (x in db.codes && x.id != row.id) || x == row.(usedAt := Some(now))
    {
      if x in r {
        var i :| 0 <= i < |r| && r[i] == x;
        assert db.codes[i] in db.codes;
        if db.codes[i].id == row.id {
          assert db.codes[i] == row;
        }
      }
      if x in db.codes && x.id != row.id {
        var i :| 0 <= i < |db.codes| && db.codes[i] == x;
        assert r[i] == x;
      }
      if x == row.(usedAt := Some(now)) {
        var k :| 0 <= k < |db.codes| && db.codes[k] == row;
        assert r[k] == x;
      }
    }
  }

  lemma MarkPreservesValid(db: Db, codeId: nat, now: Millis)
    requires Valid(db)
    ensures Valid(MarkVerificationCodeAsUsed(db, codeId, now))
  {
    MarkKeepsKeys(db.codes, codeId, now, db.nextCodeId);
  }

  lemma CleanupPreservesValid(db: Db, now: Millis)
    requires Valid(db)
    ensures Valid(CleanupExpiredCodes(db, now))
  {
  }

  lemma AuditPreservesValid(
    db: Db, userId: UserId, eventType: string, eventData: Option<EventData>,
    ipAddress: Option<string>, userAgent: Option<string>, now: Millis)
    requires Valid(db)
    ensures Valid(CreateAuditLog(db, userId, eventType, eventData, ipAddress, userAgent, now))
  {
  }

  lemma CheckPreservesValid(db: Db, userId: UserId, requestType: string, limit: int, windowMinutes: int, now: Millis)
    requires Valid(db)
    ensures Valid(CheckRateLimit(db, userId, requestType, limit, windowMinutes, now).db)
  {
  }

  lemma IncrementPreservesValid(db: Db, userId: UserId, requestType: string, now: Millis)
    requires Valid(db)
    ensures Valid(IncrementRateLimit(db, userId, requestType, now))
  {
  }
}

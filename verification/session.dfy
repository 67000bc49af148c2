/**
 * The client's step-up session: the state record, its reducer, the initial
 * state restored from storage, the one-second countdown tick, the dismissal
 * of the expiry warning, and the two server round trips as action
 * sequences. React's rendering is replaced by explicit events; the effect
 * keyed on (`isUnlocked`, `expiresAt`) runs after each event that changed
 * that key.
 */
module SensitiveData {
  import opened Wrappers
  import ClientToken
  import TimeUtils

  type Millis = int

  datatype State = State(
    isUnlocked: bool,
    expiresAt: Option<Millis>,
    timeRemaining: int,
    isWarningShown: bool,
    isExpiryWarningModalOpen: bool,
    isWarningModalDismissed: bool,
    isRequestingCode: bool,
    isVerifyingCode: bool,
    requestError: Option<string>,
    verifyError: Option<string>,
    requestSuccessMessage: Option<string>,
    verifySuccessMessage: Option<string>)

  /** The locked state with every flag off and every message absent. */
  const Default := State(false, None, 0, false, false, false, false, false, None, None, None, None)

  datatype Action =
    | SetRequestingCode(flag: bool)
    | SetVerifyingCode(flag: bool)
    | SetRequestError(text: Option<string>)
    | SetVerifyError(text: Option<string>)
    | SetRequestSuccessMessage(text: Option<string>)
    | SetVerifySuccessMessage(text: Option<string>)
    | SetUnlocked(expiresAt: Millis, timeRemaining: int)
    | SetLocked
    | UpdateTimeRemaining(seconds: int)
    | SetWarningShown(flag: bool)
    | SetExpiryWarningModalOpen(flag: bool)
    | SetWarningModalDismissed(flag: bool)
    | ClearRequestError
    | ClearVerifyError
    | ClearRequestSuccessMessage
    | ClearVerifySuccessMessage
    | Unknown(name: string)   // any other `type`, which the reducer ignores

  /** The twelve fields of the session record, by name. */
  datatype Field =
    | UnlockedField | ExpiresAtField | RemainingField
    | WarningShownField | ModalOpenField | ModalDismissedField
    | RequestingField | VerifyingField
    | RequestErrorField | VerifyErrorField | RequestMessageField | VerifyMessageField

  /** `s` and `t` hold the same value in field `f`. */
  predicate Agree(s: State, t: State, f: Field) {
    match f
    case UnlockedField => s.isUnlocked == t.isUnlocked
    case ExpiresAtField => s.expiresAt == t.expiresAt
    case RemainingField => s.timeRemaining == t.timeRemaining
    case WarningShownField => s.isWarningShown == t.isWarningShown
    case ModalOpenField => s.isExpiryWarningModalOpen == t.isExpiryWarningModalOpen
    case ModalDismissedField => s.isWarningModalDismissed == t.isWarningModalDismissed
    case RequestingField => s.isRequestingCode == t.isRequestingCode
    case VerifyingField => s.isVerifyingCode == t.isVerifyingCode
    case RequestErrorField => s.requestError == t.requestError
    case VerifyErrorField => s.verifyError == t.verifyError
    case RequestMessageField => s.requestSuccessMessage == t.requestSuccessMessage
    case VerifyMessageField => s.verifySuccessMessage == t.verifySuccessMessage
  }

  /** The three warning flags: shown, modal open, modal dismissed. */
  const WarningFields := {WarningShownField, ModalOpenField, ModalDismissedField}

  /** The fields an action may write; every other field keeps its value. */
  function Footprint(action: Action): set<Field> {
    match action
    case SetRequestingCode(_) => {RequestingField}
    case SetVerifyingCode(_) => {VerifyingField}
    case SetRequestError(_) => {RequestErrorField}
    case SetVerifyError(_) => {VerifyErrorField}
    case SetRequestSuccessMessage(_) => {RequestMessageField}
    case SetVerifySuccessMessage(_) => {VerifyMessageField}
    case SetUnlocked(_, _) => {UnlockedField, ExpiresAtField, RemainingField, RequestErrorField, VerifyErrorField} + WarningFields
    case SetLocked => {UnlockedField, ExpiresAtField, RemainingField} + WarningFields
    case UpdateTimeRemaining(_) => {RemainingField}
    case SetWarningShown(_) => {WarningShownField}
    case SetExpiryWarningModalOpen(_) => {ModalOpenField}
    case SetWarningModalDismissed(_) => {ModalDismissedField}
    case ClearRequestError => {RequestErrorField}
    case ClearVerifyError => {VerifyErrorField}
    case ClearRequestSuccessMessage => {RequestMessageField}
    case ClearVerifySuccessMessage => {VerifyMessageField}
    case Unknown(_) => {}
  }

  /** `sensitiveDataReducer`, without the storage side effect of `SET_LOCKED` (see `Dispatch`). */
  function Reduce(state: State, action: Action): State
  {
    match action
    case SetRequestingCode(flag) => state.(isRequestingCode := flag)
    case SetVerifyingCode(flag) => state.(isVerifyingCode := flag)
    case SetRequestError(text) => state.(requestError := text)
    case SetVerifyError(text) => state.(verifyError := text)
    case SetRequestSuccessMessage(text) => state.(requestSuccessMessage := text)
    case SetVerifySuccessMessage(text) => state.(verifySuccessMessage := text)
    case SetUnlocked(expiresAt, timeRemaining) =>
      state.(isUnlocked := true, expiresAt := Some(expiresAt), timeRemaining := timeRemaining,
             isWarningShown := false, isExpiryWarningModalOpen := false, isWarningModalDismissed := false,
             requestError := None, verifyError := None)
    case SetLocked =>
      state.(isUnlocked := false, expiresAt := None, timeRemaining := 0,
             isWarningShown := false, isExpiryWarningModalOpen := false, isWarningModalDismissed := false)
    case UpdateTimeRemaining(seconds) => state.(timeRemaining := seconds)
    case SetWarningShown(flag) => state.(isWarningShown := flag)
    case SetExpiryWarningModalOpen(flag) => state.(isExpiryWarningModalOpen := flag)
    case SetWarningModalDismissed(flag) => state.(isWarningModalDismissed := flag)
    case ClearRequestError => state.(requestError := None)
    case ClearVerifyError => state.(verifyError := None)
    case ClearRequestSuccessMessage => state.(requestSuccessMessage := None)
    case ClearVerifySuccessMessage => state.(verifySuccessMessage := None)
    case Unknown(_) => state
  }

  /** Each action writes only its footprint: every other field keeps its value, and an unknown action changes nothing. */
  lemma ReduceFrame(state: State, action: Action)
    ensures forall f :: f !in Footprint(action) ==> Agree(state, Reduce(state, action), f)
    ensures action.Unknown? ==> Reduce(state, action) == state
  {
    var next := Reduce(state, action);
    forall f | f !in Footprint(action)
      ensures Agree(state, next, f)
    {
    }
  }

  /** Each flag and count action writes its payload into its field. */
  lemma ReduceWritesFlags(s: State, flag: bool, seconds: int)
    ensures Reduce(s, SetRequestingCode(flag)).isRequestingCode == flag
    ensures Reduce(s, SetVerifyingCode(flag)).isVerifyingCode == flag
    ensures Reduce(s, UpdateTimeRemaining(seconds)).timeRemaining == seconds
    ensures Reduce(s, SetWarningShown(flag)).isWarningShown == flag
    ensures Reduce(s, SetExpiryWarningModalOpen(flag)).isExpiryWarningModalOpen == flag
    ensures Reduce(s, SetWarningModalDismissed(flag)).isWarningModalDismissed == flag
  {
  }

  /** Each message action writes its payload into its field. */
  lemma ReduceWritesNotices(s: State, text: Option<string>)
    ensures Reduce(s, SetRequestError(text)).requestError == text
    ensures Reduce(s, SetVerifyError(text)).verifyError == text
    ensures Reduce(s, SetRequestSuccessMessage(text)).requestSuccessMessage == text
    ensures Reduce(s, SetVerifySuccessMessage(text)).verifySuccessMessage == text
  {
  }

  /** Each clearing action writes `null` into its field. */
  lemma ReduceClearsNotices(s: State)
    ensures Reduce(s, ClearRequestError).requestError.None? && Reduce(s, ClearVerifyError).verifyError.None?
    ensures Reduce(s, ClearRequestSuccessMessage).requestSuccessMessage.None?
    ensures Reduce(s, ClearVerifySuccessMessage).verifySuccessMessage.None?
  {
  }

  /**
   * Unlocking takes the payload's expiry and count and clears the three
   * warning flags and both errors; locking drops the expiry, zeroes the
   * count and clears the warning flags.
   */
  lemma LockTransitions(state: State, expiresAt: Millis, timeRemaining: int)
    ensures var next := Reduce(state, SetUnlocked(expiresAt, timeRemaining));
      && next.isUnlocked && next.expiresAt == Some(expiresAt) && next.timeRemaining == timeRemaining
      && !next.isWarningShown && !next.isExpiryWarningModalOpen && !next.isWarningModalDismissed
      && next.requestError.None? && next.verifyError.None?
    ensures var next := Reduce(state, SetLocked);
      && !next.isUnlocked && next.expiresAt.None? && next.timeRemaining == 0
      && !next.isWarningShown && !next.isExpiryWarningModalOpen && !next.isWarningModalDismissed
  {
  }

  /** The session invariant: unlocked exactly when an expiry is known. */
  predicate Consistent(s: State) {
    s.isUnlocked <==> s.expiresAt.Some?
  }

  /** Every action keeps the invariant. */
  lemma ReducePreservesConsistent(s: State, action: Action)
    requires Consistent(s)
    ensures Consistent(Reduce(s, action))
  {
    ReduceFrame(s, action);
  }

  /** Every action sets its fields to values that depend on the action alone, so repeating it changes nothing. */
  lemma ReduceIdempotent(s: State, action: Action)
    ensures Reduce(Reduce(s, action), action) == Reduce(s, action)
  {
  }

  /** The pair of actions the tick sends to raise the expiry warning. */
  function RaiseWarning(s: State): (r: State)
    ensures r.isWarningShown && r.isExpiryWarningModalOpen
    ensures forall f :: f != WarningShownField && f != ModalOpenField ==> Agree(s, r, f)
  {
    Reduce(Reduce(s, SetWarningShown(true)), SetExpiryWarningModalOpen(true))
  }

  /** Raising the warning again on a state where it is raised changes nothing. */
  lemma RaiseWarningIdempotent(s: State)
    ensures RaiseWarning(RaiseWarning(s)) == RaiseWarning(s)
  {
  }

  // ---------------------------------------------------------------------
  // Initial state
  // ---------------------------------------------------------------------

  /**
   * `getInitialState`: unlocked with the stored token's expiry and seconds
   * left, and the restoration message, when the token is valid with a
   * non-zero count; the default locked state otherwise. The token check may
   * clear the stored token, so the storage it leaves is returned too.
   */
  function GetInitialState(storage: ClientToken.Storage, decode: ClientToken.Decoder, nowMs: Millis): (r: (State, ClientToken.Storage))
    ensures var loaded := ClientToken.IsValidSensitiveToken(storage, decode, nowMs);
      && r.1 == loaded.storage
      && (r.0.isUnlocked <==> loaded.info.valid && loaded.info.timeRemaining.value != 0)
      && (r.0.isUnlocked ==> r.0 == Default.(isUnlocked := true, expiresAt := loaded.info.expiresAt,
                                             timeRemaining := loaded.info.timeRemaining.value,
                                             verifySuccessMessage := Some("Session restored from previous verification")))
      && (!r.0.isUnlocked ==> r.0 == Default)
      && Consistent(r.0)
  {
    var loaded := ClientToken.IsValidSensitiveToken(storage, decode, nowMs);
    var info := loaded.info;
    if info.valid && info.expiresAt.Some? && info.timeRemaining.Some? && info.timeRemaining.value != 0 then
      (State(true, info.expiresAt, info.timeRemaining.value, false, false, false, false, false,
             None, None, None, Some("Session restored from previous verification")), loaded.storage)
    else
      (Default, loaded.storage)
  }

  // ---------------------------------------------------------------------
  // The provider: session, storage, the dismissal ref and the interval
  // ---------------------------------------------------------------------

  /** What the running interval's closure captured when it was set up. */
  datatype Capture = Capture(expiresAt: Millis, isWarningShown: bool)

  /**
   * The provider's whole state: the session, browser storage, the
   * `warningDismissedRef` flag, and the running countdown interval if any.
   */
  datatype Client = Client(session: State, storage: ClientToken.Storage, dismissed: bool, timer: Option<Capture>)

  /** The timer runs exactly while unlocked, against the current expiry. */
  predicate ClientInvariant(c: Client) {
    && Consistent(c.session)
    && (c.timer.Some? <==> c.session.isUnlocked)
    && (c.timer.Some? ==> c.session.expiresAt == Some(c.timer.value.expiresAt))
  }

  /** `dispatch`: the reducer, plus the token removal `SET_LOCKED` performs. */
  function Dispatch(c: Client, action: Action): (r: Client)
    ensures r.session == Reduce(c.session, action)
    ensures r.storage == if action.SetLocked? then ClientToken.ClearSensitiveToken(c.storage) else c.storage
    ensures r.dismissed == c.dismissed && r.timer == c.timer
  {
    Client(Reduce(c.session, action), if action.SetLocked? then ClientToken.ClearSensitiveToken(c.storage) else c.storage, c.dismissed, c.timer)
  }

  /**
   * The countdown effect, run when (`isUnlocked`, `expiresAt`) differs from
   * its value in `before`: the old interval is cleared; when unlocked, the
   * dismissal is reset and a new interval captures the current expiry and
   * `isWarningShown`.
   */
  function Settle(before: State, c: Client): (r: Client)
    ensures r.session == c.session && r.storage == c.storage
    ensures Consistent(c.session) && (before.isUnlocked, before.expiresAt) != (c.session.isUnlocked, c.session.expiresAt) ==> ClientInvariant(r)
    ensures (before.isUnlocked, before.expiresAt) == (c.session.isUnlocked, c.session.expiresAt) ==> r == c
    ensures (before.isUnlocked, before.expiresAt) != (c.session.isUnlocked, c.session.expiresAt) && c.session.isUnlocked && c.session.expiresAt.Some? ==>
      !r.dismissed && r.timer.Some? && r.timer.value.isWarningShown == c.session.isWarningShown
  {
    if (before.isUnlocked, before.expiresAt) == (c.session.isUnlocked, c.session.expiresAt) then c
    else if c.session.isUnlocked && c.session.expiresAt.Some? then
      c.(dismissed := false, timer := Some(Capture(c.session.expiresAt.value, c.session.isWarningShown)))
    else
      c.(timer := None)
  }

  /** The provider as first rendered: the initial state, and the effect's first run. */
  function Mount(storage: ClientToken.Storage, decode: ClientToken.Decoder, nowMs: Millis): (c: Client)
    ensures ClientInvariant(c)
    ensures !c.dismissed
    ensures c.session == GetInitialState(storage, decode, nowMs).0
    ensures c.timer.Some? ==> !c.timer.value.isWarningShown
  {
    var (session, kept) := GetInitialState(storage, decode, nowMs);
    var c := Client(session, kept, false, None);
    if session.isUnlocked && session.expiresAt.Some? then
      c.(timer := Some(Capture(session.expiresAt.value, session.isWarningShown)))
    else c
  }

  // ---------------------------------------------------------------------
  // The one-second tick
  // ---------------------------------------------------------------------

  /** Whether a tick that computed `left` seconds raises the warning, given what its closure captured and the dismissal ref. */
  predicate RaisesWarning(left: int, captured: Capture, dismissed: bool) {
    TimeUtils.IsTimeWarning(left) && !captured.isWarningShown && !dismissed
  }

  /**
   * One firing of the interval at clock `nowMs`: publish the seconds left,
   * raise the warning when it is due, and lock once nothing is left. With
   * no interval running nothing happens.
   */
  function Tick(c: Client, nowMs: Millis): (r: Client)
    ensures c.timer.None? ==> r == c
    ensures c.timer.Some? ==>
      var left := TimeUtils.GetTimeRemaining(c.timer.value.expiresAt, nowMs);
      && r.session.timeRemaining == left
      && (forall f :: f in {RequestingField, VerifyingField, RequestErrorField, VerifyErrorField, RequestMessageField, VerifyMessageField}
            ==> Agree(c.session, r.session, f))
  {
    if c.timer.None? then c
    else
      var captured := c.timer.value;
      var left := TimeUtils.GetTimeRemaining(captured.expiresAt, nowMs);
      var updated := Dispatch(c, UpdateTimeRemaining(left));
      var warned := if RaisesWarning(left, captured, c.dismissed) then updated.(session := RaiseWarning(updated.session)) else updated;
      var locked := if left <= 0 then Dispatch(warned, SetLocked) else warned;
      Settle(c.session, locked)
  }

  /** A tick with time left: the count is published, the lock and the storage stay, and the warning is raised exactly when due. */
  lemma TickWithTimeLeft(c: Client, nowMs: Millis)
    requires ClientInvariant(c)
    requires c.timer.Some? && TimeUtils.GetTimeRemaining(c.timer.value.expiresAt, nowMs) > 0
    ensures var left := TimeUtils.GetTimeRemaining(c.timer.value.expiresAt, nowMs);
      var r := Tick(c, nowMs);
      && ClientInvariant(r)
      && r.storage == c.storage && r.timer == c.timer && r.dismissed == c.dismissed
      && r.session.isUnlocked && r.session.expiresAt == c.session.expiresAt
      && (RaisesWarning(left, c.timer.value, c.dismissed) ==> r.session == RaiseWarning(c.session).(timeRemaining := left))
      && (!RaisesWarning(left, c.timer.value, c.dismissed) ==> r.session == c.session.(timeRemaining := left))
  {
  }

  /** The tick that finds nothing left locks the session, removes the stored token and stops the interval. */
  lemma TickAtExpiryLocks(c: Client, nowMs: Millis)
    requires ClientInvariant(c)
    requires c.timer.Some? && TimeUtils.GetTimeRemaining(c.timer.value.expiresAt, nowMs) == 0
    ensures var r := Tick(c, nowMs);
      && ClientInvariant(r)
      && !r.session.isUnlocked && r.session.expiresAt.None? && r.session.timeRemaining == 0
      && !r.session.isWarningShown && !r.session.isExpiryWarningModalOpen && !r.session.isWarningModalDismissed
      && r.storage == ClientToken.ClearSensitiveToken(c.storage) && r.timer.None?
  {
  }

  /**
   * The closure's `isWarningShown` is the one captured at unlock time, so
   * once the warning is up, every later tick in the warning band sends the
   * raise again; the repeat leaves the session as it was apart from the count.
   */
  lemma RepeatedRaiseIsHarmless(c: Client, nowMs: Millis)
    requires ClientInvariant(c) && c.timer.Some?
    requires c.session.isWarningShown && c.session.isExpiryWarningModalOpen
    requires TimeUtils.GetTimeRemaining(c.timer.value.expiresAt, nowMs) > 0
    ensures Tick(c, nowMs).session == c.session.(timeRemaining := TimeUtils.GetTimeRemaining(c.timer.value.expiresAt, nowMs))
  {
    TickWithTimeLeft(c, nowMs);
    var left := TimeUtils.GetTimeRemaining(c.timer.value.expiresAt, nowMs);
    if RaisesWarning(left, c.timer.value, c.dismissed) {
      assert RaiseWarning(c.session) == c.session;
    }
  }

  // ---------------------------------------------------------------------
  // Dismissing the warning
  // ---------------------------------------------------------------------

  /** `handleCloseExpiryWarningModal`: close the modal, record the dismissal in the state and in the ref. */
  function HandleCloseExpiryWarningModal(c: Client): (r: Client)
    ensures !r.session.isExpiryWarningModalOpen && r.session.isWarningModalDismissed && r.dismissed
    ensures forall f :: f != ModalOpenField && f != ModalDismissedField ==> Agree(c.session, r.session, f)
    ensures r.storage == c.storage && r.timer == c.timer
  {
    var closed := Dispatch(Dispatch(c, SetExpiryWarningModalOpen(false)), SetWarningModalDismissed(true));
    closed.(dismissed := true)
  }

  /** A tick keeps a dismissed, closed warning dismissed and closed, whatever the captured flag says. */
  lemma TickKeepsDismissal(c: Client, nowMs: Millis)
    requires ClientInvariant(c) && c.dismissed && !c.session.isExpiryWarningModalOpen
    ensures var r := Tick(c, nowMs);
      ClientInvariant(r) && r.dismissed && !r.session.isExpiryWarningModalOpen
  {
    if c.timer.Some? {
      if TimeUtils.GetTimeRemaining(c.timer.value.expiresAt, nowMs) > 0 {
        TickWithTimeLeft(c, nowMs);
      } else {
        TickAtExpiryLocks(c, nowMs);
      }
    }
  }

  /** The interval firing at each clock reading of `times`, in order. */
  function Ticks(c: Client, times: seq<Millis>): Client
    decreases |times|
  {
    if |times| == 0 then c else Ticks(Tick(c, times[0]), times[1..])
  }

  /** After a dismissal no later tick reopens the warning, whatever the captured flag says. */
  lemma {:induction false} DismissedWarningStaysClosed(c: Client, times: seq<Millis>)
    requires ClientInvariant(c)
    ensures !Ticks(HandleCloseExpiryWarningModal(c), times).session.isExpiryWarningModalOpen
  {
    var d := HandleCloseExpiryWarningModal(c);
    assert Consistent(d.session) by {
      assert Agree(c.session, d.session, UnlockedField) && Agree(c.session, d.session, ExpiresAtField);
    }
    DismissalSurvivesTicks(d, times);
  }

  /** Every tick of a run keeps a dismissed, closed warning dismissed and closed. */
  lemma {:induction false} DismissalSurvivesTicks(c: Client, times: seq<Millis>)
    requires ClientInvariant(c) && c.dismissed && !c.session.isExpiryWarningModalOpen
    ensures var r := Ticks(c, times);
      ClientInvariant(r) && r.dismissed && !r.session.isExpiryWarningModalOpen
    decreases |times|
  {
    if |times| > 0 {
      TickKeepsDismissal(c, times[0]);
      DismissalSurvivesTicks(Tick(c, times[0]), times[1..]);
    }
  }

  // ---------------------------------------------------------------------
  // Server round trips
  // ---------------------------------------------------------------------

  /** How an awaited API call ended: a reply, a thrown `Error` with its message, or something else thrown. */
  datatype ApiOutcome<T> = Replied(body: T) | Raised(message: string) | RaisedNonError

  /** The part of the verify-code reply the session reads. */
  datatype VerifyReply = VerifyReply(granted: bool, expiresAt: Millis, token: Option<string>)

  /** The error text a failed call leaves: the thrown message, or the fallback for a non-`Error` throw. */
  function FailureText<T>(outcome: ApiOutcome<T>, fallback: string): string
    requires !outcome.Replied?
  {
    if outcome.Raised? then outcome.message else fallback
  }

  /** `requestVerificationCode`: the in-flight flag around the call, then the message or the error. */
  function RequestVerificationCodeFlow(c: Client, outcome: ApiOutcome<string>): (r: Client)
    ensures !r.session.isRequestingCode
    ensures outcome.Replied? ==> r.session.requestError.None? && r.session.requestSuccessMessage == Some(outcome.body)
    ensures !outcome.Replied? ==>
      r.session.requestError == Some(FailureText(outcome, "Failed to request verification code"))
      && r.session.requestSuccessMessage == c.session.requestSuccessMessage
    ensures forall f :: f !in {RequestingField, RequestErrorField, RequestMessageField} ==> Agree(c.session, r.session, f)
    ensures r.storage == c.storage && r.timer == c.timer && r.dismissed == c.dismissed
  {
    var started := Dispatch(Dispatch(c, SetRequestingCode(true)), SetRequestError(None));
    var answered :=
      match outcome
      case Replied(message) => Dispatch(started, SetRequestSuccessMessage(Some(message)))
      case Raised(message) => Dispatch(started, SetRequestError(Some(message)))
      case RaisedNonError => Dispatch(started, SetRequestError(Some("Failed to request verification code")));
    Settle(c.session, Dispatch(answered, SetRequestingCode(false)))
  }

  /** The storage a granted reply leaves: the token saved when one came back non-empty. */
  function SaveGranted(storage: ClientToken.Storage, token: Option<string>): ClientToken.Storage {
    if token.Some? && token.value != "" then ClientToken.SaveSensitiveToken(storage, token.value) else storage
  }

  /**
   * `verifyCode`: the in-flight flag around the call; a granted reply saves
   * the token, unlocks with the reply's expiry and the seconds left (floored,
   * not clamped) and sets the success message; a failure sets the error.
   */
  function VerifyCodeFlow(c: Client, outcome: ApiOutcome<VerifyReply>, nowMs: Millis): (r: Client)
    ensures !r.session.isVerifyingCode
    ensures r.session.isRequestingCode == c.session.isRequestingCode
    ensures r.session.requestSuccessMessage == c.session.requestSuccessMessage
    ensures r.session.requestError.Some? ==> r.session.requestError == c.session.requestError
    ensures !(outcome.Replied? && outcome.body.granted) ==>
      && (forall f :: f !in {VerifyingField, VerifyErrorField} ==> Agree(c.session, r.session, f))
      && r.storage == c.storage && r.timer == c.timer && r.dismissed == c.dismissed
    ensures !outcome.Replied? ==> r.session.verifyError == Some(FailureText(outcome, "Failed to verify code"))
    ensures outcome.Replied? && !outcome.body.granted ==> r.session.verifyError.None?
  {
    var started := Dispatch(Dispatch(c, SetVerifyingCode(true)), SetVerifyError(None));
    var answered :=
      match outcome
      case Replied(reply) =>
        if reply.granted then
          var left := (reply.expiresAt - nowMs) / 1000;
          var saved := started.(storage := SaveGranted(started.storage, reply.token));
          Dispatch(Dispatch(saved, SetUnlocked(reply.expiresAt, left)), SetVerifySuccessMessage(Some("Sensitive data access granted!")))
        else started
      case Raised(message) => Dispatch(started, SetVerifyError(Some(message)))
      case RaisedNonError => Dispatch(started, SetVerifyError(Some("Failed to verify code")));
    Settle(c.session, Dispatch(answered, SetVerifyingCode(false)))
  }

  /**
   * A granted verification unlocks with the reply's expiry and the success
   * message, clears both errors, stores the returned token, and keeps the
   * countdown running against the new expiry.
   */
  lemma VerifyGrantedUnlocks(c: Client, reply: VerifyReply, nowMs: Millis)
    requires ClientInvariant(c)
    requires reply.granted
    ensures var r := VerifyCodeFlow(c, Replied(reply), nowMs);
      && ClientInvariant(r)
      && r.session.isUnlocked && r.session.expiresAt == Some(reply.expiresAt)
      && r.session.timeRemaining == (reply.expiresAt - nowMs) / 1000
      && r.session.verifySuccessMessage == Some("Sensitive data access granted!")
      && r.session.verifyError.None? && r.session.requestError.None?
      && !r.session.isVerifyingCode
      && r.storage == SaveGranted(c.storage, reply.token)
      && r.timer.Some? && r.timer.value.expiresAt == reply.expiresAt
  {
  }

  /** Unlocking with a new expiry resets the dismissal and captures a warning flag that is off. */
  lemma NewExpiryResetsDismissal(c: Client, reply: VerifyReply, nowMs: Millis)
    requires ClientInvariant(c)
    requires reply.granted && c.session.expiresAt != Some(reply.expiresAt)
    ensures var r := VerifyCodeFlow(c, Replied(reply), nowMs);
      !r.dismissed && r.timer == Some(Capture(reply.expiresAt, false))
  {
  }

  /**
   * A session unlocked 65 seconds before expiry: five seconds later the
   * tick shows 60 seconds and raises the warning; at the expiry instant the
   * tick locks and the stored token is gone.
   */
  lemma UnlockWarnThenLock(c: Client, token: string, t: Millis)
    requires ClientInvariant(c) && !c.session.isUnlocked && token != ""
    ensures var unlocked := VerifyCodeFlow(c, Replied(VerifyReply(true, t + 65000, Some(token))), t);
      var warned := Tick(unlocked, t + 5000);
      var expired := Tick(warned, t + 65000);
      && unlocked.session.isUnlocked && unlocked.session.timeRemaining == 65
      && ClientToken.StorageKey in unlocked.storage
      && warned.session.timeRemaining == 60
      && warned.session.isWarningShown && warned.session.isExpiryWarningModalOpen
      && !expired.session.isUnlocked && expired.timer.None?
      && ClientToken.StorageKey !in expired.storage
  {
    var reply := VerifyReply(true, t + 65000, Some(token));
    var unlocked := VerifyCodeFlow(c, Replied(reply), t);
    VerifyGrantedUnlocks(c, reply, t);
    NewExpiryResetsDismissal(c, reply, t);
    TickWithTimeLeft(unlocked, t + 5000);
    var warned := Tick(unlocked, t + 5000);
    TickAtExpiryLocks(warned, t + 65000);
  }
}

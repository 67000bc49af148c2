/**
 * The verification dialog's six-slot code entry: typing, pasting, keyboard
 * focus moves, the submit guard, the resend cooldown and closing. Focus is
 * reported as the slot index the handler would focus, if any.
 */
module CodeEntry {
  import opened Wrappers
  import Decimal
  import SensitiveData

  const Slots := 6

  /** The code buffer: one string per input box. */
  type Buffer = seq<string>

  const EmptyBuffer: Buffer := ["", "", "", "", "", ""]

  /** `/^\d$/`: exactly one ASCII digit. */
  predicate IsSingleDigit(value: string) {
    |value| == 1 && Decimal.IsDigit(value[0])
  }

  /** Six slots, each empty or one digit. */
  predicate WellFormedBuffer(code: Buffer) {
    |code| == Slots && forall i :: 0 <= i < |code| ==> code[i] == "" || IsSingleDigit(code[i])
  }

  /** A buffer after an edit, and the slot the handler moves focus to. */
  datatype Edited = Edited(code: Buffer, focus: Option<int>)

  /** `handleInputChange`: a non-empty value other than one digit is ignored; otherwise slot `index` takes it. */
  function HandleInputChange(code: Buffer, index: int, value: string): (r: Edited)
    requires |code| == Slots && 0 <= index < Slots
    ensures value != "" && !IsSingleDigit(value) ==> r == Edited(code, None)
    ensures value == "" || IsSingleDigit(value) ==>
      && |r.code| == Slots && r.code[index] == value
      && (forall i :: 0 <= i < Slots && i != index ==> r.code[i] == code[i])
      && (r.focus.Some? <==> value != "" && index < Slots - 1)
    ensures r.focus.Some? ==> r.focus == Some(index + 1) && 0 <= r.focus.value < Slots
    ensures WellFormedBuffer(code) ==> WellFormedBuffer(r.code)
  {
    if value != "" && !IsSingleDigit(value) then Edited(code, None)
    else Edited(code[index := value], if value != "" && index < 5 then Some(index + 1) else None)
  }

  /** The keys the handler reacts to; any other key does nothing. */
  datatype Key = Backspace | ArrowLeft | ArrowRight | Enter | OtherKey

  /** What a key press does: the slot focused, if any, and whether the code is submitted. */
  datatype KeyOutcome = KeyOutcome(focus: Option<int>, submit: bool)

  /** `handleKeyDown`: backspace on an empty slot and the left arrow move back, the right arrow forward, Enter submits. */
  function HandleKeyDown(code: Buffer, index: int, key: Key): (r: KeyOutcome)
    requires |code| == Slots && 0 <= index < Slots
    ensures r.focus.Some? ==> 0 <= r.focus.value < Slots && (r.focus.value == index - 1 || r.focus.value == index + 1)
    ensures r.focus == Some(index - 1) <==> index > 0 && (key == ArrowLeft || (key == Backspace && code[index] == ""))
    ensures r.focus == Some(index + 1) <==> index < Slots - 1 && key == ArrowRight
    ensures r.submit <==> key == Enter
  {
    var back := if key == Backspace && code[index] == "" && index > 0 then Some(index - 1) else None;
    var moved :=
      if key == ArrowLeft && index > 0 then Some(index - 1)
      else if key == ArrowRight && index < 5 then Some(index + 1)
      else back;
    KeyOutcome(moved, key == Enter)
  }

  /** `paste.replace(/\D/g, "")`: the digits of the text, in order. */
  function KeepDigits(text: string): (digits: string)
    ensures Decimal.AllDigits(digits)
    ensures |digits| <= |text|
  {
    if |text| == 0 then ""
    else if Decimal.IsDigit(text[|text| - 1]) then KeepDigits(text[..|text| - 1]) + [text[|text| - 1]]
    else KeepDigits(text[..|text| - 1])
  }

  /** A string of digits loses nothing to the filter. */
  lemma {:induction false} KeepDigitsOfDigits(text: string)
    requires Decimal.AllDigits(text)
    ensures KeepDigits(text) == text
    decreases |text|
  {
    if |text| > 0 {
      KeepDigitsOfDigits(text[..|text| - 1]);
      assert text[..|text| - 1] + [text[|text| - 1]] == text;
    }
  }

  /** The filter keeps a digit and drops any other character. */
  lemma KeepDigitsSingle(c: char)
    ensures KeepDigits([c]) == if Decimal.IsDigit(c) then [c] else ""
  {
    assert [c][..0] == "";
  }

  /** The filter distributes over concatenation. */
  lemma {:induction false} KeepDigitsAppend(front: string, back: string)
    ensures KeepDigits(front + back) == KeepDigits(front) + KeepDigits(back)
    decreases |back|
  {
    if |back| == 0 {
      assert front + back == front;
    } else {
      var whole := front + back;
      assert whole[..|whole| - 1] == front + back[..|back| - 1];
      KeepDigitsAppend(front, back[..|back| - 1]);
    }
  }

  /** The first six digits of a pasted text. */
  function PastedDigits(text: string): (digits: string)
    ensures Decimal.AllDigits(digits) && |digits| <= Slots
  {
    var all := KeepDigits(text);
    if |all| <= Slots then all else all[..Slots]
  }

  /** The buffer a paste of `digits` leaves: the digits over the leading slots, the rest as they were. */
  function Overlay(code: Buffer, digits: string): (r: Buffer)
    requires |code| == Slots && |digits| <= Slots
    ensures |r| == Slots
    ensures forall i :: 0 <= i < |digits| ==> r[i] == [digits[i]]
    ensures forall i :: |digits| <= i < Slots ==> r[i] == code[i]
  {
    seq(Slots, i requires 0 <= i < Slots => if i < |digits| then [digits[i]] else code[i])
  }

  /**
   * `handlePaste`: keep the digits of the pasted text, at most six; with
   * none, nothing happens; otherwise they overwrite the leading slots, one
   * per slot, and focus moves to the slot after them (the last slot at most).
   */
  method HandlePaste(code: Buffer, text: string) returns (r: Edited)
    requires |code| == Slots
    ensures PastedDigits(text) == "" ==> r == Edited(code, None)
    ensures PastedDigits(text) != "" ==>
      r.code == Overlay(code, PastedDigits(text))
      && r.focus == Some(if |PastedDigits(text)| < Slots - 1 then |PastedDigits(text)| else Slots - 1)
    ensures WellFormedBuffer(code) ==> WellFormedBuffer(r.code)
  {
    var digits := PastedDigits(text);
    if |digits| == 0 {
      return Edited(code, None);
    }
    var next := code;
    var i := 0;
    while i < |digits| && i < 6
      invariant 0 <= i <= |digits|
      invariant |next| == Slots
      invariant forall j :: 0 <= j < i ==> next[j] == [digits[j]]
      invariant forall j :: i <= j < Slots ==> next[j] == code[j]
    {
      next := next[i := [digits[i]]];
      i := i + 1;
    }
    assert next == Overlay(code, digits);
    var focus := if |digits| < 5 then |digits| else 5;
    r := Edited(next, Some(focus));
    if WellFormedBuffer(code) {
      forall j | 0 <= j < Slots
        ensures next[j] == "" || IsSingleDigit(next[j])
      {
        if j < |digits| {
          assert Decimal.IsDigit(digits[j]);
        }
      }
    }
  }

  /** Pasting a text of exactly six digits into any buffer fills the code with that text. */
  lemma PasteSixDigits(code: Buffer, text: string)
    requires |code| == Slots && |text| == Slots && Decimal.AllDigits(text)
    ensures Join(Overlay(code, PastedDigits(text))) == text
  {
    KeepDigitsOfDigits(text);
    var r := Overlay(code, text);
    JoinOfSingles(r, text);
  }

  /** `code.join("")`. */
  function Join(code: Buffer): string {
    if |code| == 0 then "" else Join(code[..|code| - 1]) + code[|code| - 1]
  }

  /** Joining one-character slots spells out those characters. */
  lemma {:induction false} JoinOfSingles(code: Buffer, text: string)
    requires |code| == |text|
    requires forall i :: 0 <= i < |code| ==> code[i] == [text[i]]
    ensures Join(code) == text
    decreases |code|
  {
    if |code| > 0 {
      JoinOfSingles(code[..|code| - 1], text[..|text| - 1]);
      assert text[..|text| - 1] + [text[|text| - 1]] == text;
    }
  }

  /** Joining empty slots gives the empty string. */
  lemma {:induction false} JoinOfEmpties(code: Buffer)
    requires forall i :: 0 <= i < |code| ==> code[i] == ""
    ensures Join(code) == ""
    decreases |code|
  {
    if |code| > 0 {
      JoinOfEmpties(code[..|code| - 1]);
    }
  }

  /** Over slots that are empty or one character, the joined length counts the filled slots. */
  function Filled(code: Buffer): nat {
    if |code| == 0 then 0 else Filled(code[..|code| - 1]) + (if code[|code| - 1] != "" then 1 else 0)
  }

  lemma {:induction false} JoinLengthCountsFilled(code: Buffer)
    requires forall i :: 0 <= i < |code| ==> code[i] == "" || |code[i]| == 1
    ensures |Join(code)| == Filled(code)
    decreases |code|
  {
    if |code| > 0 {
      JoinLengthCountsFilled(code[..|code| - 1]);
    }
  }

  /** The count of filled slots reaches the length exactly when no slot is empty. */
  lemma {:induction false} FilledIsFull(code: Buffer)
    ensures Filled(code) <= |code|
    ensures Filled(code) == |code| <==> forall i :: 0 <= i < |code| ==> code[i] != ""
    decreases |code|
  {
    if |code| > 0 {
      var front := code[..|code| - 1];
      FilledIsFull(front);
      if Filled(code) == |code| {
        assert forall i :: 0 <= i < |front| ==> code[i] == front[i];
      }
      if forall i :: 0 <= i < |code| ==> code[i] != "" {
        assert forall i :: 0 <= i < |front| ==> front[i] == code[i];
      }
    }
  }

  /** `isCodeComplete`: every slot holds something. */
  predicate IsCodeComplete(code: Buffer) {
    forall i :: 0 <= i < |code| ==> code[i] != ""
  }

  /** On a well-formed buffer the submit guard (joined length six) is the completeness test the button uses. */
  lemma SubmitGuardIsCompleteness(code: Buffer)
    requires WellFormedBuffer(code)
    ensures |Join(code)| == Slots <==> IsCodeComplete(code)
  {
    JoinLengthCountsFilled(code);
    FilledIsFull(code);
  }

  /** The two dispatches `handleSubmit` makes first: the request error and the request message are cleared, nothing else. */
  function ClearRequestNotices(c: SensitiveData.Client): (r: SensitiveData.Client)
    ensures r.session.requestError.None? && r.session.requestSuccessMessage.None?
    ensures r.session.(requestError := None, requestSuccessMessage := None) == c.session.(requestError := None, requestSuccessMessage := None)
    ensures r.storage == c.storage && r.timer == c.timer && r.dismissed == c.dismissed
  {
    var c1 := SensitiveData.Dispatch(c, SensitiveData.ClearRequestError);
    SensitiveData.Dispatch(c1, SensitiveData.ClearRequestSuccessMessage)
  }

  /**
   * `handleSubmit`: with fewer than six characters nothing happens;
   * otherwise the request error and message are cleared and the joined
   * code is verified, the verification ending as `outcome` says.
   */
  function HandleSubmit(c: SensitiveData.Client, code: Buffer, outcome: SensitiveData.ApiOutcome<SensitiveData.VerifyReply>, nowMs: int): (r: SensitiveData.Client)
    ensures |Join(code)| != Slots ==> r == c
    ensures |Join(code)| == Slots ==> !r.session.isVerifyingCode
    ensures |Join(code)| == Slots ==> r.session.requestError.None? && r.session.requestSuccessMessage.None?
    ensures |Join(code)| == Slots && !(outcome.Replied? && outcome.body.granted) ==> r.storage == c.storage
  {
    if |Join(code)| != 6 then c
    else
      var cleared := ClearRequestNotices(c);
      SensitiveData.VerifyCodeFlow(cleared, outcome, nowMs)
  }

  /** A complete code that the server grants unlocks the session, saves the token and restarts the countdown on the new expiry. */
  lemma SubmitGrantedUnlocks(c: SensitiveData.Client, code: Buffer, reply: SensitiveData.VerifyReply, nowMs: int)
    requires SensitiveData.ClientInvariant(c) && |Join(code)| == Slots && reply.granted
    ensures var r := HandleSubmit(c, code, SensitiveData.Replied(reply), nowMs);
      && SensitiveData.ClientInvariant(r)
      && r.session.isUnlocked && r.session.expiresAt == Some(reply.expiresAt)
      && r.session.timeRemaining == (reply.expiresAt - nowMs) / 1000
      && r.session.verifySuccessMessage == Some("Sensitive data access granted!") && r.session.verifyError.None?
      && r.storage == SensitiveData.SaveGranted(c.storage, reply.token)
      && r.timer.Some? && r.timer.value.expiresAt == reply.expiresAt
  {
    var cleared := ClearRequestNotices(c);
    assert SensitiveData.ClientInvariant(cleared) by {
      assert cleared.session.isUnlocked == c.session.isUnlocked && cleared.session.expiresAt == c.session.expiresAt;
    }
    SensitiveData.VerifyGrantedUnlocks(cleared, reply, nowMs);
  }

  /** The dialog's own state besides the buffer: the resend cooldown in seconds. */
  const ResendCooldown := 30

  /** The two dispatches `handleResend` makes first: the verify error and the verify message are cleared, nothing else. */
  function ClearVerifyNotices(c: SensitiveData.Client): (r: SensitiveData.Client)
    ensures r.session.verifyError.None? && r.session.verifySuccessMessage.None?
    ensures r.session.(verifyError := None, verifySuccessMessage := None) == c.session.(verifyError := None, verifySuccessMessage := None)
    ensures r.storage == c.storage && r.timer == c.timer && r.dismissed == c.dismissed
  {
    var c1 := SensitiveData.Dispatch(c, SensitiveData.ClearVerifyError);
    SensitiveData.Dispatch(c1, SensitiveData.ClearVerifySuccessMessage)
  }

  /** `handleResend`: refused during the cooldown; otherwise clear the verify error and message, request a code, and start the cooldown. */
  function HandleResend(c: SensitiveData.Client, cooldown: int, outcome: SensitiveData.ApiOutcome<string>): (r: (SensitiveData.Client, int))
    ensures cooldown > 0 ==> r == (c, cooldown)
    ensures cooldown <= 0 ==> r.1 == ResendCooldown && !r.0.session.isRequestingCode
    ensures cooldown <= 0 ==> r.0.session.verifyError.None? && r.0.session.verifySuccessMessage.None?
    ensures cooldown <= 0 ==> r.0.session.isUnlocked == c.session.isUnlocked && r.0.storage == c.storage
    ensures cooldown <= 0 && outcome.Replied? ==>
      r.0.session.requestSuccessMessage == Some(outcome.body) && r.0.session.requestError.None?
    ensures cooldown <= 0 && !outcome.Replied? ==>
      r.0.session.requestError == Some(SensitiveData.FailureText(outcome, "Failed to request verification code"))
    ensures cooldown <= 0 ==> r.0.timer == c.timer && r.0.dismissed == c.dismissed
  {
    if cooldown > 0 then (c, cooldown)
    else
      var cleared := ClearVerifyNotices(c);
      var next := SensitiveData.RequestVerificationCodeFlow(cleared, outcome);
      assert SensitiveData.Agree(cleared.session, next.session, SensitiveData.VerifyErrorField);
      assert SensitiveData.Agree(cleared.session, next.session, SensitiveData.VerifyMessageField);
      assert SensitiveData.Agree(cleared.session, next.session, SensitiveData.UnlockedField);
      (next, ResendCooldown)
  }

  /** One firing of the cooldown interval, which runs only while the cooldown is positive. */
  function CooldownTick(cooldown: int): (next: int)
    ensures cooldown > 0 ==> next == cooldown - 1
    ensures cooldown <= 0 ==> next == cooldown
  {
    if cooldown > 0 then cooldown - 1 else cooldown
  }

  /** Starting from zero, resends and ticks keep the cooldown within 0..30, and thirty ticks after an accepted resend it is over. */
  lemma CooldownStaysInRange(c: SensitiveData.Client, cooldown: int, outcome: SensitiveData.ApiOutcome<string>)
    requires 0 <= cooldown <= ResendCooldown
    ensures 0 <= HandleResend(c, cooldown, outcome).1 <= ResendCooldown
    ensures 0 <= CooldownTick(cooldown) <= ResendCooldown
    ensures CooldownAfter(HandleResend(c, 0, outcome).1, ResendCooldown) == 0
    ensures 0 < CooldownAfter(HandleResend(c, 0, outcome).1, ResendCooldown - 1)
  {
    CooldownAfterTicks(HandleResend(c, 0, outcome).1, ResendCooldown);
    CooldownAfterTicks(HandleResend(c, 0, outcome).1, ResendCooldown - 1);
  }

  /** The cooldown after `n` ticks. */
  function CooldownAfter(cooldown: int, n: nat): int {
    if n == 0 then cooldown else CooldownTick(CooldownAfter(cooldown, n - 1))
  }

  lemma {:induction false} CooldownAfterTicks(cooldown: int, n: nat)
    requires cooldown >= 0
    ensures CooldownAfter(cooldown, n) == if n >= cooldown then 0 else cooldown - n
    decreases n
  {
    if n > 0 {
      CooldownAfterTicks(cooldown, n - 1);
    }
  }

  /** `handleClose`: the buffer is emptied before the parent closes the dialog. */
  function HandleClose(code: Buffer): (r: Buffer)
    ensures WellFormedBuffer(r) && !IsCodeComplete(r) && Join(r) == ""
  {
    JoinOfEmpties(EmptyBuffer);
    EmptyBuffer
  }

  /** The effect that runs when the dialog is hidden: all four messages cleared, the buffer emptied. */
  function OnHidden(c: SensitiveData.Client): (r: (SensitiveData.Client, Buffer))
    ensures r.0.session.requestError.None? && r.0.session.verifyError.None?
    ensures r.0.session.requestSuccessMessage.None? && r.0.session.verifySuccessMessage.None?
    ensures r.0.session.isUnlocked == c.session.isUnlocked && r.0.session.expiresAt == c.session.expiresAt
    ensures r.0.storage == c.storage && r.1 == EmptyBuffer
    ensures r.0.session.(requestError := None, verifyError := None, requestSuccessMessage := None, verifySuccessMessage := None)
         == c.session.(requestError := None, verifyError := None, requestSuccessMessage := None, verifySuccessMessage := None)
    ensures r.0.timer == c.timer && r.0.dismissed == c.dismissed
  {
    var c1 := SensitiveData.Dispatch(c, SensitiveData.ClearRequestError);
    var c2 := SensitiveData.Dispatch(c1, SensitiveData.ClearVerifyError);
    var c3 := SensitiveData.Dispatch(c2, SensitiveData.ClearRequestSuccessMessage);
    (SensitiveData.Dispatch(c3, SensitiveData.ClearVerifySuccessMessage), EmptyBuffer)
  }
}

/**
 * The countdown helpers of the client: the `m:ss` rendering, the whole
 * seconds left before an instant, and the three-way timer status.
 * Seconds are integers here, as every caller passes a whole number.
 */
module TimeUtils {
  import opened Wrappers
  import Decimal

  /** JavaScript's `%`: the remainder takes the sign of the dividend. */
  function JsRem(a: int, b: int): (r: int)
    requires b > 0
    ensures a >= 0 ==> 0 <= r < b && r == a % b
    ensures a < 0 ==> -b < r <= 0 && r + (-a) % b == 0
  {
    if a >= 0 then a % b else -((-a) % b)
  }

  /** `String.prototype.padStart(2, "0")`. */
  function PadStart2(s: string): (r: string)
    ensures |s| >= 2 ==> r == s
    ensures |s| < 2 ==> |r| == 2 && r[2 - |s|..] == s && forall i :: 0 <= i < 2 - |s| ==> r[i] == '0'
  {
    if |s| >= 2 then s else if |s| == 1 then "0" + s else "00"
  }

  /** `formatTime`: whole minutes (floored), a colon, and the JavaScript remainder padded to two characters. */
  function FormatTime(seconds: int): string {
    Decimal.IntToString(seconds / 60) + ":" + PadStart2(Decimal.IntToString(JsRem(seconds, 60)))
  }

  /** On non-negative input the countdown reads minutes, a colon, then exactly two digits of the seconds. */
  lemma FormatTimeShape(seconds: nat)
    ensures FormatTime(seconds) == Decimal.NatToString(seconds / 60) + ":" + TwoDigits(seconds % 60)
  {
    TwoDigitsRendering(seconds % 60);
  }

  /** A negative count keeps JavaScript's signs: floored minutes and a truncated, negative remainder. */
  lemma NegativeSecondsRendering()
    ensures FormatTime(-5) == "-1:-5"
    ensures FormatTime(-65) == "-2:-5"
  {
    assert Decimal.NatToString(1) == "1" && Decimal.NatToString(2) == "2" && Decimal.NatToString(5) == "5";
  }

  /** The two-digit decimal rendering of a number below 100, tens first. */
  function TwoDigits(n: nat): (s: string)
    requires n < 100
    ensures |s| == 2 && Decimal.AllDigits(s)
  {
    [Decimal.DigitChar(n / 10), Decimal.DigitChar(n % 10)]
  }

  /** Padding the plain rendering of a number below 100 gives its two-digit form. */
  lemma TwoDigitsRendering(n: nat)
    requires n < 100
    ensures PadStart2(Decimal.IntToString(n)) == TwoDigits(n)
  {
    if n >= 10 {
      assert Decimal.NatToString(n) == Decimal.NatToString(n / 10) + [Decimal.DigitChar(n % 10)];
    }
  }

  /**
   * Reads an `m:ss` string back: decimal minutes, a colon, and exactly two
   * digits below 60. The inverse of `FormatTime` on non-negative seconds.
   */
  function ParseClock(text: string): (seconds: Option<nat>)
    ensures seconds.Some? ==> |text| >= 4 && text[|text| - 3] == ':'
  {
    if |text| >= 4 && text[|text| - 3] == ':'
       && Decimal.AllDigits(text[..|text| - 3]) && Decimal.AllDigits(text[|text| - 2..])
       && Decimal.DigitsValue(text[|text| - 2..]) < 60
    then Some(Decimal.DigitsValue(text[..|text| - 3]) * 60 + Decimal.DigitsValue(text[|text| - 2..]))
    else None
  }

  /** Round trip: the rendered countdown reads back as the seconds it shows. */
  lemma FormatThenParse(seconds: nat)
    ensures ParseClock(FormatTime(seconds)) == Some(seconds)
  {
    var text := FormatTime(seconds);
    FormatTimeShape(seconds);
    var minutes := Decimal.NatToString(seconds / 60);
    var rest := TwoDigits(seconds % 60);
    assert text == minutes + ":" + rest;
    assert text[..|text| - 3] == minutes;
    assert text[|text| - 2..] == rest;
    Decimal.NatToStringRoundTrip(seconds / 60);
    var n := seconds % 60;
    assert rest[..1] == [Decimal.DigitChar(n / 10)];
    assert Decimal.DigitValue(rest[0]) == n / 10 && Decimal.DigitValue(rest[1]) == n % 10;
    assert Decimal.DigitsValue(rest[..1]) == n / 10;
    assert Decimal.DigitsValue(rest) == n / 10 * 10 + n % 10;
  }

  /** Distinct non-negative second counts render differently. */
  lemma FormatTimeInjective(a: nat, b: nat)
    requires FormatTime(a) == FormatTime(b)
    ensures a == b
  {
    FormatThenParse(a);
    FormatThenParse(b);
  }

  /**
   * `getTimeRemaining` with the parsed expiry instant and the clock as
   * parameters: whole seconds left, floored, and never negative.
   */
  function GetTimeRemaining(expiryMs: int, nowMs: int): (seconds: nat)
    ensures expiryMs - nowMs < 1000 <==> seconds == 0
    ensures seconds > 0 ==> seconds * 1000 <= expiryMs - nowMs < seconds * 1000 + 1000
  {
    var diff := (expiryMs - nowMs) / 1000;
    if diff > 0 then diff else 0
  }

  /** A later clock never shows more time left. */
  lemma RemainingNeverGrows(expiryMs: int, nowMs: int, laterMs: int)
    requires nowMs <= laterMs
    ensures GetTimeRemaining(expiryMs, laterMs) <= GetTimeRemaining(expiryMs, nowMs)
  {
  }

  predicate IsTimeWarning(seconds: int) {
    seconds <= 60 && seconds > 0
  }

  predicate IsTimeCaution(seconds: int) {
    seconds <= 300 && seconds > 60
  }

  datatype TimerStatus = Warning | Caution | Normal

  /** `getTimerStatus`: warning first, then caution, else normal. */
  function GetTimerStatus(seconds: int): (status: TimerStatus)
    ensures status == Warning <==> 0 < seconds <= 60
    ensures status == Caution <==> 60 < seconds <= 300
    ensures status == Normal <==> seconds <= 0 || seconds > 300
  {
    if IsTimeWarning(seconds) then Warning
    else if IsTimeCaution(seconds) then Caution
    else Normal
  }

  /** The two alert bands never overlap, so the order of the tests in `GetTimerStatus` does not matter. */
  lemma WarningAndCautionDisjoint(seconds: int)
    ensures !(IsTimeWarning(seconds) && IsTimeCaution(seconds))
    ensures GetTimerStatus(seconds) == (if IsTimeCaution(seconds) then Caution else if IsTimeWarning(seconds) then Warning else Normal)
  {
  }

  /** Counting down, a warning stays a warning until zero, and a caution only gives way to a warning. */
  lemma StatusOnlyEscalates(earlier: int, later: int)
    requires 0 < later <= earlier
    ensures GetTimerStatus(earlier) == Warning ==> GetTimerStatus(later) == Warning
    ensures GetTimerStatus(earlier) == Caution ==> GetTimerStatus(later) != Normal
  {
  }
}
